# Verification of the xv6 kernel core and shell parser

This project models the parts of the system that carry its hard promises and proves them in Dafny: the write-ahead
log and the buffer cache, the inode layer with directories, paths and link counts, the user-space allocator, the
process table with sleep and wakeup, pipes, page tables, the shell's parser and grep's matcher.

`dafny verify dfyconfig.toml` checks everything. Each module comes in two layers. Code that updates things in place is
a class or a method with the loops of the source, proved against functions on values; the theorems are about those
functions, for all inputs, all reachable states or all runs. Concurrent code is a step system whose steps are the
critical sections of the source and what it does outside them, such as the test of `log_write` (single lock and unlock
steps in `SleepWakeup`), and the theorems quantify over every interleaving.

| part | files |
|---|---|
| write-ahead log | `LogDisk` (sector writes and crashes), `GroupCommit` (interleavings), `LogDriver` (log.c as it runs) |
| buffer cache | `BufferCache`, `CacheUse` (in terms of sectors) |
| user heap | `Heap` |
| inodes and blocks | `Bitmap`, `FileBlocks`, `LogUse` (what an operation logs), `FileSystem`, `Reservation` (against begin_op) |
| directories, paths, links | `Directory`, `DirectoryOps`, `PathNames`, `LinkCounts` (the tree), `SysFile` (the calls, on bytes) |
| processes | `ProcessTable`, `SleepWakeup` |
| pipes | `Pipe` |
| page tables | `PageTable`, `AddressSpace`, `SpaceGrowth`, `NewSpaces`, `VirtualMemory` (vm.c as it runs) |
| shell parser | `ShellSyntax` (parsing as functions), `ShellGrammar` (derivations), `ShellRoundTrip`, `ShellParser` (sh.c as it runs) |
| grep | `Regex` |

## What the code does not promise

Where a property one would expect is false of the code, the model keeps the code and the project gives an input that
shows it, together with the exact condition under which the property holds.

- `log_write` tests for a full log before it looks whether the sector is already logged, and refuses at `log.size - 1`.
  Staying within MAXOPBLOCKS distinct blocks is not enough (`AbsorbedWriteCanPanic`), and the log needs more than
  LOGSIZE sectors (`LogLargeEnoughIff`), while mkfs gives it exactly LOGSIZE.
- `log_write` makes that test before it takes the lock. Up to three operations can pass it and all append, and then
  commit writes past the log area or the header's array (`TwoTooMany`, `OverflowCorrupts`, `HeaderOverrun`). Crash
  safety is for the runs in which each append finds room: all runs within MAXOPBLOCKS distinct sectors if and only if
  the log area has more than LOGSIZE sectors or the header alone (`BudgetGivesRoom`, `NeverOverflowsIff`), and all
  runs without two `log_write`s at once (`SerialLogWritesHaveRoom`).
- A larger log meets another panic: NBUF is LOGSIZE too, so a full group pins every buffer and `commit` finds none for
  its first log block, and readers outside every operation hold buffers as well (`BufferLeftIff`). No log size avoids
  both. A reader that comes late panics a commit in the middle (`LateReader`), which is still atomic (`Commit`).
- A chunk of `filewrite` can log more than the MAXOPBLOCKS = 10 sectors that `begin_op` reserves for it, and a full one
  always does (`ChunkFitsIff`, `OutgrowsReservation`); `itrunc` makes a call of `log_write` for every block it frees
  (`TruncLogBounds`).
- `malloc` and `morecore` compute in 32 bits: right if and only if the request is at most MAXREQUEST
  (`SoundRequests`).
- `deallocuvm` steps 4MB past a missing page table without realigning and can leave pages mapped (`SkipCanMiss`,
  `ClearsAllIff`).
- `allocuvm` ignores the result of `mappages`, so it can report success with the last page missing: exactly when the
  free pages are one short of the need and the last page is the first of a missing table (`Allocuvm`, `Growproc`,
  `LastPageCanBeLost`, `LoseLastPage`). A fork then panics once there is memory for it (`LostPageIsHole`, `Copyuvm`).
- `setupkvm` drops what it has built when a page table cannot be had; by then every free page is in it (`Setupkvm`,
  `BuildAndFree`).
- `growproc` takes a new size of 0 for an error: the pages are freed but the recorded size stays, against its comment
  that it returns 0 on success (`Growproc`).
- A file created or linked in a directory that has been removed is counted but cannot be found
  (`RemovedDirectoryMiscounts`, `LinkCountedIff`, `CreateCountedIff`, `MkdirKeepsIff`).
- A process that stays in a removed directory can follow `..` to an inode that has been reclaimed, where `ilock` panics
  (`StrandedDirectory`, `SafeIffUpPasses`, `SysUnlink`).
- `kill` does not look at the state of the slot, a failed `fork` and `allocproc` do not clear `killed`: a child can start
  life killed (`KillZeroKillsTheNextChild`, `FailedForkKillsTheNextChild`, `CleanKeptIff`).
- A writer killed while the pipe is full returns without waking readers (`KilledWriterStrandsReader`,
  `SleepersKeptIff`).
- A wakeup without the condition's lock can be missed (`BareWakeupCanMiss`).

## Assumptions

- A sector write is atomic, and a crash falls between two sector writes.
- The results about the reservations of `begin_op` are for operations that keep to MAXOPBLOCKS distinct sectors
  (`GroupsAreSound`, `BudgetGivesRoom`, `RoomNeverPanics`) or calls (`LogLargeEnoughIff`, `BufferLeftIff`). Crash safety
  assumes no such bound, only that appends find room.
- Readers hold buffers of home sectors; those of the log area are `commit`'s and recovery's alone.
- The bitmap marks the metadata and the log blocks. mkfs leaves the log blocks unmarked.
- Buffers that hold nothing carry a device number no real device has (bio.c:52).
- `sbrk` is a parameter: it refuses, or grants memory at or above the last break.
- The page allocator is a set of free pages without page 0. The address of the kernel's data segment is a parameter,
  page aligned and between the kernel's text and the end of memory.
- A process calls `growproc` with a size above which none of its pages lies.

## Model

| member | source | states |
|---|---|---|
| LogDisk.EncodeHeader | log.c:101-112 | the header block that write_head makes reads back as exactly the logged sectors, whatever stale words stay behind them |
| LogDisk.RecoveryRestarts | log.c:69-81 | a recovery cut off after any number of its sector writes, started again, ends with the same disk |
| LogDisk.CrashingBootsHarmless | log.c:115-121 | any number of boots that each crash at any point of recovery change nothing about what the recovery that completes leaves |
| LogDisk.RecoveredIsClean | log.c:115-121 | a completed recovery leaves the log empty, so recovering again does nothing |
| LogDisk.BeforeCommitPoint | log.c:175-187 | until the header is written a commit has touched no home sector and no header |
| LogDisk.AtCommitPoint | log.c:190-195 | the one header write turns the rest of commit into exactly what recovery would do |
| LogDisk.CommitIsAtomic | log.c:190-199 | crash atomicity: for a crash after any sector write of commit and any crashes during recovery, every home sector ends old if the header had not been written and new if it had |
| LogDisk.CommitCompletes | log.c:190-199 | a commit that makes all its sector writes installs every logged block, changes no other home sector and leaves the log empty; LogDriver.Log.Commit says when it can make them |
| LogDisk.WritesStayOnDisk | log.c:69-81 | commit and install only write sectors the disk has |
| GroupCommit.StepKeeps | log.c:125-230 | every step of begin_op, of log_write (the size test outside the lock and the append under it are two steps), of end_op, a commit or recovery sector write, or a crash keeps the protocol invariant and never shortens the committed history, if an append that adds a sector finds room in the log area and the header |
| GroupCommit.CrashSafety | log.c:125-230 | for every interleaving of operations, disk writes and crashes since power-on in which each append that adds a sector finds room: recovering now yields exactly the committed log_writes, and an operation with one committed log_write has none pending and none lost |
| GroupCommit.EveryWriteAccounted | log.c:211-230 | every log_write of a run stays for ever among the committed, the pending or those a crash lost |
| GroupCommit.ReadersSeeAll | log.c:211-230 | in every state such runs reach but recovery, commits in progress included, a reader sees every log_write so far through the pinned buffer or the disk |
| GroupCommit.InstalledIsSeen | log.c:69-81 | in every state of a commit such runs reach, a block already installed is on the disk as it is in the cache, so its buffer may be recycled |
| GroupCommit.CommittedStays | log.c:190-199 | in every run, with room or without, what is committed stays committed, in order, through any later steps and crashes |
| GroupCommit.CommitRunsAlone | log.c:145-171 | in every run, with room or without, commit runs only with no operation outstanding, logged sectors are distinct, and the panic of end_op is out of reach |
| GroupCommit.GroupsAreSound | log.c:125-140 | when every operation keeps to MAXOPBLOCKS distinct sectors, however often it logs them, logged sectors plus unused reservations never exceed LOGSIZE; the tests of log_write have no part in it |
| GroupCommit.BudgetGivesRoom | log.c:125-140 | in such a run with a log area of more than LOGSIZE sectors every append finds room, so crash safety holds of it |
| GroupCommit.SerialLogWritesHaveRoom | log.c:211-230 | every append finds room, however much is logged, in runs where no two operations are between log_write's test and its append at once |
| GroupCommit.TwoTooMany | log.c:215-220 | in every run the log gets at most two sectors longer than the test means to allow: three operations can be past it at once |
| GroupCommit.LogAtMost | log.c:125-230 | the longest log of operations that keep to MAXOPBLOCKS distinct sectors, from the size of the log area |
| GroupCommit.LongestLog | log.c:211-230 | for every size of the log area, a run of operations within MAXOPBLOCKS calls that reaches a commit with that longest log |
| GroupCommit.NeverOverflowsIff | log.c:211-230 | operations that keep to MAXOPBLOCKS distinct sectors never log more than the log area holds if and only if it has more than LOGSIZE sectors, or the header alone |
| GroupCommit.OverflowCorrupts | log.c:175-187 | with 2 to LOGSIZE sectors a run within the budget comes to a commit that writes past the log area and a header recovery has no log blocks for |
| GroupCommit.HeaderOverrun | log.c:215-227 | without the budget two appends past the test overrun the header's array, whatever the size of the log area |
| GroupCommit.RoomNeverPanics | log.c:211-217 | in a run of operations within MAXOPBLOCKS distinct sectors, with a log larger than LOGSIZE, one that has sectors left never meets the panic of log_write |
| GroupCommit.LogLargeEnoughIff | log.c:211-217 | operations that keep to MAXOPBLOCKS calls never meet the panic of log_write if and only if the log area has more than LOGSIZE sectors |
| GroupCommit.BufferLeftIff | bio.c:85-95 | with r buffers held by readers outside every operation, every commit finds a buffer for write_log if and only if the longest log and r are fewer than NBUF; with r = 0 that is a log area of at most LOGSIZE - 2 sectors, since NBUF is LOGSIZE, so no log size avoids both panics |
| GroupCommit.AbsorbedWriteCanPanic | log.c:211-224 | the bound must be on calls: a run in which every operation logs at most MAXOPBLOCKS distinct blocks reaches the panic by logging one of them again |
| GroupCommit.AbsorbKeepsDistinct | log.c:220-227 | absorption adds a sector at most once |
| LogDriver.Log.WriteLog | log.c:175-187 | the loop on the buffer cache: its sector writes are the log copies in order, all of them or up to the first turn that finds no buffer |
| LogDriver.Log.WriteHead | log.c:101-112 | one bread and one write, of the header that encodes the logged sectors, or the panic of bget exactly when every buffer is pinned or busy |
| LogDriver.Log.ReadHead | log.c:85-95 | the sectors recorded in the header come back into memory, through a buffer that is released |
| LogDriver.Log.InstallTrans | log.c:69-81 | the loop on the buffer cache: its sector writes are the installs in order and each unpins its block, up to the first turn that finds no buffer; at boot it never lacks one |
| LogDriver.Log.Commit | log.c:190-199 | commit on the buffer cache while readers take and release buffers before each turn: its writes are CommitWrites in order, so CommitIsAtomic is about this code; all of them and an empty log exactly when every reader and every turn finds a buffer, and otherwise those of the turns before the first that does not |
| LogDriver.SteadyReaders | log.c:175-187 | if readers only keep what they hold, commit ends with one buffer neither pinned nor held at its start, and without one it panics before its first write |
| LogDriver.LateReader | log.c:175-187 | with one buffer to spare, a reader that comes before any turn up to the first of install_trans makes commit panic at that turn, with the writes of the turns before it on the disk |
| LogDriver.Log.RecoverFromLog | log.c:115-121 | recovery on the buffer cache at boot never lacks a buffer, its sector writes are RecoverWrites in order and the disk is then Recover's |
| LogDriver.Log.BeginOp | log.c:125-140 | admitted exactly when not committing and the logged blocks, with MAXOPBLOCKS for every running operation and the new one, fit in LOGSIZE; otherwise nothing changes |
| LogDriver.Log.LogWrite | log.c:211-230 | alone in log_write, it fails exactly when LOGSIZE or size - 1 blocks are logged or no operation runs; otherwise the sector is in the log once, at the end if it is new, its buffer pinned and the stored data changed at that sector only |
| LogDriver.Log.EndOp | log.c:145-160 | exactly the last operation out, with no commit under way, is told to commit |
| BufferCache.Cache.constructor | bio.c:39-56 | all NBUF buffers on one ring, none holding a sector; the cache stands for the disk |
| BufferCache.UnlinkRing | bio.c:129-130 | taking a buffer out leaves a ring of the others, in the same order |
| BufferCache.InsertRing | bio.c:131-134 | linking a buffer in after the head puts it first on the ring |
| BufferCache.MoveToFront | bio.c:122-140 | the released buffer moved to the front keeps the ring a permutation in order of most recent release |
| BufferCache.RecycleCoherent | bio.c:85-93 | giving a clean idle buffer to another sector loses nothing that was stored |
| BufferCache.Cache.FindVictim | bio.c:85-93 | the victim is the clean idle buffer released longest ago; none is reported only if every buffer is busy or dirty |
| BufferCache.AllInUse | bio.c:85-94 | no buffer can be recycled exactly when NBUF buffers are busy or dirty |
| BufferCache.Cache.Bget | bio.c:62-95 | a hit, or a recycled buffer that is neither busy nor dirty and least recently released; at most one buffer per sector; otherwise nothing changes |
| BufferCache.Cache.Bread | bio.c:99-107 | a successful bread hands out a busy buffer with what was last stored in that sector; for a log block nobody holds it succeeds exactly when fewer than NBUF buffers are busy or dirty |
| BufferCache.Cache.Store | log.c:228 | changing the data and log_write: the stored map changes at that sector only, and the buffer is pinned |
| BufferCache.Cache.Bwrite | bio.c:111-117 | the stored map and the disk change at that sector only |
| BufferCache.Cache.Brelse | bio.c:122-140 | idle again, first on the ring, every buffer's data as it was |
| CacheUse.Get | bio.c:62-107 | bread in terms of sectors: it waits exactly for a busy one and lacks a buffer exactly when the sector is neither busy nor pinned and the busy and pinned sectors are NBUF; otherwise only that sector becomes busy |
| CacheUse.UsedCount | bio.c:85-94 | the busy and the pinned sectors are as many as the buffers bget may not recycle |
| CacheUse.WriteOut | bio.c:111-117 | bwrite unpins exactly its sector, leaves every other buffer and appends one write to the disk's history |
| Heap.Allocator.constructor | umalloc.c:21-22 | an empty heap with no list yet |
| Heap.Allocator.FindSpot | umalloc.c:30-32 | the walk round the circular list stops at the one node after which the block belongs |
| Heap.FreeGood | umalloc.c:33-43 | the header writes of free, in all four neighbour cases, keep one address-sorted cycle of disjoint, never adjacent free blocks that with the live ones tile the heap, and take just that block from the live ones |
| Heap.TakeWhole | umalloc.c:76-77 | an exact fit leaves the list and becomes live, nothing else moves |
| Heap.TakeTail | umalloc.c:78-82 | splitting keeps the invariant: the tail is a new live block, the rest stays on the list |
| Heap.Allocator.Free | umalloc.c:25-44 | the block leaves the live ones and joins the free list merged with its free neighbours |
| Heap.Allocator.Morecore | umalloc.c:47-61 | memory from sbrk joins the free list; the live blocks are as they were |
| Heap.Allocator.Malloc | umalloc.c:64-90 | a fresh live block large enough for the request and disjoint from every other; failure only if no free block fits and sbrk refuses |
| Heap.SoundRequests | umalloc.c:47-69 | the unsigned arithmetic of malloc and morecore is right if and only if the request is at most MAXREQUEST bytes |
| Heap.TilesDisjoint | umalloc.c:64-90 | no two blocks, live or free, overlap |
| Heap.Conservation | umalloc.c:25-90 | live units plus free units are exactly the units obtained from sbrk |
| Bitmap.MaskLaws | fs.c:64-66 | setting and clearing one bit of a bitmap byte changes that bit only |
| Bitmap.SetBitSets | fs.c:65-67 | marking a block changes the mark of that block only |
| Bitmap.ClearBitClears | fs.c:88-92 | clearing one bit of the byte that holds it changes the mark of that block only |
| Bitmap.FindFree | fs.c:61-72 | the scan finds the lowest free block, or none if all are used |
| Bitmap.FreeBit | fs.c:86-92 | finding the byte by bitmap block and offset and masking it frees that block and leaves every other bit of the map as it was; fails exactly when the bit was clear |
| Bitmap.ScanFindsLowest | fs.c:61-72 | what the scan finds is the least of the free blocks as a set, and setting its bit takes exactly it out of the set |
| Bitmap.LeftCount | fs.c:53-76 | taking the lowest free block m times leaves m fewer, down to none |
| FileBlocks.WordOfSetWord | fs.c:376-380 | an address stored in an indirect block reads back, and its neighbours are untouched |
| FileBlocks.LinkDirectOwned | fs.c:364-367 | recording a new block in a direct slot keeps every used block in exactly one slot of one inode |
| FileBlocks.LinkIndirectOwned | fs.c:371-383 | the same through the indirect block |
| FileBlocks.AllocatesNoHoles | fs.c:359-386 | allocation changes no byte of any file and makes no hole |
| FileBlocks.WriteStep | fs.c:481-487 | one turn of the copying loop, aligned or not, writes exactly its piece of the source |
| FileBlocks.WriteDone | fs.c:481-493 | after the loop and the size update the file is its old bytes overwritten with the source at the offset, other files and inodes are unchanged and there are no holes |
| FileBlocks.OverwriteJoins | file.c:134-151 | writing consecutive chunks is writing the whole |
| FileBlocks.TruncatedOwned | fs.c:394-421 | emptying an inode's slots keeps block ownership exact |
| FileBlocks.TruncatedContent | fs.c:394-421 | the truncated file is empty and every other file keeps its bytes |
| FileSystem.Fs.constructor | fs.c:53-95 | a bitmap that marks exactly the reserved and owned ones of the disk's blocks, whose number need not fill the bitmap, starts a valid file system |
| FileSystem.Fs.Balloc | fs.c:53-76 | the lowest free block, marked and zeroed, is no longer free and two sectors are logged; failure exactly when no block is free |
| FileSystem.Fs.Bmap | fs.c:359-386 | the block of the slot, and the indirect block with it, allocated from the lowest free blocks if there was none, with exactly what that logs; fails exactly when fewer blocks are free than that takes; an allocated slot changes and logs nothing |
| FileSystem.Fs.Readi | fs.c:437-460 | refused past the end or on wrap-around; otherwise the file's bytes from the offset, cut at its end; nothing is allocated or logged |
| FileSystem.Fs.Writei | fs.c:465-494 | refused exactly past the end or beyond MAXFILE; a panic exactly when it needs more new blocks than are free; otherwise old[..off] + src + old[off+n..] and no other file changes; what it logs is a WriteLog |
| FileSystem.Fs.Filewrite | file.c:117-155 | the chunks together write all of the source; or whole chunks up to exactly the first that goes beyond the largest file, or nothing past the end of the file, and failure is reported |
| FileSystem.Fs.Bfree | fs.c:80-95 | a block in use becomes free, every other block keeps its mark and one bitmap sector is logged; a free block is refused exactly then, and nothing changes |
| FileSystem.Fs.Itrunc | fs.c:394-421 | frees exactly the inode's blocks; the panic for freeing a free block is out of reach; what it logs is a TruncLog |
| FileSystem.MarkTruncated | fs.c:394-421 | after itrunc a bit is set exactly for reserved blocks and blocks some inode still owns |
| LogUse.WriteLogCount | fs.c:465-494 | the distinct sectors and the calls of log_write of a writei, exactly, from the files and the free blocks before it: one sector for each block touched, for each bitmap block allocated from, for the indirect block if it gets an entry, and for the inode if the file grows |
| LogUse.InsideNeed | fs.c:481-487 | inside the file that is the number of blocks touched |
| LogUse.FlatNeedIs | fs.c:465-494 | on a disk with one bitmap block, as mkfs makes, it comes from the offset, the length and the size alone |
| LogUse.WriteKeepsTight | fs.c:489-492 | a write leaves no block past the end of the file if there was none, which FlatNeedIs starts from |
| LogUse.TruncLogBounds | fs.c:394-421 | itrunc calls log_write once for each block of the file and once more, on at most the bitmap blocks and one distinct sectors |
| LogUse.HeldIsOwned | fs.c:399-417 | the blocks in an inode's slots are as many as the blocks it owns |
| FileSystem.Fs.WriteChunk | file.c:136-147 | one transaction of filewrite writes its chunk and logs a WriteLog, or is refused exactly at the limits of writei |
| Reservation.ChunkFitsIff | file.c:127-139 | a transaction of filewrite keeps to the MAXOPBLOCKS sectors that begin_op reserved: inside the file if and only if it touches at most as many blocks, on a disk with one bitmap block if and only if FlatNeed of offset, length and size is at most that; a full chunk never does |
| Reservation.OutgrowsReservation | file.c:127-139 | on a small disk a write of 4097 bytes to an empty file succeeds and logs eleven distinct sectors |
| Directory.Namecmp | fs.c:499-503 | names are equal exactly when their first DIRSIZ bytes up to a zero are |
| Directory.Strncpy | string.c:69-79 | a name put in a 14-byte field comes back from it, cut to the field |
| Directory.LinkAdds | fs.c:547-558 | writing an entry in a free slot or at the end adds exactly that name to the directory's map and keeps names unique |
| Directory.UnlinkRemoves | sysfile.c:215-217 | writing a zero entry removes exactly that name |
| Directory.EmptyIffOnlyDots | sysfile.c:166-178 | in a directory that starts with . and .., no later entry in use is the same as no other name in its map |
| DirectoryOps.Dirlookup | fs.c:508-531 | finds a name exactly when the map has it, with its inode number and its entry; nothing changes |
| DirectoryOps.Dirlink | fs.c:535-561 | refuses exactly the names that are there; otherwise the map gains that name in the first free entry and no other file changes a byte; panics only on a full disk or a directory at the largest file size |
| DirectoryOps.ClearEntry | sysfile.c:215-217 | the write of sys_unlink through writei removes exactly that name, changes no other file, and never panics |
| DirectoryOps.Isdirempty | sysfile.c:166-178 | true exactly when no entry after the first two is in use |
| PathNames.Skipelem | fs.c:579-601 | takes the first non-empty component, cut to DIRSIZ, off the path; fails exactly when there is none; the rest is empty exactly when no component is left |
| PathNames.WordFirst | fs.c:584-600 | a word before a slash is the first component of the split path |
| PathNames.SlashSkipped | fs.c:584-585 | leading slashes do not matter |
| PathNames.WordTaken | fs.c:579-601 | from a character that is no slash up to the next slash is the first component |
| PathNames.Namex | fs.c:608-640 | the fold of directory lookups along the components; for nameiparent along all but the last, which must hang off a directory and is left in the name buffer; a panic exactly when it comes to lock a free inode |
| PathNames.LocksFreeIff | fs.c:617-618 | that is exactly when some part of the path, short of all of it, leads to a free inode |
| PathNames.WalkLast | fs.c:608-640 | a path leads where its last component is found in the directory that the rest leads to, which is its parent for nameiparent; the empty path leads to its start and has no parent |
| PathNames.ParentStep | fs.c:623-633 | walking one component leaves the same parent to find |
| LinkCounts.LinkCountedIff | sysfile.c:116-162 | a new link keeps every count right if and only if its directory is still linked |
| LinkCounts.CreateCountedIff | sysfile.c:239-281 | the same for a new file or device |
| LinkCounts.MkdirKeepsIff | sysfile.c:264-276 | the same, for counts and tree shape, for a new directory |
| LinkCounts.UnlinkKeeps | sysfile.c:182-236 | unlink keeps every count right for every argument, and never meets an inode without links; what it removes is in SysFile.UnlinkIs |
| LinkCounts.UnlinkDirKeeps | sysfile.c:210-225 | an empty directory has exactly one link, and removing it takes its .. from its parent's count |
| LinkCounts.ReclaimKeeps | fs.c:320-338 | freeing an inode without links leaves all counts right |
| LinkCounts.LinkCountsAreRight | sysfile.c:116-281 | after every run of link, unlink, create, mkdir and mknod in still-linked directories, nlink is the number of entries naming the inode in linked directories, its own . aside |
| LinkCounts.RemovedDirectoryMiscounts | sysfile.c:239-281 | a file created in a directory that was removed while in use has a link count of one and no entry |
| LinkCounts.FreshIsGood | mkfs.c:107-118 | a new file system, the root its own parent with one link, has right counts |
| SysFile.UnlinkIs | sysfile.c:182-236 | unlink where it is allowed: exactly that entry is gone, the inode it named has one link less and, if that was a directory, the parent has one less for its ..; nothing else in any directory or count changes |
| SysFile.NotUnlinked | sysfile.c:182-236 | unlink where it is not allowed changes nothing |
| SysFile.LinkToIs | sysfile.c:116-162 | link where it is allowed: exactly that entry is new and the file has one link more; where it is not, nothing changes |
| SysFile.CreateIs | sysfile.c:239-281 | what create makes: exactly that entry is new, the new inode has one link and, for a directory, its two dots and one link more for the parent |
| SysFile.Calls.constructor | fs.c:508-561 | directories of whole entries with . and .. first, and empty free inodes, stand for the tree of their maps |
| SysFile.Calls.MakeRoot | mkfs.c:107-118 | on free inodes, the root directory's two entries, its one link and nothing else make the tree that every run starts from, or the disk is full |
| SysFile.Calls.SysLink | sysfile.c:116-162 | from path names to bytes: done exactly if both paths resolve, the file is no directory and the name is new, and then exactly that entry is new and the file has one link more; otherwise the raised count is put back and nothing changes; every inode's type and the bytes of every file stay; it panics whenever it comes to lock a free inode, and else only with a full disk or a full directory |
| SysFile.Calls.SysUnlink | sysfile.c:182-236 | from path names to bytes: done exactly for a name other than . and .. that is there and not a non-empty directory, and then exactly that entry and its links are gone; otherwise nothing changes; every inode's type and the bytes of every file stay; it panics exactly when the path or the entry comes to a free inode or the entry's inode has no links; with right counts, which it keeps, exactly when the path does, and never from where every path is safe |
| SysFile.Calls.Create | sysfile.c:239-281 | from path names to bytes: a path that comes to a free inode panics; an existing file is returned and anything else existing refused, unchanged; otherwise the lowest free inode gets the type asked for, its dots, its entry and its counts, and no other file changes a byte; else it panics only without space or inodes |
| SysFile.LinkToKeepsIff | sysfile.c:116-162 | a link made by sys_link keeps the counts right if and only if the directory its path leads to is still linked |
| SysFile.CreateKeepsIff | sysfile.c:239-281 | the same for what create makes, directories and others |
| SysFile.Calls.Ialloc | fs.c:176-196 | the lowest free inode, or none |
| SysFile.Calls.Fill | sysfile.c:257-270 | the new inode's link, and for a directory . and .. as its first two entries and the parent's link; the panic for the dots is reached only with the disk full |
| SysFile.Calls.Reclaim | fs.c:320-333 | the last iput of an unlinked inode frees its blocks and leaves it empty and free; it leaves the tree, every other inode keeps its entries, count, type and bytes, and right counts stay right |
| SysFile.StoredAfter | sysfile.c:116-281 | a write to one directory, old or new, keeps every directory a map with . and .. first and every free inode empty |
| SysFile.PathsStayAllocated | fs.c:608-640 | with right counts every path from a linked directory leads to an allocated inode, so ilock never panics there |
| SysFile.SafeIffUpPasses | fs.c:290-294 | from any directory, removed ones too, no path leads to a free inode if and only if it passes a finite test: it is linked, or its .. is allocated and, if a directory not seen on the way, passes in turn |
| SysFile.SafeIsNotStranded | fs.c:608-640 | from there no path comes to lock a free inode, and what it leads to is allocated |
| SysFile.ReclaimStrands | fs.c:320-333 | reclaiming a directory always leaves a removed directory under it, if still in use, with a .. to a free inode, and ../x from it panics |
| SysFile.StrandedDirectory | sysfile.c:182-236 | a run of four calls that gets there, from which unlink, link or create of ../x panics |
| ProcessTable.StepKeeps | proc.c:130-262 | every step of fork, exit, wait, kill, sleep, wakeup and the scheduler keeps the table invariant |
| ProcessTable.ExitSlot | proc.c:198-213 | what exit does to each slot: children handed to initproc, sleepers on the parent or on initproc woken, itself a zombie |
| ProcessTable.DescendsFromInit | proc.c:130-168 | from every process parents lead to initproc |
| ProcessTable.ProcessTree | proc.c:130-262 | in every run: a parent is alive and older than its child, nobody sleeps in wait over a zombie child, and the table is a tree rooted at initproc |
| ProcessTable.ExitedIsTold | proc.c:176-213 | the status recorded for a pid is the one given to exit in some step of the run by the process that had the pid |
| ProcessTable.ReapedOnceWithStatus | proc.c:221-262 | in every run, told from its steps alone, each pid that wait returns is returned once, with a status that a process with that pid passed to exit |
| ProcessTable.ForkMakesChild | proc.c:130-168 | the steps of a fork that succeeds leave one slot changed: a runnable child of the caller with the next pid |
| ProcessTable.LifeCycle | proc.c:130-435 | every change of a slot's state is along an edge of the life cycle, by the step that belongs to it, and every step moves its own slot along it |
| ProcessTable.KillZeroKillsTheNextChild | proc.c:418-435 | a run in which kill(0) marks an unused slot and the next child starts killed |
| ProcessTable.FailedForkKillsTheNextChild | proc.c:141-147 | a run in which kill hits a child whose fork then fails, and the next child starts killed |
| ProcessTable.CleanKeptIff | proc.c:418-435 | a step leaves no unused slot marked killed if and only if it is neither a kill that finds an unused slot nor a failed fork of a killed child |
| ProcessTable.NobodyIsBornKilled | proc.c:36-51 | in every run without such a step every process starts unkilled |
| ProcessTable.Ptable.constructor | proc.c:11-14 | an all-unused table |
| ProcessTable.Ptable.Allocproc | proc.c:36-51 | the lowest unused slot with the next pid, or none when all are in use |
| ProcessTable.Ptable.Wakeup1 | proc.c:396-403 | exactly the sleepers on the channel become runnable and nothing else changes: the wakeup step of the runs |
| ProcessTable.Ptable.ExitSection | proc.c:198-213 | slot by slot: children handed to initproc, sleepers on the parent woken, and on initproc if a zombie child was handed over, itself a zombie, all else unchanged |
| ProcessTable.Ptable.WaitTurn | proc.c:225-261 | reaps the first zombie child with its pid and status exactly when there is one; gives up with no child or when killed; otherwise sleeps on itself: the steps of the runs |
| ProcessTable.Ptable.KillPid | proc.c:418-435 | marks the first slot with the pid, wakes it if it sleeps and changes nothing else, or finds none: the kill step of the runs |
| SleepWakeup.StepKeeps | proc.c:358-412 | every step of any number of processes and CPUs in acquire, release, sleep and wakeup keeps the invariant |
| SleepWakeup.MutualExclusion | spinlock.c:25-64 | in every run a spin lock has one holder |
| SleepWakeup.HeldExactly | spinlock.c:25-64 | in every run a process holds a lock exactly where its code is between acquire and release of it, sleep's exchange of locks included |
| SleepWakeup.SleepReturnsHolding | proc.c:358-391 | in every run a process that called sleep is inside it until it is out with the lock it gave held again and no channel |
| SleepWakeup.WokenOnPurpose | proc.c:396-435 | a sleeper is made runnable exactly by a wakeup scan that reaches it with its channel or by kill |
| SleepWakeup.NoMissedWakeup | proc.c:358-412 | in every run, when a waker that holds the lock reaches a process that tested its condition under the lock, that process is asleep on the channel and gets woken |
| SleepWakeup.WakeupWakesAll | proc.c:396-412 | when such a wakeup is done nobody waits under the lock for its channel |
| SleepWakeup.BareWakeupCanMiss | proc.c:358-412 | without the lock a wakeup can run between test and sleep and be missed |
| Pipe.StepKeepsFifo | pipe.c:78-120 | every critical section keeps order and bound, and accounts for each byte it takes or returns |
| Pipe.FirstInFirstOut | pipe.c:78-120 | in every interleaving the bytes returned are a prefix of the bytes accepted, at most PIPESIZE behind |
| Pipe.SleepersKeptIff | pipe.c:59-120 | sleeping readers and writers keep their reason exactly when the step is not a writer that gives up without waking readers |
| Pipe.SleepersAlwaysHaveCause | pipe.c:59-120 | in every run without such a step a sleeping reader means empty with the write end open and a sleeping writer means full with the read end open |
| Pipe.KilledWriterStrandsReader | pipe.c:84-88 | a run in which a killed writer leaves a reader asleep on a full pipe |
| Pipe.Counters | pipe.c:84-92 | the 32-bit counters tell full from empty and index the ring after wrapping |
| Pipe.NoClash | pipe.c:92 | the slot of a new byte holds no byte still to be read |
| Pipe.Ring.constructor | pipe.c:22-45 | an empty pipe, both ends open |
| Pipe.Ring.WriteSection | pipe.c:78-97 | one critical section of pipewrite: done exactly when the rest of the buffer fits, given up exactly when it does not and the read end is closed or the writer killed, and else asleep; the next bytes of the buffer, as many as fit, are added at the end; readers are woken unless it gives up |
| Pipe.Ring.ReadSection | pipe.c:100-120 | one critical section of piperead: it sleeps exactly on an empty pipe with the write end open and no kill, fails exactly when killed there, and otherwise returns and removes the oldest bytes, all of them or n, and wakes the writers |
| Pipe.Ring.Drain | pipe.c:112-116 | the copying loop returns the oldest bytes, at most n, in order |
| Pipe.Ring.Pipeclose | pipe.c:59-74 | closes that end and no other, wakes the other side, keeps the bytes, and frees the pipe exactly when the other end was closed before |
| Regex.MatchHere | grep.c:84-95 | true exactly when a prefix of the text, all of it under a final $, is in the pattern's language |
| Regex.MatchStar | grep.c:98-105 | true exactly when some run of the starred character and then a match of the rest is a prefix |
| Regex.Match | grep.c:72-81 | true exactly when some substring, a prefix under ^, is in the pattern's language |
| Regex.StarStep | grep.c:98-105 | the declarative meaning of c* followed by a pattern |
| ShellSyntax.GetToken | sh.c:599-641 | a token lies between white space and the next position; a word is a maximal run of word characters |
| ShellSyntax.TokenIs | sh.c:599-641 | which token it is, told from the characters: white space before and after it, >> for append, one symbol or a word |
| ShellSyntax.ParseRedirs | sh.c:708-730 | every file named is a word of the line; total on every input |
| ShellSyntax.ParseArgs | sh.c:764-777 | at most MAXARGS - 1 words, each a word of the line; total on every input |
| ShellSyntax.ParseLine | sh.c:678-692 | total on every input: a tree of words of the line and a position, or a panic |
| ShellSyntax.ParseCmd | sh.c:661-675 | total on every input: a tree of words of the line, or a panic |
| ShellGrammar.FirstRedir | sh.c:708-730 | at every position with <, > or >>: without a word after it a panic; otherwise that word is the first redirection, for input after < and for output after > and >>, before those that follow |
| ShellGrammar.WrapIsAround | sh.c:708-730 | redirections wrap a command from the first, innermost, to the last |
| ShellGrammar.LineComplete | sh.c:678-779 | wherever the tokens of a derivation of the grammar stand before the end or a closing parenthesis, the parser returns the command the derivation stands for and stops behind it |
| ShellGrammar.LineSound | sh.c:678-779 | what the parser returns is the command of a derivation whose tokens are those it passed |
| ShellGrammar.ParsesExactly | sh.c:661-779 | the parser accepts exactly the lines that the grammar derives, and returns what each derivation stands for: pipes and lists to the right, & on the whole pipeline before it, redirections on one command |
| ShellRoundTrip.Lexes | sh.c:599-641 | text written from tokens, with white space at least where two would run together, has those tokens |
| ShellRoundTrip.WrittenParses | sh.c:661-779 | every derivation, parentheses or not, written with any such white space, parses to the command it stands for |
| ShellRoundTrip.GroupedFits | sh.c:678-779 | every tree with fewer than MAXARGS words a command has a derivation for each choice of > or >> at each output redirection |
| ShellRoundTrip.RoundTrip | sh.c:661-779 | for every such tree, every choice of > or >> for each of its redirections and any white space that keeps tokens apart, parsing the printed tree gives the tree back |
| ShellParser.Gettoken | sh.c:599-641 | the loops over the buffer yield the token of the grammar |
| ShellParser.PeekFor | sh.c:644-653 | skips white space and tells whether the next character is one of those asked for |
| ShellParser.Parseredirs | sh.c:708-730 | the loop wraps the command in exactly the redirections of the grammar, innermost first |
| ShellParser.Words | sh.c:763-778 | the loop fills argv within its MAXARGS slots and builds the command of the grammar, although redirections already point at it |
| ShellParser.Parseexec | sh.c:749-779 | agrees with the grammar on every line |
| ShellParser.Parseblock | sh.c:733-746 | agrees with the grammar on every line |
| ShellParser.Parsepipe | sh.c:695-705 | agrees with the grammar on every line |
| ShellParser.Background | sh.c:683-686 | the loop adds one BACK for each & |
| ShellParser.Parseline | sh.c:678-692 | agrees with the grammar on every line, and terminates |
| ShellParser.Nulterminate | sh.c:783-826 | the buffer gets zeros exactly at the ends of the words |
| ShellParser.WordsAreTokens | sh.c:783-826 | after that every word read as a C string is exactly its token |
| ShellParser.Parsecmd | sh.c:661-675 | on the buffer: exactly the lines the grammar derives are accepted, with the command of the derivation and every word readable as a C string; a refused line is left as it was |
| PageTable.NewTableLook | vm.c:54-62 | a new page table changes no translation |
| PageTable.SetPteLook | vm.c:83 | writing an entry changes one translation of one address space |
| PageTable.NoSharing | vm.c:309-337 | no physical page backs two user pages, in one address space or in two |
| AddressSpace.OthersKept | vm.c:70-292 | what is done to one address space changes no translation and no byte of another |
| AddressSpace.ClearsAllIff | vm.c:258-270 | deallocuvm unmaps the whole range if and only if no mapped page lies below the starting offset in the first table after a run of missing ones |
| AddressSpace.SkipCanMiss | vm.c:258-262 | an address space in which the 4MB step jumps a mapped page, which stays mapped after deallocuvm |
| AddressSpace.ShrinksContiguous | vm.c:250-273 | on an address space mapped contiguously from 0 the step never jumps a mapped page |
| SpaceGrowth.NeedCounts | vm.c:221-243 | what growing needs: one page for each virtual page and one for each page table missing in the range |
| SpaceGrowth.EnoughLosesNone | vm.c:229-241 | stopped by kalloc, allocuvm has lost no page and had too few |
| SpaceGrowth.LostAt | vm.c:229-241 | stopped between a page and its page table, it has lost that page, unnoticed exactly when it is the last |
| NewSpaces.LastPageCanBeLost | vm.c:238-241 | in every new address space made with one page to spare, the first page a process asks for is lost |
| NewSpaces.LostPageIsHole | vm.c:319-323 | after a growth that lost its last page, that page is the first that copyuvm will miss |
| SpaceGrowth.ShrunkWithin | vm.c:250-273 | shrinking leaves no page above the new size if and only if the 4MB step jumps no mapped page |
| SpaceGrowth.FreshLosesIff | vm.c:221-243 | for a new address space the loss depends on the size and the number of free pages alone |
| NewSpaces.KernelLayout | vm.c:115-125 | the kernel half that the four rows of kmap make, address range by address range, with user memory empty |
| VirtualMemory.Vm.constructor | vm.c:46-65 | free pages and no address space are a valid start |
| VirtualMemory.Vm.Walkpgdir | vm.c:46-65 | the table of the address, made if asked for; it fails exactly without one when none is asked for or no page is free; translations do not change |
| VirtualMemory.Vm.Mappages | vm.c:71-90 | maps the pages of the range to consecutive physical pages up to its end, to the first page already mapped, on which it panics, or to the first page table that no free page was left for; only page tables take memory |
| VirtualMemory.Vm.Setupkvm | vm.c:129-144 | a new address space with exactly the kernel's mappings, if and only if 65 pages are free, and it takes 65; on failure every free page is lost |
| VirtualMemory.Vm.Scan | vm.c:259-270 | one turn of deallocuvm's loop, the 4MB step included |
| VirtualMemory.Vm.Deallocuvm | vm.c:250-273 | unmaps and frees exactly the mapped pages of the range that the 4MB step does not jump; nothing else changes |
| VirtualMemory.Vm.Freevm | vm.c:278-292 | gives back exactly the pages the address space owned, contiguous or not |
| VirtualMemory.Vm.Allocuvm | vm.c:221-243 | zeroed new pages for exactly the range, or everything taken back, decided by the free pages, the pages the range needs and the page tables it has before the call; exactly when a page gets lost, and exactly when success is reported with the last page missing |
| VirtualMemory.Vm.Copyuvm | vm.c:310-337 | decided by the free pages and the first page missing below sz: too few pages for the kernel's part and the copy up to there is failure, enough and a page missing is the panic, and otherwise the child has the parent's flags and bytes below sz in pages of its own; the parent is unchanged; on failure all is given back but at most one page, exactly when |
| VirtualMemory.Vm.Growproc | proc.c:109-124 | when it succeeds; that no page lies above the new size, if and only if a shrink jumps none; and for a process that has all the pages below its size, that it still has, if and only if allocuvm does not lose the last page and the size does not shrink to 0, all told from the state before |
| VirtualMemory.Vm.LoseLastPage | proc.c:109-124 | a run from any memory with one page more than the kernel's part: a new process grows to size 1 and has no page |
| VirtualMemory.Vm.BuildAndFree | exec.c:106-108 | an address space built, grown and given up leaves the allocator as it was, but for every free page when there were fewer than 65 and for one page exactly when growing loses one |

## Left out

- Device drivers, boot, interrupt controllers, traps and all assembly: a disk access is one atomic sector read or write, a context switch one step.
- `swtch`, kernel stacks and trap frames: not modelled.
- Inode encoding on disk (`iupdate`, `ilock` reading a dinode) and the inode cache (`iget`, `idup`, `iput` reference counts): inodes are records, their type and link count kept beside their size and addresses, and the last `iput` is `Reclaim`.
- The locks that link, unlink and create take and release in turn: each call is one step of the tree.
- The sectors that link, unlink and create log: `LogUse` counts those of `writei` and `itrunc`.
- Device inodes in `readi` and `writei` (the `devsw` table), and the read and write of pipes and devices by `fileread` and `filewrite`: they only dispatch.
- The signed 16-bit width of `nlink` and the wrap-around of `nextpid`: counts and pids are unbounded.
- Entries of removed directories beyond . and ..: link counts are about still-linked directories, as the conditions above state.
- `sys_open`, `sys_chdir`, `sys_mkdir`, `sys_mknod` and descriptor tables: argument checking around `create`, `namei` and `filealloc`.
- `mkfs` as a program: it only justifies the initial states.
- `inituvm`, `loaduvm`, `clearpteu`, `uva2ka` and `copyout`: one lookup and a copy each.
- Other CPUs allocating pages during a call of vm.c: the allocator changes only by the call itself.
- `runcmd`, the job list and the main loop of the shell: process and descriptor plumbing. The loops that clear finished jobs skip the successor of an element they remove, so they do not keep exactly the live ones.
- `grep` line buffering and the small user programs: loops around system calls.
- exec's stack layout and ELF loading: raw memory.
- ShellParser.Words: command nodes are values; the alias through which parseexec fills `argv` under redirections already built is modelled by replacing the words at the core of the chain.
- LogDriver.Log.Commit: readers act between its turns. One that comes while a turn holds its log block finds a buffer less, as if it had come before the turn, so it panics in the same cases, one write later at most.
- LogDriver.Log.LogWrite: the call alone; two of them at once are steps of `GroupCommit`.
- LogDriver.Log.BeginOp: one turn of the loop; sleeping and waking are steps of `GroupCommit`.
- ProcessTable.Ptable.WaitTurn: one turn of the loop of wait, under the lock; freeing the child's kernel stack and page directory is not part of it.
- Heap.Allocator.Malloc: requires the request to be at most MAXREQUEST, the exact bound of `SoundRequests`.
- VirtualMemory.Vm.Allocuvm: requires the new range to be unmapped, as `Growproc` shows of its calls; on a mapped page `mappages` panics.
- VirtualMemory.Vm.Deallocuvm: requires the old size to be at most KERNBASE, as every caller ensures; above it the code would unmap the kernel.
- FileSystem.Fs.Readi: stated for files without holes, the invariant that `writei` and `itrunc` keep; on a hole the code would allocate.
- FileSystem.Fs.Writei: likewise starts from files without holes.
- DirectoryOps.Dirlink: the inode number fits in 16 bits and is not 0.
