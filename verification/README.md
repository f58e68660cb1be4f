# Verified core of the xv6 trees and the parallel compressor

A Dafny 4.11 project that models the logic of this repository and proves
properties of the model. `dafny verify dfyconfig.toml` checks all of it.

Where the four xv6 trees have the same file, the copy of project-1b is the one
modelled; the process table is that of project-2b, virtual memory that of
project-3b. The files, by area:

- **Disk, cache, log.** `Params`, `Blocks` (blocks as bytes and words), `BufferCache`
  (bio.c over memide.c), `RedoLog` (what a crash at any block write and any
  number of crashes in recovery come to), `LogReservation` (the protocol of
  begin_op, log_write, end_op), `Log` (log.c as a class over the cache, its
  methods tied to the images of `RedoLog` and the transitions of
  `LogReservation`), `LogWaits` (the same calls with sleep and wakeup).
- **Allocator.** `FreeList` and `Heap` (lists of blocks and what malloc and
  free do to them), `Umalloc` (umalloc.c: headers linked in memory).
- **Files.** `Bits`, `BlockMap` (who owns a block, what the free map says, what
  every byte of every file is), `FileContent`, `Truncation`, `InodeBlocks`
  (inodes in their blocks), `FileSteps`, `FileSystem` (fs.c and filewrite),
  `FileCrash` (a crash inside filewrite, over `FileSystem` and `RedoLog`),
  `GroupCrash` (the same for several writers whose transactions share commits),
  `Paths` (skipelem, namex, the inode cache).
- **Memory.** `Paging` (page tables in physical memory, one owner for each
  page), `PagingSteps`, `PagingFree`, `PagingGrow`, `PagingProtect`,
  `PagingAccess` (what a user may read and write, by both levels),
  `VirtualMemory` (kalloc.c, vm.c, the address spaces of exec, fork and sbrk).
- **Processes.** `Monitor` (sleep and wakeup under a spinlock, sleep split into
  its lock hand-over), and on top of it `SleepLock`, `PipeRing`, `PipeRuns`,
  `PipeLost`, `PipeCalls`; `ProcTable`, `ProcCode`, `ProcLife` and `ProcKill`
  (fork, exit, wait, kill).
- **Programs.** `RunLength` and `Pzip` (pzip.c and my-unzip.c), `Grep` (the
  pattern matcher), `ShellGrammar` and `ShellText` (the shell's parser).

A class stands for each file that updates its state in place; its methods are
proved against functions and relations on values, and the laws are lemmas about
those. Panics are results, so that a contract says exactly when one happens or
that it does not.

## What turned out not to hold

- mkfs makes a log area of LOGSIZE blocks, but log_write wants one block more:
  calls that keep to MAXOPBLOCKS can panic. For every budget and area, exactly
  when: `LogReservation.NewWritePanicsExactlyWhen`.
- log_write tests for room before it looks for the block, so a write that would
  be absorbed can panic as well; at the full budget it can whatever the area is.
  Exactly when: `LogReservation.WritePanicsExactlyWhen`.
- log_write makes its tests (log.c:218-221) before it takes the lock (log.c:223).
  Calls that pass them together can outgrow an area of LOGSIZE blocks or less;
  for every budget and area, exactly when: `LogReservation.OutgrowsExactlyWhen`.
  Then write_log runs into the blocks behind the area before the header is
  written, and a crash there does not undo it: `RedoLog.WriteLogOverrun`. So
  `RedoLog` and what builds on it take a list that fits the area as a hypothesis.
- No area is right for calls of MAXOPBLOCKS blocks. Up to LOGSIZE, new writes can
  panic and the log can outgrow it; from LOGSIZE - 1 on, a log of LOGSIZE, that is
  NBUF, blocks is reached (`LogReservation.FullLogExactlyWhen`), then no buffer is
  idle (`Logging.Log.NoRoomExactlyWhen`), and end_op panics (`Logging.Log.EndOp`).
- The runs behind these take calls that add ten blocks. Of the system calls only
  the writes of filewrite are modelled, and those log at most seven
  (`FileSteps.ChunkLogged`): with the area mkfs makes such calls meet none of
  the above (`LogReservation.SmallCallsAreSafe`).
- growproc to exactly 0 reports failure after it has freed the pages:
  `VirtualMemory.Machine.Growproc`.
- A killed writer leaves a full pipe without the wakeup it owes, and a reader
  may sleep on: exactly which steps lose a wakeup is `PipeLost.LostExactlyWhen`,
  a run is `PipeLost.KilledWriterStrands`.
- kill finds unused entries: by pid 0, which wait and the boot leave, and by the
  pid of a fork that failed (`ProcKill.KillHitsNobodyExactlyWhen`). allocproc
  does not reset the mark, so the next process there starts killed; exactly
  when: `ProcKill.BornKilledExactlyWhen`, runs: `ProcKill.ZeroKilled` and
  `ProcKill.LeftKilled`.
- pzip stops each block at a null byte, and my-unzip stops after the first run
  of byte 255: exact conditions in `Pzip.Pzip`.

## Model

| member | source | states |
|---|---|---|
| RedoLog.HeaderRoundTrip | project-1b-xv6-warmup-Alixyvette-master/log.c:84-113 | What write_head puts into the header block, the count and the block numbers, is what read_head gets out of it, whatever stale bytes the block held. |
| RedoLog.FillAt | project-1b-xv6-warmup-Alixyvette-master/log.c:176-190 | After k log blocks are written every block of the disk is known: the written slots, and nothing else, hold the transaction. |
| RedoLog.InstallAt | project-1b-xv6-warmup-Alixyvette-master/log.c:68-81 | After k home blocks are installed every block of the disk is known: the listed blocks hold their log slots, the log itself is untouched. |
| RedoLog.RecoverIdempotent | project-1b-xv6-warmup-Alixyvette-master/log.c:115-122 | Cutting recovery off after any number of its block writes and starting again gives the disk an uninterrupted recovery gives. |
| RedoLog.CrashyRecoveryEnds | project-1b-xv6-warmup-Alixyvette-master/log.c:115-122 | The same for any number of crashes, one after the other, each at any block write of the recovery then running. |
| RedoLog.BeforeCommitPoint | project-1b-xv6-warmup-Alixyvette-master/log.c:192-202 | A crash before the header write recovers to the old home blocks. |
| RedoLog.CommittedImage | project-1b-xv6-warmup-Alixyvette-master/log.c:176-202 | At the header write the header names exactly the transaction, the log holds its blocks and no home block has moved. |
| RedoLog.AtCommitPoint | project-1b-xv6-warmup-Alixyvette-master/log.c:192-202 | From the header write on, recovery yields the whole transaction. |
| RedoLog.CrashAtomicity | project-1b-xv6-warmup-Alixyvette-master/log.c:68-202 | For every transaction, every crash point between two single-block writes of commit and any further crashes in recovery, the home blocks end up all old or all new; which of the two is decided by the one header write. |
| RedoLog.CompleteCommit | project-1b-xv6-warmup-Alixyvette-master/log.c:192-202 | A commit that is not interrupted leaves the new home blocks and a clear log. |
| RedoLog.WriteLogOverrun | project-1b-xv6-warmup-Alixyvette-master/log.c:176-202 | A list longer than the area: a crash before the header write keeps the home blocks if and only if the blocks behind the area that write_log has reached held already what it wrote there. |
| RedoLog.CommitTraceParts | project-1b-xv6-warmup-Alixyvette-master/log.c:192-202 | The images the disk goes through in a commit are those of write_log, one header write, install_trans and a second header write, in this order. |
| RedoLog.RecoverTraceParts | project-1b-xv6-warmup-Alixyvette-master/log.c:115-122 | The images the disk goes through in a recovery are those of install_trans and one header write. |
| RedoLog.EpisodeStep | project-1b-xv6-warmup-Alixyvette-master/log.c:115-202 | One transaction with its crashes has the effect of applying it whole or not at all. |
| RedoLog.DurableRun | project-1b-xv6-warmup-Alixyvette-master/log.c:115-202 | Over every sequence of transactions and crashes the home blocks are those of the committed transactions applied whole, in order, and the log is clear. |
| Logging.Log.constructor | project-1b-xv6-warmup-Alixyvette-master/log.c:53-66 | initlog on a freshly booted cache replays whatever was committed: home blocks recovered, log clear, no block pinned. |
| Logging.Log.WriteLog | project-1b-xv6-warmup-Alixyvette-master/log.c:176-190 | The disk passes through exactly the images of the log being filled, from the cached copies of the logged blocks; no pin or other cached block changes. |
| Logging.Log.InstallTrans | project-1b-xv6-warmup-Alixyvette-master/log.c:68-81 | The disk passes through exactly the images of the home blocks being installed, and every pin of the transaction is released, both after a commit and after a boot. |
| Logging.Log.EncodeHead | project-1b-xv6-warmup-Alixyvette-master/log.c:105-110 | The copy loop leaves the count and the block numbers in the header block and its other bytes as they were. |
| Logging.Log.WriteHeader | project-1b-xv6-warmup-Alixyvette-master/log.c:100-113 | One disk write, of the header; the rest of the disk and of the cache is as before. |
| Logging.Log.ReadHead | project-1b-xv6-warmup-Alixyvette-master/log.c:84-95 | The list in memory becomes the one in the header on disk; nothing is written. |
| Logging.Log.RecoverFromLog | project-1b-xv6-warmup-Alixyvette-master/log.c:115-122 | The disk passes through exactly the images of a recovery and ends recovered. |
| Logging.Log.Commit | project-1b-xv6-warmup-Alixyvette-master/log.c:192-202 | The disk passes through exactly the images of a commit; afterwards it holds what the cache held for the logged blocks and the list is empty; it fails, with bget's panic and before any write, exactly when there is something to commit and no buffer is idle. |
| Logging.Log.BeginOp | project-1b-xv6-warmup-Alixyvette-master/log.c:126-140 | One turn of the loop: a call is counted exactly when no commit runs and the log has room for it; otherwise nothing changes. |
| Logging.Log.MayWrite | project-1b-xv6-warmup-Alixyvette-master/log.c:218-221 | The tests made before the lock: passed exactly when the log is neither full nor at the end of its area and a call is counted. |
| Logging.Log.Put | project-1b-xv6-warmup-Alixyvette-master/log.c:223-232 | The part under the lock, whatever others have logged since the tests: the block is pinned and listed once, an already listed block is absorbed. |
| Logging.Log.LogWrite | project-1b-xv6-warmup-Alixyvette-master/log.c:213-233 | Nobody else writing between the tests and the lock: panics exactly for a full log or outside a transaction; otherwise the block is pinned and listed once, and the list fits its area. |
| Logging.Log.EndOp | project-1b-xv6-warmup-Alixyvette-master/log.c:145-174 | Panics exactly when a commit is running, or when the last call has something to commit and no buffer is idle. Otherwise the last call commits a list that fits the area: the history of the disk grows by one commit and the disk then agrees with the cache; any other call only uncounts itself. |
| Logging.Log.RoomToCommit | project-1b-xv6-warmup-Alixyvette-master/bio.c:75-92 | A commit finds a buffer whenever the logged blocks and the buffers in use together are fewer than NBUF. |
| Logging.Log.NoRoomExactlyWhen | project-1b-xv6-warmup-Alixyvette-master/bio.c:75-92 | While nobody uses a buffer none is idle if and only if the log holds NBUF blocks. |
| Logging.CommitSettles | project-1b-xv6-warmup-Alixyvette-master/log.c:192-202 | After a finished commit the disk holds what the kernel saw before it, block by block. |
| LogReservation.RunInv | project-1b-xv6-warmup-Alixyvette-master/log.c:125-233 | Over every interleaving of begin_op, the tests of log_write, its locked part, and end_op: logged blocks plus unspent reservations fit LOGSIZE while calls keep to MAXOPBLOCKS, the log exceeds its tests by at most the calls in progress, logged numbers are distinct, a commit runs only with nothing outstanding. |
| LogReservation.EndOpNeverPanics | project-1b-xv6-warmup-Alixyvette-master/log.c:149-152 | Over every run, whatever the calls write, no commit is running when a call is about to end. |
| LogReservation.NewWritePanicsExactlyWhen | project-1b-xv6-warmup-Alixyvette-master/log.c:213-233 | For calls of any budget and a log area of any size: writing a block that is not yet logged panics in some run if and only if calls may write and either may write more than MAXOPBLOCKS or the area has at most MAXOPBLOCKS + 2 budget blocks; at the full budget, LOGSIZE or less, which is what mkfs makes. |
| LogReservation.WritePanicsExactlyWhen | project-1b-xv6-warmup-Alixyvette-master/log.c:213-233 | The same for writes of any block, as room is tested before the block is looked for: some write panics in some run if and only if calls may write and either may write MAXOPBLOCKS or the area has at most one block more than that; with the area mkfs makes, nine blocks a call never panic. |
| LogReservation.OutgrowsExactlyWhen | project-1b-xv6-warmup-Alixyvette-master/log.c:213-233 | For calls of any budget and a log area of any size: the list outgrows the area in some run if and only if calls may write and the area has at least 2 blocks and at most MAXOPBLOCKS + 2 budget, or LOGSIZE + 2 for calls that exceed MAXOPBLOCKS. |
| LogReservation.FullLogExactlyWhen | project-1b-xv6-warmup-Alixyvette-master/log.c:125-233 | A log of LOGSIZE blocks is reached in some run if and only if the area has at least LOGSIZE - 1 and calls may add MAXOPBLOCKS. |
| LogReservation.SmallCallsAreSafe | project-1b-xv6-warmup-Alixyvette-master/file.c:124-146 | With the area mkfs makes, calls of at most seven blocks, as those of filewrite are: over every run no write panics, the list fits the area and stays below NBUF. |
| Monitor.NextInv | project-2b-xv6-scheduling-Alixyvette-master/proc.c:507-564 | Every step of processes that use sleep and wakeup under a spinlock, with sleep split into its lock hand-over, keeps: locks held as claimed, and every sleeper has a reason to wait, a wakeup on its way, or one that was lost. |
| Monitor.NoLostWakeup | project-2b-xv6-scheduling-Alixyvette-master/proc.c:507-564 | With the lock free, a sleeper has to wait, unless the lock was once released with its wakeup still owed. |
| Monitor.Exclusive | project-2b-xv6-scheduling-Alixyvette-master/proc.c:523-541 | Two processes never hold the lock at once, inside sleep and wakeup included. |
| LogWaits.StepInv | project-1b-xv6-warmup-Alixyvette-master/log.c:125-233 | Every step of begin_op, log_write, end_op and commit, interleaved, keeps the count of calls right and the list clear when nothing runs. |
| LogWaits.Beginners | project-1b-xv6-warmup-Alixyvette-master/log.c:125-141 | Over every run, with log.lock free, a process sleeps in begin_op only while a commit runs or the log has no room. |
| LogWaits.NobodyInsideACommit | project-1b-xv6-warmup-Alixyvette-master/log.c:145-174 | Over every run a commit, which runs without the lock, has no call in progress beside it and no second commit, and end_op is never entered during one. |
| LogWaits.NobodyStuck | project-1b-xv6-warmup-Alixyvette-master/log.c:125-174 | Over every run, when no call is counted and no commit runs, the list is clear and nobody sleeps in begin_op. |
| LogWaits.Stages | project-1b-xv6-warmup-Alixyvette-master/log.c:125-233 | Over every run the stages of a call follow one another: begin_op lets a call in only when no commit runs and MAXOPBLOCKS blocks are left for it and for every call counted, and the call that ends as the last one commits. |
| LogWaits.CountedFit | project-1b-xv6-warmup-Alixyvette-master/log.c:125-141 | Over every run no more calls are counted than the log has room for. |
| BufferCache.Bcache.constructor | project-1b-xv6-warmup-Alixyvette-master/bio.c:38-56 | binit: every buffer free, all of them on the list, the kernel sees the disk. |
| BufferCache.Bcache.Lookup | project-1b-xv6-warmup-Alixyvette-master/bio.c:61-93 | bget: the buffer of the block, or a recycled one; at most one buffer holds a block; what the kernel sees is unchanged; None (the panic) exactly when no idle clean buffer is left. |
| BufferCache.Bcache.Replace | project-1b-xv6-warmup-Alixyvette-master/bio.c:78-89 | Recycling an idle clean buffer changes nothing the kernel sees. |
| BufferCache.Bcache.Iderw | project-1b-xv6-warmup-Alixyvette-master/memide.c:38-60 | One block moves between buffer and disk, in the direction the dirty flag says, and the flags come out right; nothing happens exactly in the four cases that panic. |
| BufferCache.Bcache.Bread | project-1b-xv6-warmup-Alixyvette-master/bio.c:96-106 | The locked buffer holds what the kernel sees for the block. |
| BufferCache.Bcache.Bwrite | project-1b-xv6-warmup-Alixyvette-master/bio.c:108-116 | The disk, and nothing else on it, gets the buffer; its history grows by that one image. |
| BufferCache.Bcache.Brelse | project-1b-xv6-warmup-Alixyvette-master/bio.c:118-141 | The block is released; what the kernel sees is unchanged, given that a changed buffer was written or pinned. |
| BufferCache.ReplaceSame | project-1b-xv6-warmup-Alixyvette-master/bio.c:61-93 | On device numbers other than 0 the logical content is the same after any recycling. |
| BufferCache.WriteThrough | project-1b-xv6-warmup-Alixyvette-master/bio.c:108-116 | Writing a buffer out makes disk and kernel agree on its block. |
| BufferCache.Overwrite | project-1b-xv6-warmup-Alixyvette-master/bio.c:108-116 | Changing a held buffer changes the logical content of its block only. |
| BufferCache.MoveToFront | project-1b-xv6-warmup-Alixyvette-master/bio.c:127-136 | Moving a buffer to the front keeps the list a permutation of the buffers. |
| BufferCache.RoomExactlyWhen | project-1b-xv6-warmup-Alixyvette-master/bio.c:75-92 | With every buffer released none is idle, and bget of an uncached block panics, if and only if NBUF blocks are pinned. |
| FreeList.InsertOrdered | project-1b-xv6-warmup-Alixyvette-master/umalloc.c:24-43 | Freeing keeps the list address-ordered and fully coalesced. |
| FreeList.InsertTotal | project-1b-xv6-warmup-Alixyvette-master/umalloc.c:24-43 | Freeing adds exactly the units of the block. |
| FreeList.InsertCovers | project-1b-xv6-warmup-Alixyvette-master/umalloc.c:24-43 | The list covers exactly the old units and those of the block. |
| FreeList.CarveOrdered | project-1b-xv6-warmup-Alixyvette-master/umalloc.c:76-82 | Allocating keeps the list ordered and coalesced. |
| FreeList.CarveTotal | project-1b-xv6-warmup-Alixyvette-master/umalloc.c:76-82 | Allocating takes exactly the units asked for. |
| FreeList.CarveCovers | project-1b-xv6-warmup-Alixyvette-master/umalloc.c:76-82 | The list loses exactly the units handed out. |
| Heap.ScanFinds | project-1b-xv6-warmup-Alixyvette-master/umalloc.c:74-89 | The circular first-fit search fails if and only if no free block is big enough. |
| Heap.FirstFit | project-1b-xv6-warmup-Alixyvette-master/umalloc.c:74-89 | The block found is the first that is big enough from freep on, round the circle. |
| Heap.GrowFits | project-1b-xv6-warmup-Alixyvette-master/umalloc.c:85-87 | After one successful morecore the search cannot fail. |
| Heap.StepOk | project-1b-xv6-warmup-Alixyvette-master/umalloc.c:24-90 | Every malloc and free keeps: list ordered and coalesced, live blocks disjoint from it and from each other, each unit from sbrk in exactly one of the two. |
| Heap.RunOk | project-1b-xv6-warmup-Alixyvette-master/umalloc.c:24-90 | The same over every sequence of calls, with free plus allocated units equal to what sbrk gave. |
| Heap.Canonical | project-1b-xv6-warmup-Alixyvette-master/umalloc.c:24-43 | Two ordered, coalesced lists of the same units are the same list: the free list has no memory of how it came about. |
| Heap.FreeUndoesMalloc | project-1b-xv6-warmup-Alixyvette-master/umalloc.c:24-90 | free of a block just allocated gives back exactly the list there was. |
| Heap.AllFreed | project-1b-xv6-warmup-Alixyvette-master/umalloc.c:24-43 | When all is freed the list is the one made of everything sbrk gave, in whatever order the calls came. |
| Umalloc.Umalloc.Search | project-1b-xv6-warmup-Alixyvette-master/umalloc.c:29-32 | free's walk round the circle ends, for every block that may be freed, at the node the block belongs after. |
| Umalloc.Umalloc.Splice | project-1b-xv6-warmup-Alixyvette-master/umalloc.c:33-42 | The stores of free, joins on either side included, as one function of memory. |
| Umalloc.Umalloc.Free | project-1b-xv6-warmup-Alixyvette-master/umalloc.c:24-43 | The linked memory becomes that of the list with the block inserted; no unit of a live block changes. |
| Umalloc.Umalloc.Morecore | project-1b-xv6-warmup-Alixyvette-master/umalloc.c:46-61 | Memory from sbrk, at least MINUNITS of it, joins the free list; a refusal changes nothing. |
| Umalloc.Umalloc.Cut | project-1b-xv6-warmup-Alixyvette-master/umalloc.c:76-82 | The stores of malloc, exact fit or tail cut, as one function of memory. |
| Umalloc.Umalloc.Take | project-1b-xv6-warmup-Alixyvette-master/umalloc.c:76-85 | The linked memory becomes that of the list without the units handed out; no unit of a live block changes. |
| Umalloc.Umalloc.Init | project-1b-xv6-warmup-Alixyvette-master/umalloc.c:69-73 | The first call makes the one-node circle. |
| Umalloc.Umalloc.Walk | project-1b-xv6-warmup-Alixyvette-master/umalloc.c:74-89 | malloc's loop ends and finds what the first-fit search of the list finds. |
| Umalloc.Umalloc.FindOrGrow | project-1b-xv6-warmup-Alixyvette-master/umalloc.c:74-89 | At most one morecore succeeds before malloc returns. |
| Umalloc.Umalloc.Malloc | project-1b-xv6-warmup-Alixyvette-master/umalloc.c:63-90 | The heap after malloc is that of the transition, the answer is a block of enough units or 0 exactly when none fits and sbrk refuses, and all other live blocks keep their content. |
| Umalloc.SearchStep | project-1b-xv6-warmup-Alixyvette-master/umalloc.c:30-32 | The loop condition of free stops at one node only. |
| Umalloc.FreedLinks | project-1b-xv6-warmup-Alixyvette-master/umalloc.c:33-42 | free's stores turn memory linked as a list into memory linked as the list after insertion. |
| Umalloc.CarvedLinks | project-1b-xv6-warmup-Alixyvette-master/umalloc.c:76-82 | malloc's stores turn memory linked as a list into memory linked as the carved list. |
| Blocks.GetPutWord | project-1b-xv6-warmup-Alixyvette-master/fs.c:386-397 | Storing a word in a block is read back there, and every other word is as before. |
| Bits.SetBitAt | project-1b-xv6-warmup-Alixyvette-master/fs.c:68-70 | Setting a bit of the free map sets that bit and no other. |
| Bits.ClearBitAt | project-1b-xv6-warmup-Alixyvette-master/fs.c:90-94 | Clearing a bit of the free map clears that bit and no other. |
| BlockMap.ClaimedInv | project-1b-xv6-warmup-Alixyvette-master/fs.c:56-78 | Taking a block with a clear bit: it was in no slot of any file, ownership stays sound, no slot and no byte of any file changes. |
| BlockMap.AttachedInv | project-1b-xv6-warmup-Alixyvette-master/fs.c:373-399 | Storing a fresh zeroed block in an empty slot: ownership stays sound, no other slot and no byte of any file changes, also when the slot is the indirect one. |
| BlockMap.PokedInv | project-1b-xv6-warmup-Alixyvette-master/fs.c:499-505 | Writing inside one block of a file changes that file's bytes there and no other byte of any file. |
| BlockMap.DroppedInv | project-1b-xv6-warmup-Alixyvette-master/fs.c:414-431 | Clearing a slot, the indirect one with all its entries, leaves every other slot and file as it was. |
| BlockMap.FreedInv | project-1b-xv6-warmup-Alixyvette-master/fs.c:81-96 | Freeing an unowned block: its bit was set, its bit alone is cleared. |
| FileContent.WriteStep | project-1b-xv6-warmup-Alixyvette-master/fs.c:499-505 | One turn of writei's loop extends what has been written; if the inode changed at all, the write runs past the size. |
| FileContent.ReadStep | project-1b-xv6-warmup-Alixyvette-master/fs.c:468-473 | One turn of readi's loop extends the slice that has been read. |
| FileContent.WrittenContent | project-1b-xv6-warmup-Alixyvette-master/fs.c:499-510 | A finished write makes the content content[..off] + src + content[off+n..]. |
| FileContent.FootprintSize | project-1b-xv6-warmup-Alixyvette-master/fs.c:499-510 | The distinct blocks a write of n bytes can log, whatever its alignment: at most two more than fit in n, and one each of free map, indirect block and inode. |
| Truncation.DirectStep | project-1b-xv6-warmup-Alixyvette-master/fs.c:414-419 | Freeing one direct block meets a set bit and keeps the invariant of the loop. |
| Truncation.CutStep | project-1b-xv6-warmup-Alixyvette-master/fs.c:424-429 | Freeing one entry of the indirect block, or the indirect block, meets a set bit and keeps the invariant of the loop. |
| Truncation.CutEnd | project-1b-xv6-warmup-Alixyvette-master/fs.c:408-436 | When all are freed exactly the bits of the file's blocks have been cleared and every other file has its slots, bytes and size. |
| FileSteps.WriteDone | project-1b-xv6-warmup-Alixyvette-master/fs.c:482-512 | The finished copy with the new size meets the contract of writei, mapped blocks up to the size included. |
| FileSteps.ContentAt | project-1b-xv6-warmup-Alixyvette-master/fs.c:373-401 | Byte x of a file at rest is byte x mod 512 of the block its inode names at x / 512, or of the one its indirect block names from the 13th block on. |
| FileSteps.WrittenAt | project-1b-xv6-warmup-Alixyvette-master/fs.c:482-512 | After a write the file is the larger of its size and off + n, its bytes are those of src on off .. off + n - 1 and the old ones elsewhere, and no other file has changed. |
| FileSteps.FilewroteAt | project-1b-xv6-warmup-Alixyvette-master/file.c:118-154 | What filewrite has come to, case by case: all n bytes where they fit, the whole chunks below the largest file size where they do not, nothing past the end of the file. |
| InodeBlocks.InodeRoundTrip | project-1b-xv6-warmup-Alixyvette-master/fs.c:217-237 | An inode copied to its slot of an inode block is read back from there, and the other inodes in the block are what they were. |
| InodeBlocks.PackedSynced | project-1b-xv6-warmup-Alixyvette-master/fs.c:217-237 | After iupdate the inode on the device is the one in memory, and so is every other that was before. |
| InodeBlocks.PackedInv | project-1b-xv6-warmup-Alixyvette-master/fs.c:217-237 | Writing an inode moves no block of any file, changes no byte and no bit of the free map. |
| FileSteps.OverwrittenTwice | project-1b-xv6-warmup-Alixyvette-master/file.c:133-153 | Two adjoining overwrites are one. |
| FileSteps.ChunkWritten | project-1b-xv6-warmup-Alixyvette-master/file.c:133-153 | A further chunk extends what filewrite has written. |
| FileSteps.ChunkLogged | project-1b-xv6-warmup-Alixyvette-master/file.c:124-133 | A chunk of at most 1536 bytes logs at most 7 distinct blocks, at any offset, when the free map is one block. |
| Files.FileSystem.Balloc | project-1b-xv6-warmup-Alixyvette-master/fs.c:55-78 | The first block whose bit is clear, now set, and zeroed; the panic exactly when no bit is clear. |
| Files.FileSystem.Bfree | project-1b-xv6-warmup-Alixyvette-master/fs.c:81-96 | Clears the bit; the panic exactly when it is clear already. |
| Files.FileSystem.Fill | project-1b-xv6-warmup-Alixyvette-master/fs.c:379-396 | An empty slot gets a fresh zeroed block that no file had; no byte of any file changes. |
| Files.FileSystem.LoadIndirect | project-1b-xv6-warmup-Alixyvette-master/fs.c:386-389 | The indirect block, allocated if there is none, entries reading as before. |
| Files.FileSystem.Bmap | project-1b-xv6-warmup-Alixyvette-master/fs.c:373-401 | The block named in the inode for the first 12, in the indirect block for the others; one that was there is left alone, else it is fresh and stored there; None only when out of range or out of blocks. |
| Files.FileSystem.Iupdate | project-1b-xv6-warmup-Alixyvette-master/fs.c:217-237 | The inode goes to its slot of its block, which is logged; what that means is InodeBlocks.PackedSynced. |
| Files.FileSystem.SaveSize | project-1b-xv6-warmup-Alixyvette-master/fs.c:507-510 | The size in memory and the inode on the device are brought up to date together, and no byte of any file changes. |
| Files.FileSystem.Itrunc | project-1b-xv6-warmup-Alixyvette-master/fs.c:408-436 | Never panics; clears exactly the bits of the blocks the inode owned; the inode is empty and so it is in its block; every other file is untouched. |
| Files.FileSystem.FreeInode | project-1b-xv6-warmup-Alixyvette-master/fs.c:342-344 | Never panics; the file is truncated and its inode free, in memory and on the device; every other file is untouched. |
| Files.FileSystem.Readi | project-1b-xv6-warmup-Alixyvette-master/fs.c:453-477 | -1 exactly past the end or on overflow; otherwise n bytes, or as many as there are up to the end, and exactly that slice of the content; nothing is allocated. |
| Files.FileSystem.Copy | project-1b-xv6-warmup-Alixyvette-master/fs.c:499-505 | The loop of writei: the bytes are stored, no other file changes, every block that changed is logged, and only blocks of the footprint are. |
| Files.FileSystem.Writei | project-1b-xv6-warmup-Alixyvette-master/fs.c:482-512 | -1 exactly past the end of the file or of the largest one; otherwise n, the content is content[..off] + src + content[off+n..], every other file is as it was, the inodes on the device equal those in memory and every block that changed is logged; each error leaves everything as it was; a panic finds every bit of the free map set. |
| Files.FileSystem.Transaction | project-1b-xv6-warmup-Alixyvette-master/file.c:140-145 | One chunk: written whole, or not at all with the result of writei; it has logged every block it changed, at most 7, and left the inodes on the device. |
| Files.FileSystem.Filewrite | project-1b-xv6-warmup-Alixyvette-master/file.c:118-154 | A write that fits is made whole and returns n; otherwise the offset moves by the whole chunks that fit and the answer is -1; the short-write panic does not happen; each transaction adds one chunk, logs at most 7 blocks, among them every block it changes, and leaves the inodes on the device. |
| FileCrash.MountedContent | project-1b-xv6-warmup-Alixyvette-master/fs.c:286-310 | Every file, its inode read from the device after a boot, has the content it had in memory. |
| FileCrash.OneTransaction | project-1b-xv6-warmup-Alixyvette-master/file.c:133-153 | Applying what the log commits, for one transaction or a group, to a disk that holds the state before it gives a disk that holds the state after it. |
| FileCrash.StatesReached | project-1b-xv6-warmup-Alixyvette-master/file.c:133-153 | After any number of transactions, the last cut off at any block write and its recovery any number of times, the disk holds the state after the last that reached its commit point. |
| FileCrash.FilewriteCrash | project-1b-xv6-warmup-Alixyvette-master/file.c:118-154 | For every crash in or between the transactions of a filewrite, at any block write, and any crashes in the recovery: the file as read from the disk is overwritten with exactly the chunks whose commit wrote its header, and every other file is what it was. |
| GroupCrash.TakeTurn | project-1b-xv6-warmup-Alixyvette-master/file.c:140-145 | A chunk of one writer, taken from whatever state the others have left, is a turn of the interleaving. |
| GroupCrash.WriterHolds | project-1b-xv6-warmup-Alixyvette-master/file.c:135-152 | Over every interleaving of writers of different files, each file is overwritten with exactly the chunks its writer has made. |
| GroupCrash.GroupOf | project-1b-xv6-warmup-Alixyvette-master/log.c:145-202 | A group of consecutive transactions changes no block but those that one of them logged. |
| GroupCrash.WritersCrash | project-1b-xv6-warmup-Alixyvette-master/file.c:118-154 | Writers of different files interleave their transactions, any consecutive ones share a commit, and the machine goes down at any block write, in recoveries too: after the boot every file, those of the writers and all others, is what it was at one and the same moment, the last commit that wrote its header. |
| Paging.PoppedInv | project-3b-null-pointer-and-shared-memory-Alixyvette-team-ibi-master/kalloc.c:82-95 | A page handed out was in no use, and the partition of physical memory stays. |
| Paging.PushedInv | project-3b-null-pointer-and-shared-memory-Alixyvette-team-ibi-master/kalloc.c:59-77 | A held page given back keeps the partition and every address space. |
| Paging.LinkedInv | project-3b-null-pointer-and-shared-memory-Alixyvette-team-ibi-master/vm.c:35-55 | A new page table keeps the partition and every entry of every address space, and its directory entry lets the user read and write, as every present one does. |
| Paging.MappedInv | project-3b-null-pointer-and-shared-memory-Alixyvette-team-ibi-master/vm.c:60-80 | Mapping a held page changes one entry of one address space. |
| Paging.UnmappedInv | project-3b-null-pointer-and-shared-memory-Alixyvette-team-ibi-master/vm.c:266-276 | Unmapping a page changes one entry, and the page is held. |
| PagingSteps.LocalOther | project-3b-null-pointer-and-shared-memory-Alixyvette-team-ibi-master/vm.c:221-345 | What is confined to one address space leaves every other with the same entries and page contents. |
| PagingFree.TrimStep | project-3b-null-pointer-and-shared-memory-Alixyvette-team-ibi-master/vm.c:269-276 | Freeing one mapped page: it is the allocator's, it is not page 0, and exactly it is given up. |
| PagingFree.TornStep | project-3b-null-pointer-and-shared-memory-Alixyvette-team-ibi-master/vm.c:291-296 | Freeing one page table of an address space that has no user pages. |
| PagingFree.MadeAndGone | project-3b-null-pointer-and-shared-memory-Alixyvette-team-ibi-master/vm.c:129-134 | An address space made and destroyed again leaves memory as it was. |
| PagingGrow.Undone | project-3b-null-pointer-and-shared-memory-Alixyvette-team-ibi-master/vm.c:233-247 | Growing part of the way and trimming it off again restores the mapping, also with the page in hand given back. |
| PagingGrow.CopyStep | project-3b-null-pointer-and-shared-memory-Alixyvette-team-ibi-master/vm.c:325-339 | One more page copied: same content and flags, a frame that was free. |
| PagingProtect.SpaceCopied | project-3b-null-pointer-and-shared-memory-Alixyvette-team-ibi-master/proc.c:181-199 | After fork the child has a page exactly where the parent has one. |
| PagingProtect.CopyDisjoint | project-3b-null-pointer-and-shared-memory-Alixyvette-team-ibi-master/vm.c:315-345 | Parent and child share no physical page, the child's pages are distinct, and the parent's entries are as before. |
| PagingProtect.WithWBits | project-3b-null-pointer-and-shared-memory-Alixyvette-team-ibi-master/vm.c:412-443 | Setting or clearing PTE_W changes that bit and neither frame, presence nor user bit. |
| PagingProtect.ReflaggedSpace | project-3b-null-pointer-and-shared-memory-Alixyvette-team-ibi-master/vm.c:388-449 | After mprotect or munprotect the process has the same pages, writable as asked on the range and as before elsewhere. |
| PagingProtect.ExecGuarded | project-3b-null-pointer-and-shared-memory-Alixyvette-team-ibi-master/exec.c:63-69 | Clearing PTE_U on the guard page takes that page, and no other, from the user. |
| PagingAccess.ByEntry | project-3b-null-pointer-and-shared-memory-Alixyvette-team-ibi-master/vm.c:45-54 | What the directory allows is no obstacle: a page is the user's to read or write exactly if its own entry says so. |
| PagingAccess.KernAccess | project-3b-null-pointer-and-shared-memory-Alixyvette-team-ibi-master/vm.c:103-136 | The kernel's pages after setupkvm: physical memory from KERNBASE on, its text read-only, the devices, and none of them the user's. |
| PagingAccess.ExecAccess | project-3b-null-pointer-and-shared-memory-Alixyvette-team-ibi-master/exec.c:38-69 | After exec the user may read and write exactly the pages below its size other than page 0 and the guard page. |
| PagingAccess.GrownAccess | project-3b-null-pointer-and-shared-memory-Alixyvette-team-ibi-master/vm.c:221-249 | The pages gained are the user's to write and zeroed; the others are what they were. |
| PagingAccess.TrimmedAccess | project-3b-null-pointer-and-shared-memory-Alixyvette-team-ibi-master/vm.c:255-279 | The pages given up are nobody's to read; the others are what they were. |
| PagingAccess.CopyAccess | project-3b-null-pointer-and-shared-memory-Alixyvette-team-ibi-master/vm.c:315-345 | After fork the child may read and write exactly what the parent may, below its size, and finds the parent's bytes there. |
| PagingAccess.ReflagAccess | project-3b-null-pointer-and-shared-memory-Alixyvette-team-ibi-master/vm.c:388-449 | After mprotect and munprotect the same pages can be read, and those of the range written exactly if that was asked for. |
| VirtualMemory.Machine.Kalloc | project-3b-null-pointer-and-shared-memory-Alixyvette-team-ibi-master/kalloc.c:82-95 | The head of the free list, or nothing when it is empty. |
| VirtualMemory.Machine.Kfree | project-3b-null-pointer-and-shared-memory-Alixyvette-team-ibi-master/kalloc.c:59-77 | The page is filled with junk and put at the head; the panic exactly for a page that is not the allocator's. |
| VirtualMemory.Machine.Walkpgdir | project-3b-null-pointer-and-shared-memory-Alixyvette-team-ibi-master/vm.c:35-55 | The table of an address, made if asked for; its directory entry is writable and the user's; no entry of any address space changes; a failure finds no free page. |
| VirtualMemory.Machine.Mappages | project-3b-null-pointer-and-shared-memory-Alixyvette-team-ibi-master/vm.c:60-80 | The entries of consecutive pages for consecutive frames, as many as it got to; the remap panic only on a present entry. |
| VirtualMemory.Machine.Deallocuvm | project-3b-null-pointer-and-shared-memory-Alixyvette-team-ibi-master/vm.c:255-279 | Unmaps and frees exactly the user pages between the sizes, holes and missing tables included; neither panic happens. |
| VirtualMemory.Machine.Freevm | project-3b-null-pointer-and-shared-memory-Alixyvette-team-ibi-master/vm.c:283-298 | Every page of the address space, and no other, is free afterwards. |
| VirtualMemory.Machine.Allocuvm | project-3b-null-pointer-and-shared-memory-Alixyvette-team-ibi-master/vm.c:221-249 | Success maps exactly the new pages, to zeroed frames that were free; failure comes only for want of memory, restores the mapping and gives every page back; the panics underneath do not happen. |
| VirtualMemory.Machine.Setupkvm | project-3b-null-pointer-and-shared-memory-Alixyvette-team-ibi-master/vm.c:118-136 | A new address space with exactly the kernel's four regions; or, for want of memory only, nothing changed. |
| VirtualMemory.Machine.Copyuvm | project-3b-null-pointer-and-shared-memory-Alixyvette-team-ibi-master/vm.c:315-345 | A new address space with the pages of [PGSIZE, sz) copied, content and flags; or, for want of memory only, nothing changed; it panics only on a missing page. |
| VirtualMemory.Machine.Clearpteu | project-3b-null-pointer-and-shared-memory-Alixyvette-team-ibi-master/vm.c:303-311 | Clears PTE_U of one page; the panic exactly when there is no table. |
| VirtualMemory.Machine.Protect | project-3b-null-pointer-and-shared-memory-Alixyvette-team-ibi-master/vm.c:388-449 | Succeeds exactly for an aligned range of at least one page inside [PGSIZE, sz), and then changes exactly the len pages. |
| VirtualMemory.Machine.Growproc | project-3b-null-pointer-and-shared-memory-Alixyvette-team-ibi-master/proc.c:158-175 | The size and the pages agree afterwards; a failure leaves the mapping as it was and agreeing with the old size, except for the shrinking to exactly 0, which fails after freeing the pages. |
| VirtualMemory.Machine.ExecSpace | project-3b-null-pointer-and-shared-memory-Alixyvette-team-ibi-master/exec.c:38-69 | The space exec builds: pages [PGSIZE, sz) and no page 0, all the user's to write but the guard page below the stack, the kernel's mappings; a failure has one of three reasons, an unfit segment, no room below the kernel, too little memory, and gives everything back; no other memory is touched. |
| VirtualMemory.ReachIs | project-3b-null-pointer-and-shared-memory-Alixyvette-team-ibi-master/exec.c:38-55 | The size of the program before its stack is the end of the segment that ends last, or the first page. |
| VirtualMemory.Machine.ExecSegment | project-3b-null-pointer-and-shared-memory-Alixyvette-team-ibi-master/exec.c:48-55 | Room for one segment: the size becomes the larger of the old one and the end of the segment, or the segment is refused and the space torn down. |
| VirtualMemory.Machine.ExecStack | project-3b-null-pointer-and-shared-memory-Alixyvette-team-ibi-master/exec.c:63-69 | Two pages above the segments, the lower one out of the user's reach. |
| SleepLock.StepInv | project-1b-xv6-warmup-Alixyvette-master/sleeplock.c:22-42 | Every step of acquiresleep and releasesleep, interleaved with sleep and wakeup, keeps owner, pid and wakeups right. |
| SleepLock.Safety | project-1b-xv6-warmup-Alixyvette-master/sleeplock.c:22-42 | Over every run at most one process is between acquiresleep and releasesleep, and with lk->lk free a process sleeping on the lock finds it locked. |
| SleepLock.NobodyStuck | project-1b-xv6-warmup-Alixyvette-master/sleeplock.c:22-42 | Over every run, when everybody is outside or asleep and nobody owns the lock, nobody is asleep. |
| SleepLock.HoldingSleep | project-1b-xv6-warmup-Alixyvette-master/sleeplock.c:44-53 | holdingsleep answers whether the caller is between acquiresleep and releasesleep. |
| SleepLock.Stages | project-1b-xv6-warmup-Alixyvette-master/sleeplock.c:22-45 | Over every run acquiresleep returns only with the lock set for its caller, and releasesleep only with it clear. |
| PipeRing.Counters | project-1b-xv6-warmup-Alixyvette-master/pipe.c:85-111 | The 32-bit counters tell an empty and a full ring apart however often they have wrapped around. |
| PipeRing.PutFifo | project-1b-xv6-warmup-Alixyvette-master/pipe.c:93 | A byte deposited is the last written, and the ring still stands for what is unread. |
| PipeRing.GetFifo | project-1b-xv6-warmup-Alixyvette-master/pipe.c:113-117 | A byte taken is the oldest unread, and the ring still stands for what is unread. |
| PipeRing.Pipe.constructor | project-1b-xv6-warmup-Alixyvette-master/pipe.c:33-37 | A new pipe is empty and open at both ends. |
| PipeRing.Pipe.Deposit | project-1b-xv6-warmup-Alixyvette-master/pipe.c:84-94 | The loop of pipewrite: all of the bytes in order, or as many as fill the ring. |
| PipeRing.Pipe.Deliver | project-1b-xv6-warmup-Alixyvette-master/pipe.c:113-120 | The loop of piperead: the oldest unread bytes, as many as asked for or all there are. |
| PipeRing.Pipe.Close | project-1b-xv6-warmup-Alixyvette-master/pipe.c:59-75 | Closes one end; the pipe is to be freed exactly when both are closed. |
| PipeRuns.StepInv | project-1b-xv6-warmup-Alixyvette-master/pipe.c:59-121 | Every step of readers, writers and closers, with sleep and wakeup in separate steps, keeps the ring a queue and the wakeups right. |
| PipeRuns.FifoAlways | project-1b-xv6-warmup-Alixyvette-master/pipe.c:77-121 | Over every run the bytes delivered are a prefix of the bytes deposited and the rest, at most PIPESIZE, is in the ring. |
| PipeCalls.WriteEnds | project-1b-xv6-warmup-Alixyvette-master/pipe.c:79-98 | Over every run a call of pipewrite puts in the bytes of its buffer in order, and all of them, unless it ends at a full pipe with nobody left to read it or with the process killed. |
| PipeCalls.ReadEnds | project-1b-xv6-warmup-Alixyvette-master/pipe.c:101-121 | Over every run a call of piperead takes consecutive bytes of the stream, as many as asked for or all there were; none only at the end of the stream or with the process killed. |
| PipeCalls.CloseEnds | project-1b-xv6-warmup-Alixyvette-master/pipe.c:60-75 | Over every run an end is closed for good when its pipeclose has returned. |
| PipeLost.LostExactlyWhen | project-1b-xv6-warmup-Alixyvette-master/pipe.c:77-121 | A step of the pipe loses a wakeup if and only if it is a writer leaving a full pipe, for want of readers or because it was killed, with bytes in it that the readers have not been woken for; the wakeup lost is the readers'. |
| PipeLost.LostSince | project-1b-xv6-warmup-Alixyvette-master/pipe.c:77-121 | Over every run a wakeup has been lost if and only if such a step was made. |
| PipeLost.Sleepers | project-1b-xv6-warmup-Alixyvette-master/pipe.c:77-121 | Over every run with the lock free: writers sleep only on a full pipe open for reading, and readers only on an empty one open for writing unless a killed writer left a full pipe like that before. |
| PipeLost.KilledWriterStrands | project-1b-xv6-warmup-Alixyvette-master/pipe.c:77-121 | For whatever is written, if it is more than PIPESIZE bytes: a run that ends with a reader asleep on a full pipe, nobody else in a call. |
| ProcTable.StepInv | project-2b-xv6-scheduling-Alixyvette-master/proc.c:141-587 | Every section of fork, exit, wait, sleep, wakeup, kill and the scheduler keeps the tree, the waiters and the pids right. |
| ProcTable.NoOrphans | project-2b-xv6-scheduling-Alixyvette-master/proc.c:299-339 | Over every run a live or zombie process other than init has a living parent. |
| ProcTable.NoMissedExit | project-2b-xv6-scheduling-Alixyvette-master/proc.c:299-383 | Over every run nobody sleeps in wait while a child is a zombie. |
| ProcTable.ReapedOnce | project-2b-xv6-scheduling-Alixyvette-master/proc.c:344-383 | Over every run wait returns no pid twice and only pids that exited, and an exited pid not yet returned is still a zombie's. |
| ProcLife.LifeCycle | project-2b-xv6-scheduling-Alixyvette-master/proc.c:141-587 | Over every run an entry goes from unused to embryo, from there to runnable, as the child of the process that forks, or back, then between runnable, running and sleeping, to zombie and to unused. |
| ProcLife.NoDeafSleeper | project-2b-xv6-scheduling-Alixyvette-master/proc.c:344-383 | Over every run nobody sleeps in wait while marked as killed. |
| ProcLife.KillWakes | project-2b-xv6-scheduling-Alixyvette-master/proc.c:570-587 | The entry kill hits is marked and sleeps no more, whatever it slept on; no other entry changes. |
| ProcLife.WakeupWakes | project-2b-xv6-scheduling-Alixyvette-master/proc.c:547-564 | After wakeup nobody sleeps on the channel, and every other entry is as it was. |
| ProcLife.WaitReturns | project-2b-xv6-scheduling-Alixyvette-master/proc.c:344-383 | wait answers -1 only without children or when killed, and sleeps only with children, none of them a zombie, and not killed. |
| ProcLife.ExitReturns | project-2b-xv6-scheduling-Alixyvette-master/proc.c:321-336 | exit leaves a zombie whose children are init's, its parent awake, and init too if one of them is a zombie; nobody else changes state. |
| ProcCode.Ptable.Wakeup1 | project-2b-xv6-scheduling-Alixyvette-master/proc.c:547-555 | Exactly the processes sleeping on the channel become runnable. |
| ProcCode.Ptable.Alloc | project-2b-xv6-scheduling-Alixyvette-master/proc.c:146-161 | The first unused entry becomes an embryo with a new pid; None exactly when every entry is used. |
| ProcCode.Ptable.ExitProc | project-2b-xv6-scheduling-Alixyvette-master/proc.c:321-336 | The locked part of exit is the transition: parent woken, children handed to init, init woken for a zombie among them, the process a zombie. |
| ProcCode.Ptable.WaitScan | project-2b-xv6-scheduling-Alixyvette-master/proc.c:350-382 | One scan of wait: a zombie child is freed exactly when there is one, the first of them; otherwise -1 exactly without children or when killed, and sleep else. |
| ProcCode.Ptable.KillPid | project-2b-xv6-scheduling-Alixyvette-master/proc.c:570-587 | The first entry with the pid, used or not, is marked, and made runnable if it sleeps; -1 exactly when there is none. |
| ProcKill.MarkedExactlyWhen | project-2b-xv6-scheduling-Alixyvette-master/proc.c:570-587 | Over every run an entry is marked as killed if and only if a kill hit it and wait has not reaped it since. |
| ProcKill.BornKilledExactlyWhen | project-2b-xv6-scheduling-Alixyvette-master/proc.c:141-161 | Over every run a new process starts its life killed if and only if, since wait last reaped its entry, a kill hit the entry when that was unused or in a fork that was yet to fail. |
| ProcKill.LeftExactlyWhen | project-2b-xv6-scheduling-Alixyvette-master/proc.c:250-267 | Over every run the positive pids of unused entries are exactly those of forks that failed there and left the entry unused since. |
| ProcKill.KillHitsNobodyExactlyWhen | project-2b-xv6-scheduling-Alixyvette-master/proc.c:570-587 | Over every run kill(pid) answers 0 with no process of that pid if and only if a failed fork left the pid behind, or the pid is 0 and some unused entry was left otherwise. |
| ProcKill.ZeroKilled | project-2b-xv6-scheduling-Alixyvette-master/proc.c:141-587 | From every boot: a run in which init kills pid 0 and the next process is born killed. |
| ProcKill.LeftKilled | project-2b-xv6-scheduling-Alixyvette-master/proc.c:141-587 | From every boot: a run in which a fork fails, init kills the pid it had, and the next process is born killed. |
| RunLength.RleRight | project-3a-parallel-zip-Alixyvette-team-zuzu-master/pzip.c:161-230 | The runs of a sequence spell it, none is empty and neighbours differ. |
| RunLength.RleOnly | project-3a-parallel-zip-Alixyvette-team-zuzu-master/pzip.c:161-230 | They are the only ones that do. |
| RunLength.RleJoined | project-3a-parallel-zip-Alixyvette-team-zuzu-master/pzip.c:52-72 | The runs of two pieces, joined at the seam, are the runs of the whole. |
| RunLength.UnzipLoop | project-1a-unix-warmup-Alixyvette-master/my-unzip.c:20-30 | The decoding loop computes the decoding function, a cut-off file and the early stop included. |
| RunLength.EncodeOne | project-3a-parallel-zip-Alixyvette-team-zuzu-master/pzip.c:95-110 | A run is stored as its count, least byte first, and its character. |
| RunLength.UnzipEncode | project-1a-unix-warmup-Alixyvette-master/my-unzip.c:20-30 | Decoding an encoding gives the runs up to and including the first of byte 255. |
| RunLength.UnzipRestores | project-1a-unix-warmup-Alixyvette-master/my-unzip.c:20-30 | A file is restored from its encoding if and only if byte 255 occurs at its end only. |
| Pzip.Arg.Compression | project-3a-parallel-zip-Alixyvette-team-zuzu-master/pzip.c:161-230 | A thread leaves exactly the runs of its block in its arrays. |
| Pzip.FixInter | project-3a-parallel-zip-Alixyvette-team-zuzu-master/pzip.c:52-72 | Runs that meet at a seam become one, in the left block; -1 exactly when the left block has no run left. |
| Pzip.MendSeam | project-3a-parallel-zip-Alixyvette-team-zuzu-master/pzip.c:86-93 | A seam is mended with the last block before it that still has a run. |
| Pzip.MendSeams | project-3a-parallel-zip-Alixyvette-team-zuzu-master/pzip.c:81-94 | After all seams the blocks' runs, one after the other, are the runs of the whole. |
| Pzip.Print | project-3a-parallel-zip-Alixyvette-team-zuzu-master/pzip.c:95-110 | A block is printed up to its first null character. |
| Pzip.PrintEverything | project-3a-parallel-zip-Alixyvette-team-zuzu-master/pzip.c:75-124 | The output is the encoding of the runs of the whole if and only if there is no null byte. |
| Pzip.Pzip | project-3a-parallel-zip-Alixyvette-team-zuzu-master/pzip.c:281-337 | For one file of at least 4 bytes the output is the sequential encoding if and only if the file has no null byte; then my-unzip restores it if and only if byte 255 occurs at its end only. |
| Grep.BeginsOne | project-1b-xv6-warmup-Alixyvette-master/grep.c:93-94 | What an item at the head of a pattern means, against the denotation. |
| Grep.BeginsStar | project-1b-xv6-warmup-Alixyvette-master/grep.c:98-106 | What a repeated item at the head of a pattern means, against the denotation. |
| Grep.Matchhere | project-1b-xv6-warmup-Alixyvette-master/grep.c:84-96 | True exactly when some beginning of the text is in the language of the pattern. |
| Grep.Matchstar | project-1b-xv6-warmup-Alixyvette-master/grep.c:98-106 | The same for any number of one character followed by the rest of the pattern. |
| Grep.Match | project-1b-xv6-warmup-Alixyvette-master/grep.c:72-82 | True exactly when some piece of the text is in the language of the pattern, with ^ and $ where they are special. |
| Grep.LiteralMatches | project-1b-xv6-warmup-Alixyvette-master/grep.c:72-96 | A pattern without special characters is found where it occurs, after ^ at the beginning only, before $ at the end only, between the two as the whole text only. |
| Grep.DotAndStar | project-1b-xv6-warmup-Alixyvette-master/grep.c:84-106 | A dot stands for any one character, c* for any number of c, .* for anything. |
| ShellGrammar.ParseExactlyWhen | project-1b-xv6-warmup-Alixyvette-master/sh.c:344-446 | On tokens: the parser accepts exactly the lines of the grammar, and the command it makes is the one the line means, argument limit and redirections in any place included. |
| ShellGrammar.ParseShown | project-1b-xv6-warmup-Alixyvette-master/sh.c:344-446 | Parsing the canonical line of any command the shell can make gives that command back. |
| ShellGrammar.LineMapped | project-1b-xv6-warmup-Alixyvette-master/sh.c:344-446 | What the words are makes no difference to the parser. |
| ShellGrammar.PipesAndLists | project-1b-xv6-warmup-Alixyvette-master/sh.c:344-372 | What | ; and & mean, and which binds tighter, for any words. |
| ShellGrammar.Redirections | project-1b-xv6-warmup-Alixyvette-master/sh.c:374-397 | What < > and >> open, with which mode and descriptor, and how they nest, for any words. |
| ShellGrammar.Parentheses | project-1b-xv6-warmup-Alixyvette-master/sh.c:399-413 | Parentheses make a line a command, for any words. |
| ShellText.Characters | project-1b-xv6-warmup-Alixyvette-master/sh.c:256-308 | Which characters are blanks, symbols and words, and that >> is one token. |
| ShellText.GetToken | project-1b-xv6-warmup-Alixyvette-master/sh.c:265-308 | The next token of the text, its place if it is a word, and the rest of the tokens behind it. |
| ShellText.Peek | project-1b-xv6-warmup-Alixyvette-master/sh.c:310-320 | Whether the next token begins with one of the characters; no token is passed. |
| ShellText.ParseRedirections | project-1b-xv6-warmup-Alixyvette-master/sh.c:374-397 | All redirections that stand here, up to the first other token or the first without a file. |
| ShellText.ParseExecText | project-1b-xv6-warmup-Alixyvette-master/sh.c:415-446 | The walk over the text makes the command the token parser makes, and fails when it fails. |
| ShellText.ParseLineText | project-1b-xv6-warmup-Alixyvette-master/sh.c:344-359 | The same for a whole line. |
| ShellText.NulTerminate | project-1b-xv6-warmup-Alixyvette-master/sh.c:449-493 | A NUL at the end of every word of the command, and no other change. |
| ShellText.ParseCmd | project-1b-xv6-warmup-Alixyvette-master/sh.c:327-342 | Succeeds exactly when the text is a line of the grammar; then every word of the command reads as the C string it was in the text, as nulterminate never writes into a word. |
| ShellText.ParsePrinted | project-1b-xv6-warmup-Alixyvette-master/sh.c:327-342 | For every command the shell can make, of words that can be written down, parsing its canonical text gives that command. |
| Paths.Skipelem | project-1b-xv6-warmup-Alixyvette-master/fs.c:596-619 | The next non-empty element, cut to DIRSIZ, and a path with the remaining ones; nothing exactly when there is none. |
| Paths.FirstElement | project-1b-xv6-warmup-Alixyvette-master/fs.c:596-619 | A name between slashes is one element, cut to 14 characters. |
| Paths.Icache.Iget | project-1b-xv6-warmup-Alixyvette-master/fs.c:242-273 | One reference more to the inode, in the one place it has; the panic exactly when it is not cached and every place is taken. |
| Paths.Icache.Idup | project-1b-xv6-warmup-Alixyvette-master/fs.c:277-284 | One reference more to the inode. |
| Paths.Icache.Ilock | project-1b-xv6-warmup-Alixyvette-master/fs.c:288-313 | The inode is read, or the panic, exactly when it is free on the disk. |
| Paths.Icache.Iput | project-1b-xv6-warmup-Alixyvette-master/fs.c:332-353 | One reference less, in that place only; the inode becomes free exactly when it was read, has no links and this was its last reference, and then nothing cached of it counts as read. |
| Paths.Icache.Visit | project-1b-xv6-warmup-Alixyvette-master/fs.c:636-652 | One element of the walk: where it leads, and which reference is exchanged for which; the panic of ilock exactly at a free inode. |
| Paths.Icache.Namex | project-1b-xv6-warmup-Alixyvette-master/fs.c:625-658 | The walk finds exactly the inode at the end of the elements, or the directory before it; references: one more for the inode returned, none for any other; an inode becomes free only if the walk came to it, it has no links and nobody held it before; ilock panics only at a free inode on the way. |

## Left out

- Hardware and drivers, traps, system call argument fetching, context switching
  in assembly, spinlock internals: acquire and release are atomic steps.
- ialloc, stati, link and unlink, and the device numbers of an inode.
- The superblock read in initlog and bfree: its fields are given.
- Directory content (dirlookup, dirlink, their use of readi and writei): `Paths`
  takes directories as a map from names to inode numbers.
- Device files: reads and writes of them return a result of their own, without
  the driver.
- What files at rest look like on a new disk: the invariant is a hypothesis on
  the initial image. (mkfs rounds the size of the root directory up, which can
  cover a block that is not there.)
- BufferCache.Bcache.Lookup: the list is a sequence of buffer indices, not prev
  and next pointers, and a sleep lock is a flag; `SleepLock` has its protocol.
- Logging.Log.BeginOp: one turn of the loop; the waiting is in `LogWaits`.
- BufferCache.Bcache.Bread: by a process that finds the buffer unlocked; the
  waiting for another to release it is in `SleepLock`.
- Logging.Log.Commit: other processes that read or change blocks while the
  commit writes are not interleaved with it, and none holds a logged block.
- FileCrash.FilewriteCrash: the blocks the file system works on and the cached
  ones are taken to be the same, as `BufferCache` shows bread to give.
- GroupCrash.WritersCrash: a transaction is one step, so two that are in progress
  at once are taken in some order; that a group fits the area is a hypothesis,
  which `LogReservation.SmallCallsAreSafe` gives for calls of this size.
- Logging.Log.LogWrite: no other process writes between the tests and the locked
  part; `Logging.Log.MayWrite` and `Logging.Log.Put` are the two parts alone, and
  `LogReservation` interleaves them.
- Logging.Log.Put: a list of LOGSIZE blocks that is to grow, which is past the
  end of the array and which calls within MAXOPBLOCKS cannot reach.
- Logging.Log.EndOp: a commit of a list that has outgrown the area; what that does
  to the disk is `RedoLog.WriteLogOverrun`.
- ShellText.ParseCmd: nodes are values, not cells that parseexec goes on filling
  in; runcmd and the reading of command lines are left out.
- Umalloc.Umalloc.Malloc: does not model the overflow of nbytes near the end of
  the unsigned range, nor sbrk itself, whose answer is a parameter.
- Paths.Icache.Iput: what the freeing of an inode does to its file and to the
  free map is in `Files.FileSystem.FreeInode`; the two classes share no state.
- Paths.Icache.Ilock: the sleep lock is in `SleepLock`.
- Paths.Icache.Namex: one process walks; others neither link, unlink nor write
  directories meanwhile.
- VirtualMemory.Machine.Kfree: the free list is a sequence, not a list threaded
  through the free pages; a page freed twice is excluded by the precondition, as
  the code asks of its callers.
- VirtualMemory.Machine.Protect: the two calls, which differ in one bit, are one
  method; len times PGSIZE is taken not to overflow.
- VirtualMemory.Machine.ExecSpace: loading of segment contents, argument
  strings and copyout are not modelled, nor is ELF parsing.
- freerange, kinit1, kinit2, inituvm, uva2ka: they would add easy members.
- SleepLock.Safety: only the owner releases, as the callers see to.
- PipeRuns.StepInv: an end of the pipe is closed for good only when nobody is
  in a call on it, as the reference counts of open files see to; those counts,
  and the freeing of the pipe, are left out.
- ProcTable.StepInv: pids do not wrap around; file tables, kernel stacks and
  page tables of a process are left out.
- The lottery of the scheduler: any runnable process may be picked.
- Pzip.Pzip: the threads, which share nothing before they are joined, run one
  after the other; several files, files of fewer than 4 bytes and the mapping of
  the file into memory are left out.
- grep's line buffering, and the programs of the other projects.
