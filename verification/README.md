# A verified model of the xv6 kernel's core

This project models the parts of the xv6 tree in `project01/xv6-public` where one mistake loses
data, loses a wakeup or hands out the same memory twice, and proves what they promise. Code that
changes things in place is a class whose methods are proved against a specification on values; the
lemmas about that specification hold for all inputs, all runs and all interleavings. The class in
`Log.dfy` and the machine in `LogProtocol.dfy` share one description of the block writes, `Wal.CommitWrites`.

| files | what they model |
|---|---|
| `Basics.dfy` | options, minimum and maximum, the size of finite sets |
| `Blocks.dfy` | 512-byte blocks, the little-endian words of the log header and the indirect block, the bits of the free map |
| `Wal.dfy` | the block writes of commit and recovery, and what a disk means after a crash between any two of them |
| `BufferCache.dfy`, `Log.dfy` | the buffer ring over the memory disk, and the log over the buffer cache, as the kernel performs them |
| `LogProtocol.dfy`, `LogEvents.dfy` | the same log as an interleaving machine: concurrent operations, the committer, cache loads and evictions, power failures; and what its runs make durable, read off their events |
| `FsSpec.dfy`, `Fs.dfy` | free map, block map, reading, writing and truncating files, and the abstract view of a file as a byte string |
| `Dinodes.dfy` | the byte layout of inodes, eight to a block |
| `FsCrash.dfy` | the file system over its log: consistency and file contents after power failures |
| `KrMalloc.dfy` | the K&R allocator of user programs |
| `SchedSpec.dfy`, `SchedRuns.dfy`, `Scheduler.dfy` | the three-level feedback queue and the scheduler lock |
| `SleepLocks.dfy` | sleep-locks over sleep, wakeup and kill, one shared-memory access per step |
| `Pipe.dfy` | the pipe's ring buffer, and all runs of its readers and writers |
| `Grep.dfy`, `GrepLines.dfy` | the pattern matcher, and the line loop that feeds it |
| `VmSpec.dfy`, `Vm.dfy` | the page allocator and two-level page tables |

Conventions. A panic is an outcome of a method, never a precondition, unless the text below says
so. Widths matter where the code's arithmetic can wrap: file offsets, `nbytes` in malloc, the pipe's
counters, `ticks`; elsewhere numbers are unbounded. Ghost fields and the fields called history record
what has happened and influence nothing. What the hardware, the clock, sbrk and read answer is a parameter.

## Where the code and its own words differ

- `param.h:10` calls MAXOPBLOCKS, 10, the most blocks an operation writes, and begin_op reserves
  that many. With ten, three operations fill the log to 29 blocks and log_write panics at line 218.
  `LogProtocol.LogSpace` proves that the panic is unreachable exactly if no operation adds more than
  nine. A piece of filewrite meets that budget: `Fs.FileSystem.Writei` counts the blocks it logs, and
  by `Fs.WithinBudget` they are at most nine on any disk of up to 12288 blocks.
- `umalloc.c:69` computes the size of a block in 32 bits. The payload has room for the request
  exactly if `nbytes + 7` does not wrap (`KrMalloc.RoomUnlessWrapped`); the largest request gets no
  payload at all (`KrMalloc.LargestRequest`). `umalloc.c:54` takes `nu * sizeof(Header)` as an int,
  which is the size that the block is given afterwards exactly for requests below 2^31 - 15, or
  wrapped ones (`KrMalloc.SbrkAskedRight`); for 2^31 bytes it is negative (`KrMalloc.SbrkAskedWrong`).
- `proc.c:544` means to put a process that gives up the scheduler lock first in L0. That holds when
  the lock times out (`SchedRuns.TimeoutPutsHolderFirst`), but after a call of schedulerUnlock by the
  holder line 373 overwrites the -1 with the clock, however its turn goes on and ends.
  `SchedRuns.OwnUnlock` and `SchedRuns.OwnUnlockBoosted` say exactly when the holder is still first.
  `SchedRuns.OwnUnlockNotFirst` is a run from boot, with the tick that preempts the holder, in which
  another process is chosen.
- `pipe.c:88` returns from a killed writer without waking the readers. `PipeSpec.ReaderStranded` is
  a run in which a reader then sleeps on a full pipe, and `PipeSpec.StrandedExactly` says which steps
  leave one so; runs without kill have none.
- `grep.c:29-30` drops a buffer that has no newline; `GrepLines.LineLost` is a line cut in two that
  grep does not see. `GrepLines.SeesAllExactly` says for which results of read grep sees every line;
  for a regular file that is so exactly if no line that ends in a newline is longer than 1022
  characters (`GrepLines.RegularFileSeen`).

## Model

| member | source | states |
|---|---|---|
| `Blocks.PutWord` | project01/xv6-public/log.c:98-113 | Storing a 32-bit word in a block is read back by Word and leaves the other words alone. |
| `Blocks.WordBytes` | project01/xv6-public/log.c:98-113 | A word is its four bytes, the least significant first. |
| `Blocks.SetBit` | project01/xv6-public/fs.c:66-68 | Setting a bit of a free-map block sets that bit and no other. |
| `Blocks.ClearBit` | project01/xv6-public/fs.c:88-92 | Clearing a bit clears that bit and no other. |
| `Blocks.BitOfByte` | project01/xv6-public/fs.c:66-68 | Bit i of the free map is bit i % 8 of byte i / 8, the lowest first. |
| `Wal.CommitPrefix` | project01/xv6-public/log.c:192-202 | Cut off after any number of its writes, commit leaves a disk that means the old contents until the header write, the whole transaction from then on; complete, it leaves the log empty. |
| `Wal.RecoverPrefix` | project01/xv6-public/log.c:115-122 | Recovery cut off anywhere leaves the meaning of every home block unchanged. |
| `Wal.RecoveryConverges` | project01/xv6-public/log.c:115-122 | After any number of crashes inside recovery, one completed recovery gives every home block its logged contents and empties the log. |
| `Wal.CrashAtomicity` | project01/xv6-public/log.c:69-202 | A crash between any two writes of commit and any crashes in recovery: all home blocks end old or all end new, new exactly if the first header write reached the disk. |
| `Wal.EncodeHead` | project01/xv6-public/log.c:101-113 | A header written by write_head decodes to the block list it was written from. |
| `Wal.HeadLayout` | project01/xv6-public/log.c:34-37 | The count is in the first word, the block numbers follow in order. |
| `BufferCache.Cache.constructor` | project01/xv6-public/bio.c:38-56 | binit links all buffers into one ring, the last one first; nothing is cached, dirty or locked. |
| `BufferCache.Cache.Lookup` | project01/xv6-public/bio.c:68-76 | The forward walk finds the buffer of the block exactly if one is cached. |
| `BufferCache.Cache.Victim` | project01/xv6-public/bio.c:81-91 | The backward walk finds the free buffer nearest to the tail exactly if any buffer is unreferenced and not B_DIRTY. |
| `BufferCache.Cache.Bget` | project01/xv6-public/bio.c:61-93 | A hit gains a reference; a miss recycles no dirty buffer and, of all free ones, one whose last release is longest ago; "no buffers" exactly if there is neither; no other buffer changes; at most one buffer per block. |
| `BufferCache.Cache.Bread` | project01/xv6-public/bio.c:96-106 | The locked buffer of the block holds what readers of that block must see, from the cache if it differs from the disk. |
| `BufferCache.Cache.Bwrite` | project01/xv6-public/memide.c:38-60 | The disk changes in that block alone, to the buffer's data, and B_DIRTY is cleared. |
| `BufferCache.Cache.Brelse` | project01/xv6-public/bio.c:120-141 | The last release moves the buffer to the head of the ring, keeps the order of the others and is the newest in the history of releases that orders the ring. |
| `BufferCache.Cache.Relink` | project01/xv6-public/bio.c:131-137 | The six pointer writes make one ring again, the buffer first. |
| `BufferCache.RingMoved` | project01/xv6-public/bio.c:131-137 | The same on the link fields as sequences, wherever the buffer was, its neighbours and the head included. |
| `BufferCache.OrderedByRelease` | project01/xv6-public/bio.c:120-141 | After any releases the ring, which in every Cache is made by its own history of them, is ordered by last release, the latest first. |
| `BufferCache.VictimReleasedLongestAgo` | project01/xv6-public/bio.c:78-91 | Of the free buffers in a ring so made, the last in it was released longest ago. |
| `BufferCache.Cache.OldestVictim` | project01/xv6-public/bio.c:78-91 | The buffer that bget recycles was released longest ago of all free buffers of this cache. |
| `BufferCache.Cache.SomeFree` | project01/xv6-public/param.h:12 | With fewer pinned and held buffers than NBUF, "no buffers" cannot happen. |
| `Log.LogState.InstallTrans` | project01/xv6-public/log.c:68-82 | The writes are exactly those of the log slots to their home blocks, in order, and the installed buffers are unpinned; the buffers that others read meanwhile stay as they are; with no buffer in use but those of others who only read blocks that commit does not touch, and one to spare for each copy, it completes. |
| `Log.LogState.WriteLog` | project01/xv6-public/log.c:176-190 | The writes are exactly the modified blocks, as readers see them, to the log slots; nothing is unpinned; on the same condition it completes. |
| `Log.LogState.WriteHead` | project01/xv6-public/log.c:98-113 | One write, of the header with the count and the block numbers in memory; it is made if fewer than NBUF buffers are pinned or in use by others. |
| `Log.LogState.ReadHead` | project01/xv6-public/log.c:84-96 | At boot, the list in memory becomes the list of the header on disk, if fewer than NBUF buffers are pinned. |
| `Log.LogState.Commit` | project01/xv6-public/log.c:192-202 | The disk meets exactly the writes of Wal.CommitWrites in order; with no buffer in use but those of others who only read blocks that commit does not touch, and n and these together fewer than NBUF, it completes: the log is empty, nothing is pinned, every home block on disk is what readers saw before, and the others are undisturbed. |
| `Log.LogState.Prepare` | project01/xv6-public/log.c:195-196 | The first half of a commit: the log blocks and then the header are written, no home block is; it completes on the same condition. |
| `Log.LogState.InstallAndClear` | project01/xv6-public/log.c:197-199 | The second half, which recovery shares: the logged blocks are installed and the header is cleared. |
| `Log.LogState.RecoverFromLog` | project01/xv6-public/log.c:115-122 | The disk meets exactly the writes of Wal.RecoverWrites in order; with no buffer in use it completes: every home block holds its logged contents and the log is empty. |
| `Log.LogState.BeginOpOnce` | project01/xv6-public/log.c:129-139 | Admitted exactly if no commit is in progress and the reservation fits. |
| `Log.LogState.LogWrite` | project01/xv6-public/log.c:213-233 | Panics exactly if the list is full or no operation is open; else the block is in the list once and its buffer pinned, nothing of the open transaction is on disk, and every other buffer is as it was. |
| `Log.LogState.EndOp` | project01/xv6-public/log.c:145-174 | The last operation out commits and empties the log, the others only leave; on the same condition it panics exactly if a commit is in progress. |
| `Log.LogState.WriteBlock` | project01/xv6-public/log.c:206-211 | One block of an operation, from bread to brelse: readers see the new contents, the block is in the list once, the disk is unchanged. |
| `Log.LogState.Operation` | project01/xv6-public/log.c:126-233 | A whole operation of up to ten writes, from begin_op to end_op, does not panic while n, its writes and the buffers of others are fewer than NBUF: readers see every write, and if it was the last out, the disk has them and all earlier ones, and the log is empty. |
| `Log.CommitKeepsView` | project01/xv6-public/log.c:176-190 | The writes of a commit turn the disk into what readers of the cache see. |
| `LogProtocol.StepKeeps` | project01/xv6-public/log.c:126-233 | Every atomic step of operations, committer, recovery, cache and power supply keeps the invariant of the logging layer. |
| `LogProtocol.Durability` | project01/xv6-public/log.c:126-233 | Over every interleaving and at any moment: crash, recover with any further crashes, and the home blocks are exactly the effect of the groups committed so far. |
| `LogProtocol.NothingEarly` | project01/xv6-public/bio.c:81-91 | While operations run, no uncommitted home block is on disk, as B_DIRTY buffers are not recycled, and readers see all of the open group. |
| `LogProtocol.GroupsGrow` | project01/xv6-public/log.c:192-202 | A committed group is never taken back. |
| `LogProtocol.NeverStuck` | project01/xv6-public/log.c:146-174 | The "log.committing" panic of line 153 is unreachable, and a boot, recovery or commit can always take its next step. |
| `LogProtocol.NoOverflow` | project01/xv6-public/log.c:129-141 | With at most nine new blocks per operation, lh.n never exceeds 28 and log_write never panics. |
| `LogProtocol.LogSpace` | project01/xv6-public/log.c:214-233 | With a log of LOGSIZE blocks the panic "too big a transaction" is unreachable exactly if no operation adds MAXOPBLOCKS blocks. |
| `LogProtocol.OperationsAreAtomic` | project01/xv6-public/log.c:126-174 | All writes of an operation are in exactly one committed group or none is in any; those of an operation in progress are in none. |
| `LogProtocol.FinishedIsDurable` | project01/xv6-public/log.c:126-174 | Once the machine runs and no operation is active, every operation with writes that no crash has cut off has all of them in exactly one committed group. |
| `LogProtocol.LostByCrash` | project01/xv6-public/log.c:126-174 | Only a crash cuts an operation off. |
| `LogEvents.LastCommittedWriteWins` | project01/xv6-public/log.c:126-233 | By the events of the run alone: after a crash at any moment and any crashes in recovery, a home block holds the data that the last log_write to it was given that is followed by a header write before any crash, or what it held at first if there is none. |
| `LogEvents.ReadersSeeLastWrite` | project01/xv6-public/log.c:213-233 | While operations run, readers of a home block see the data of the last log_write to it, committed or still open. |
| `LogEvents.AllOrNothing` | project01/xv6-public/log.c:126-174 | Of the log_writes of one operation, numbered by the begin_ops, either all are followed by a header write before any crash or none is. |
| `LogEvents.FinishedIsCommitted` | project01/xv6-public/log.c:145-174 | Once no operation is under way and no commit either, every log_write that no crash has followed is committed. |
| `LogEvents.PointClosesGroup` | project01/xv6-public/log.c:192-202 | The group of operations is closed exactly where a header with blocks replaces an empty one on disk, and no operation is under way then. |
| `LogEvents.IssuedIsLogged` | project01/xv6-public/log.c:213-233 | What the machine notes as the writes of an operation are its log_write events, in order and with their own data. |
| `Fs.FileSystem.Balloc` | project01/xv6-public/fs.c:55-78 | Takes the lowest free block, zeroed, and sets its bit alone; panics exactly if no block is free. |
| `Fs.FileSystem.Bfree` | project01/xv6-public/fs.c:80-95 | Clears exactly that bit; "freeing free block" exactly if it was clear. |
| `Fs.FileSystem.Bmap` | project01/xv6-public/fs.c:372-400 | Finds the block of the file, in the inode itself or in the words of the indirect root, allocating only the next one after the last; books stay balanced, other files and the bytes so far stay the same. |
| `Fs.FileSystem.Readi` | project01/xv6-public/fs.c:452-476 | Returns exactly the slice of the file from off, cut at its size, or -1 exactly past the end or if off + n wraps; allocates nothing and changes nothing. |
| `Fs.FileSystem.Writei` | project01/xv6-public/fs.c:481-511 | On success the file is the old one with src spliced in at off, all other files are the same, and every inode in memory equals its copy on disk; -1, with nothing changed, exactly if off is beyond the size or off + n beyond the largest file, though the code tests that in 32 bits; "out of blocks" exactly if the file has to gain more blocks, indirect root included, than are free; the blocks it logs are no more than those of the free map, one per piece, the indirect root and the inode. |
| `Fs.FileSystem.WriteLoop` | project01/xv6-public/fs.c:498-504 | The loop over unaligned pieces, direct and indirect blocks puts the bytes in place; it fails exactly if the free blocks do not suffice. |
| `Fs.FileSystem.WritePart` | project01/xv6-public/fs.c:498-504 | One turn changes exactly its bytes of the file. |
| `Fs.FileSystem.ReadPart` | project01/xv6-public/fs.c:469-474 | One turn copies exactly its bytes. |
| `Fs.FileSystem.Itrunc` | project01/xv6-public/fs.c:407-435 | Clears exactly the bits of the blocks the inode owned, and no "freeing free block" can happen; other files are the same and the file is empty. |
| `Fs.FileSystem.FreeSlot` | project01/xv6-public/fs.c:415-416 | The block of the next slot is in use and nobody else's, so bfree does not panic. |
| `Fs.FileSystem.Iupdate` | project01/xv6-public/fs.c:220-236 | The inode on disk, as decoded from its block, becomes the one in memory; no other inode and no other block changes. |
| `Dinodes.PutGet` | project01/xv6-public/fs.c:226-233 | A dinode written into its slot of an inode block is read back from there, and the other seven keep their words. |
| `Dinodes.WordsBack` | project01/xv6-public/fs.h:29-36 | The sixteen little-endian words of a dinode decode to it, negative type and device numbers included. |
| `Dinodes.Layout` | project01/xv6-public/fs.h:29-36 | On disk the type, the two device numbers and the link count are the four shorts of a slot in this order, then come the size and the thirteen addresses. |
| `Dinodes.DecodePut` | project01/xv6-public/fs.c:220-236 | Of all inodes in the inode blocks exactly the one written changes. |
| `Fs.FileSystem.Ilock` | project01/xv6-public/fs.c:287-312 | Afterwards the inode in memory is the one in its inode block on disk; panics exactly without a reference or for a free inode. |
| `Fs.FileSystem.Iput` | project01/xv6-public/fs.c:331-352 | Drops one reference; frees the inode and all its blocks exactly if it was the last reference to an inode without links. |
| `Fs.WithinBudget` | project01/xv6-public/file.c:126-133 | The blocks that a writei of one piece of filewrite logs are at most nine, and so are those of an iput, on any disk of up to 12288 blocks. |
| `FsSpec.GrowthConserves` | project01/xv6-public/fs.c:372-400 | Giving an empty slot a block that was free keeps every block with at most one owner and the bitmap equal to metadata plus owned blocks. |
| `FsSpec.Release` | project01/xv6-public/fs.c:407-435 | Taking blocks away from one inode and clearing their bits keeps the same books. |
| `FsSpec.GrowthKeepsBytes` | project01/xv6-public/fs.c:372-400 | A newly mapped block leaves the bytes of the file's existing blocks in place. |
| `FsSpec.FreeBlockTaken` | project01/xv6-public/fs.c:66-72 | balloc leaves one free block less. |
| `FsSpec.StoreData` | project01/xv6-public/fs.c:498-504 | Overwriting part of a block changes those bytes of that file alone, for no other slot of any inode holds the block. |
| `FsSpec.WriteFinishes` | project01/xv6-public/fs.c:506-509 | With the size brought up to date, no file has a hole and the write is the splice of the bytes. |
| `FsSpec.SplicedContent` | project01/xv6-public/fs.c:498-511 | Bytes in place one by one amount to the splice of the whole file. |
| `FsSpec.MetaFrameSound` | project01/xv6-public/fs.c:220-236 | Neither soundness nor the contents of any file depend on the blocks below the free map, other than through the inodes. |
| `FsSpec.InodeStored` | project01/xv6-public/fs.c:220-236 | Storing one inode changes the table of inodes in that place alone, and no block that is not an inode block. |
| `FsSpec.InodeFits` | project01/xv6-public/fs.h:29-36 | What writei and itrunc make of an inode fits in a dinode. |
| `Fs.TruncationEnds` | project01/xv6-public/fs.c:407-435 | When all slots have been freed, the rest of the file system is as it was and sound. |
| `FsCrash.CrashConsistency` | project01/xv6-public/log.c:126-233 | Cut the power at any moment of any run on a consistent disk whose committed groups consist of whole calls of writei, itrunc and iput, crash recovery any number of times: the file system found is consistent, and every file holds what the calls of the committed groups have made of it, byte for byte. |
| `FsCrash.GroupsMean` | project01/xv6-public/log.c:192-202 | On the blocks of committed groups as on files: consistency and contents follow the calls, group after group. |
| `FsCrash.CallMeans` | project01/xv6-public/fs.c:407-511 | A call as writei, itrunc and iput perform it on blocks, inodes and free map is a splice, or an emptying, of one byte string. |
| `FsCrash.LogDoesNotMatter` | project01/xv6-public/fs.h:8-20 | Files and books do not depend on the log blocks, whatever a crash leaves there. |
| `KrMalloc.RoomUnlessWrapped` | project01/xv6-public/umalloc.c:69 | The units malloc asks for hold nbytes exactly if nbytes + 7 does not wrap around in 32 bits. |
| `KrMalloc.LargestRequest` | project01/xv6-public/umalloc.c:69 | A request of 2^32 - 1 bytes gets a block without payload. |
| `KrMalloc.SbrkAskedRight` | project01/xv6-public/umalloc.c:54 | sbrk is asked for as many bytes as morecore then uses exactly if nbytes + 7, in 32 bits, is below 2^31 - 8. |
| `KrMalloc.SbrkAskedWrong` | project01/xv6-public/umalloc.c:54 | For a request of 2^31 bytes sbrk is asked for a negative number of bytes. |
| `KrMalloc.OneRing` | project01/xv6-public/umalloc.c:24-44 | The links form one ring: from every element of the list each element is reached. |
| `KrMalloc.Partition` | project01/xv6-public/umalloc.c:24-90 | Free and live blocks partition the space got from sbrk. |
| `KrMalloc.Canonical` | project01/xv6-public/umalloc.c:24-90 | The list is determined by the space and the live blocks: whatever calls led there, in whatever order, blocks, sizes and links are the same. |
| `KrMalloc.MallocMeans` | project01/xv6-public/umalloc.c:63-90 | In plain terms: null only if sbrk refuses and no free block has a header and room for the request; else the fewest units that have, apart from every live block, and the live blocks keep size and contents. |
| `KrMalloc.JoinedRight` | project01/xv6-public/umalloc.c:33-35 | Joining with the next free block keeps the list sound but for the left neighbour. |
| `KrMalloc.JoinedLeft` | project01/xv6-public/umalloc.c:38-42 | Joining with the free block before makes it sound again. |
| `KrMalloc.Heap.Search` | project01/xv6-public/umalloc.c:30-32 | The insertion search ends, at the last element below the block. |
| `KrMalloc.Heap.Free` | project01/xv6-public/umalloc.c:24-44 | The block is in the list, joined to both neighbours it touches; no two free blocks touch; live blocks keep their size and contents. |
| `KrMalloc.Heap.Morecore` | project01/xv6-public/umalloc.c:46-61 | At least 4096 units of new space join the list, so that the request fits; nothing changes if sbrk refuses. |
| `KrMalloc.Heap.Take` | project01/xv6-public/umalloc.c:75-85 | Takes the whole of a block that fits exactly, or the end of a larger one. |
| `KrMalloc.Heap.FindFit` | project01/xv6-public/umalloc.c:74-89 | The loop ends, also after morecore; it uses the first block after freep that fits, and asks sbrk only if none does. |
| `KrMalloc.Heap.Malloc` | project01/xv6-public/umalloc.c:63-90 | Null exactly if nothing fits and sbrk refuses; else a new live block of exactly the units asked for, apart from all live blocks, none of which is moved, resized or written to. |
| `KrMalloc.Heap.Store` | project01/xv6-public/umalloc.c:11-19 | Whatever a program stores in its payloads leaves the heap sound. |
| `Scheduler.Kernel.Scan` | project01/xv6-public/proc.c:383-405 | Finds the leftmost runnable process minimal in level, then priority in L2, then time; none exactly if none is runnable. |
| `Scheduler.Kernel.Dispatch` | project01/xv6-public/proc.c:346-420 | The holder of the scheduler lock if it is runnable while locked, else the choice of the scan; it alone is set running. |
| `Scheduler.Kernel.FinishPass` | project01/xv6-public/proc.c:421-455 | Stamps the process, unlocks for a zombie holder, counts the pass, boosts every slot at 100 and unlocks then. |
| `Scheduler.Kernel.BoostAll` | project01/xv6-public/proc.c:440-445 | Every slot gets level 0, quantum 0, priority 3, time 0, and keeps the rest. |
| `Scheduler.Kernel.SetPriority` | project01/xv6-public/proc.c:459-476 | The first slot with the pid gets the priority, clamped to 0..3. |
| `Scheduler.Kernel.SchedulerLock` | project01/xv6-public/proc.c:484-518 | Locks for the caller and restarts the count, unless locked already; a wrong password makes the caller exit. |
| `Scheduler.Kernel.SchedulerUnlock` | project01/xv6-public/proc.c:520-559 | Unlocks and resets the holder, unless not locked; a wrong password makes the caller exit. |
| `Scheduler.Kernel.ChargeTick` | project01/xv6-public/trap.c:118-137 | Charges the running process for a tick, by the same lookup by pid. |
| `Scheduler.Kernel.SysYield` | project01/xv6-public/sysproc.c:103-113 | The caller gets level 2, quantum 0, priority 3 and the clock; every other slot stays. |
| `Scheduler.Kernel.AllocProc` | project01/xv6-public/proc.c:84-97 | The first unused slot gets a new pid, level 0, priority 3 and the time; nothing changes if there is none. |
| `Scheduler.Kernel.UserInit` | project01/xv6-public/proc.c:126-161 | From the zeroed table, the state that every run starts from. |
| `Scheduler.Kernel.StartChild` | project01/xv6-public/proc.c:210-229 | The child starts runnable in L0. |
| `Scheduler.Kernel.Wakeup1` | project01/xv6-public/proc.c:660-668 | Exactly the sleepers on the channel become runnable. |
| `Scheduler.Kernel.Kill` | project01/xv6-public/proc.c:683-700 | The first slot with the pid is woken if it sleeps; found exactly if a slot has the pid. |
| `SchedSpec.OneChoice` | project01/xv6-public/proc.c:383-405 | The choice is unique. |
| `SchedRuns.ChargedAlone` | project01/xv6-public/trap.c:118-137 | A tick changes only the running process: one tick of quantum, or a level down, or in L2 one priority less, never below 0. |
| `SchedRuns.ChoiceMeans` | project01/xv6-public/proc.c:383-405 | A process is the choice exactly if it is runnable and each other runnable one has a higher level, or in L2 a higher priority number, or a later time, or a later slot. |
| `SchedRuns.YieldStepsDown` | project01/xv6-public/sysproc.c:103-113 | After a turn that ends in yield() the process is in L2 with a new quantum and priority 3, and is not chosen next while a process of L0 or L1 is runnable. |
| `SchedRuns.SleepersWake` | project01/xv6-public/proc.c:655-700 | A sleeper that is not chosen is runnable after a pass exactly if its channel was woken or it was killed meanwhile. |
| `SchedRuns.BoostResets` | project01/xv6-public/proc.c:437-453 | The hundredth pass leaves every slot at level 0, quantum 0, priority 3 and time at most 0, and the scheduler unlocked. |
| `SchedRuns.GrantRestarts` | project01/xv6-public/proc.c:502-507 | A grant of the scheduler lock counts passes anew: 99 more may follow the pass in which it is made. |
| `SchedRuns.PassKeeps` | project01/xv6-public/proc.c:341-456 | Every pass, whatever the process dispatched does, keeps level in 0..2, quantum below 2 * level + 4, priority in 0..3, pids distinct, and the lock held exactly if it has a holder, neither unused, nor embryo, nor zombie. |
| `SchedRuns.Reachable` | project01/xv6-public/proc.c:126-161 | So does every state that a run of the kernel reaches: from userinit on, whose process is runnable in slot 0, by any number of passes. |
| `SchedRuns.FirstProcess` | project01/xv6-public/proc.c:126-161 | What userinit leaves: pid 1 runnable in L0 in slot 0, all other slots unused, the scheduler unlocked. |
| `SchedRuns.ReachedOn` | project01/xv6-public/proc.c:341-456 | A run goes on from any state that another has reached. |
| `SchedRuns.WaitsItsTurn` | project01/xv6-public/proc.c:383-427 | A process runnable since the boost runs within as many passes as there are slots with time at most 0. |
| `SchedRuns.NoStarvation` | project01/xv6-public/proc.c:437-453 | After a boost every runnable process is dispatched within NPROC passes, if nobody takes the scheduler lock and ticks is in 1..2^31-1. |
| `SchedRuns.NeverStarves` | project01/xv6-public/proc.c:341-456 | From any reachable state, under the same conditions, within 100 + NPROC passes. |
| `SchedRuns.OnlyHolderRuns` | project01/xv6-public/proc.c:351-379 | While locked, only the holder is dispatched. |
| `SchedRuns.LockEnds` | project01/xv6-public/proc.c:430-453 | Every lock ends within 100 passes, whatever its holder does, sleeping and exiting included. |
| `SchedRuns.InEveryRun` | project01/xv6-public/proc.c:341-456 | At any point of any run from boot, 164 passes later the bounds hold, a lock held then is over, and who was runnable has run unless somebody took the lock. |
| `SchedRuns.TimeoutPutsHolderFirst` | project01/xv6-public/proc.c:447-453 | A holder whose lock times out is chosen next exactly if it is runnable. |
| `SchedRuns.OwnUnlock` | project01/xv6-public/proc.c:538-545 | In every reachable state, whatever happens in the turn in which the lock is given up, however that turn ends and whatever interrupts follow, as long as it leaves the process in L0 and this is not the boosting pass: the process is chosen next exactly if it is runnable and no runnable process of L0 has an earlier time than its stamp, or the same in an earlier slot. |
| `SchedRuns.OwnUnlockBoosted` | project01/xv6-public/proc.c:433-453 | If that pass is the boosting one, whatever the level: the process is chosen next exactly if it is the leftmost runnable one. |
| `SchedRuns.OwnUnlockNotFirst` | project01/xv6-public/proc.c:538-545 | In the first pass after boot the first process forks, locks, unlocks and is preempted by the next tick; its child is chosen. |
| `SchedRuns.PreemptedInL0` | project01/xv6-public/trap.c:118-139 | A process that is preempted with its level still 0 and less than a full quantum is in that case. |
| `SleepLocks.NextKeeps` | project01/xv6-public/proc.c:620-700 | Every step of acquire, release, sleep, wakeup, kill and the scheduler keeps the invariant. |
| `SleepLocks.NoneEntering` | project01/xv6-public/proc.c:637-645 | While wakeup1 runs, nobody is between testing the lock and SLEEPING, for both spin-locks are held. |
| `SleepLocks.MutualExclusion` | project01/xv6-public/sleeplock.c:22-42 | For any number of processes, at most one is between acquiresleep and releasesleep of a lock. |
| `SleepLocks.NoLostWakeup` | project01/xv6-public/sleeplock.c:22-42 | Nobody is SLEEPING on a lock whose spin-lock is free and which is not locked, kill included. |
| `SleepLocks.WokenExactly` | project01/xv6-public/proc.c:660-700 | A sleeper becomes runnable exactly when wakeup1, called for its own lock, or a kill of it comes to its slot. |
| `SleepLocks.HoldingsleepIsRight` | project01/xv6-public/sleeplock.c:44-53 | holdingsleep answers 1 exactly to the holder. |
| `SleepLocks.NoSpinlockPanic` | project01/xv6-public/spinlock.c:24-68 | The panics of acquire and release are unreachable in these calls. |
| `SleepLocks.NoDeadlock` | project01/xv6-public/proc.c:620-700 | While any call is under way and not asleep, somebody can take a step. |
| `SleepLocks.SleepersWaitForHolders` | project01/xv6-public/sleeplock.c:22-42 | When nobody can move, every sleeper waits for a lock that some process holds between calls. |
| `Pipes.Pipe.constructor` | project01/xv6-public/pipe.c:33-36 | A new pipe is empty and open at both ends. |
| `Pipes.Pipe.Put` | project01/xv6-public/pipe.c:93 | Stores one byte where byte number nwrite belongs, also when the 32-bit counter wraps. |
| `Pipes.Pipe.Get` | project01/xv6-public/pipe.c:116 | Takes the oldest byte, also when the counter wraps. |
| `Pipes.Pipe.Write` | project01/xv6-public/pipe.c:83-97 | Until it sleeps or returns, stores as many bytes as are left or there is room for, whichever is fewer; -1 exactly if bytes are left and the readers are gone or the caller killed. |
| `Pipes.Pipe.Read` | project01/xv6-public/pipe.c:105-120 | Returns the oldest bytes, the smaller of n and what there is; on an empty pipe with the write end open it fails exactly if killed and sleeps otherwise. |
| `Pipes.Pipe.Close` | project01/xv6-public/pipe.c:59-75 | Closes one end; the pipe is freed exactly if both are closed. |
| `Pipes.Counters` | project01/xv6-public/pipe.c:85-116 | The tests for full and empty on wrapped counters are right, for 512 divides 2^32. |
| `PipeSpec.NextKeeps` | project01/xv6-public/pipe.c:77-121 | In every run delivered is a prefix of stored, at most PIPESIZE behind. |
| `PipeSpec.EmptyReadIsEof` | project01/xv6-public/pipe.c:106-121 | A positive-length read returns 0 exactly if everything has been delivered and the write end is closed. |
| `PipeSpec.StrandedExactly` | project01/xv6-public/pipe.c:85-97 | Exactly which steps leave a reader asleep on a pipe with bytes: a killed writer that has more than a pipeful left. |
| `PipeSpec.ReaderStranded` | project01/xv6-public/pipe.c:85-90 | A run with one kill that ends with a reader asleep on a full pipe. |
| `PipeSpec.KillFree` | project01/xv6-public/pipe.c:77-121 | In runs without kill no reader sleeps on a pipe with bytes. |
| `PipeSpec.WritersAwake` | project01/xv6-public/pipe.c:77-121 | In every run a sleeping writer has a full pipe and open readers. |
| `PipeSpec.KillWakes` | project01/xv6-public/pipe.c:85-112 | In every run no killed process sleeps in the pipe. |
| `Grep.MatchHere` | project01/xv6-public/grep.c:84-96 | 1 exactly if a prefix of the text is in the language of the pattern, all of it if the pattern ends in $. |
| `Grep.MatchStar` | project01/xv6-public/grep.c:98-106 | 1 exactly if some run of c and then the pattern is a prefix of the text. |
| `Grep.Match` | project01/xv6-public/grep.c:72-82 | 1 exactly if some part of the text, from its beginning after ^, is in the language of the pattern. |
| `Grep.StarFrom` | project01/xv6-public/grep.c:89-90 | A starred item is a run of characters equal to it, or of any for a dot, of any length, followed by the rest. |
| `Grep.OneFrom` | project01/xv6-public/grep.c:93-94 | A single item is one character, equal to it or any for a dot, followed by the rest. |
| `Grep.EmptyFrom` | project01/xv6-public/grep.c:87-92 | An empty pattern matches anything, $ alone exactly the end of the text. |
| `GrepLines.GrepFile` | project01/xv6-public/grep.c:10-36 | Prints exactly the matching ones of the lines the loop sees, in order. |
| `GrepLines.GrepBuffer` | project01/xv6-public/grep.c:19-34 | The inner loop handles exactly the complete lines of the buffer and keeps the rest, or drops a buffer without newline. |
| `GrepLines.LinesMakeText` | project01/xv6-public/grep.c:19-25 | The lines of a text, each with its newline, and the rest make up the text, and none has a newline inside. |
| `GrepLines.SeesAllExactly` | project01/xv6-public/grep.c:17-35 | The lines seen are the complete lines of the file exactly if every piece that read returns has a newline, up to the last newline. |
| `GrepLines.LineLost` | project01/xv6-public/grep.c:29-30 | The line abc, read as "ab" and "c", is seen as c. |
| `GrepLines.RegularFileSeen` | project01/xv6-public/grep.c:17-35 | When read fills the buffer, as for a regular file, every line is seen exactly if no line that ends in a newline is longer than 1022 characters. |
| `Vm.Memory.Kalloc` | project01/xv6-public/kalloc.c:82-95 | Takes the page last freed; nothing exactly if none is free. |
| `Vm.Memory.Kfree` | project01/xv6-public/kalloc.c:59-77 | Fills the page with junk and puts it first; panics exactly for a page that is not kalloc's. |
| `Vm.Memory.FreeRange` | project01/xv6-public/kalloc.c:46-53 | Exactly the pages of the range become free. |
| `Vm.Memory.WalkPgDir` | project01/xv6-public/vm.c:35-55 | Finds the page table of an address; a new one is a zeroed page from the free list, in an entry with the flags P, W and U, and changes no mapping. |
| `Vm.Memory.MapPages` | project01/xv6-public/vm.c:60-80 | Exactly the pages of the range are mapped, with these flags, or on failure a first part of them; other address spaces are untouched; free pages become the missing page tables one for one, and memory runs out only with the free list empty and fewer tables than needed. |
| `Vm.Memory.SetupKvm` | project01/xv6-public/vm.c:117-136 | A new directory that maps page KERNBASE + f to f for all physical memory, read-only exactly for kernel text, and the devices to themselves, with nothing else and nothing for user code; it takes 65 free pages and fails exactly if there are fewer, with the free set then what it was. |
| `Vm.KMapFresh` | project01/xv6-public/vm.c:105-115 | The kernel's ranges do not overlap and lie above KERNBASE, so "remap" cannot happen. |
| `Vm.KernelEntry` | project01/xv6-public/vm.c:105-115 | What the four lines of kmap come to, entry by entry. |
| `Vm.Memory.DeallocUvm` | project01/xv6-public/vm.c:255-279 | Unmaps and frees exactly the present pages that begin at newsz or above and below oldsz, as a page-by-page loop would; the skip terminates. |
| `Vm.Skipped` | project01/xv6-public/vm.c:267-268 | The pages that the skip jumps over are not present. |
| `Vm.Memory.AllocUvm` | project01/xv6-public/vm.c:221-249 | Maps a zeroed page for every page of the growth and changes nothing else; a growth below KERNBASE fails exactly if the free pages are fewer than the pages plus the missing page tables, and then every mapping is as before and every user page given back; at or above KERNBASE, or when shrinking, nothing changes. |
| `Vm.Memory.FreeVm` | project01/xv6-public/vm.c:283-298 | The directory, its tables and its user pages are free again, everything else is untouched. |
| `Vm.Memory.CopyUvm` | project01/xv6-public/vm.c:315-345 | The child maps equal contents with equal flags on pages of its own; it runs out of memory exactly if fewer are free than the kernel part, the tables and the pages need, and the free set is then what it was; the parent is untouched; panics only if the parent lacks a page. |
| `Vm.OneMoreCopied` | project01/xv6-public/vm.c:325-338 | One turn of the loop adds one page to the copy and keeps those before. |
| `Vm.CopyNeeds` | project01/xv6-public/vm.c:315-345 | The kernel part and n user pages need 64 tables and one more for every 1024 of the pages. |
| `Vm.KernelTablesSize` | project01/xv6-public/vm.c:105-136 | The kernel mappings lie in exactly 64 page tables. |
| `VmSpec.Give` | project01/xv6-public/kalloc.c:82-95 | A page in hand gets its one use: every page stays free, in hand, or used for one thing by one directory. |
| `VmSpec.GiveTab` | project01/xv6-public/vm.c:45-52 | A zeroed page becomes a page table: the books balance and no mapping changes. |
| `VmSpec.SetPte` | project01/xv6-public/vm.c:71-73 | Writing an entry changes what that one page maps to, for no two directories share a table. |
| `VmSpec.FreePage` | project01/xv6-public/vm.c:269-275 | kfree and clearing the entry take one page from one address space to the free list, and no table is hit by the junk. |
| `VmSpec.GiveUpDir` | project01/xv6-public/vm.c:290-297 | A directory without user pages owns itself and its tables, no more. |
| `VmSpec.SameFree` | project01/xv6-public/vm.c:117-136 | What is free follows from what is held, so an operation that restores the holdings restores the free set. |
| `VmSpec.CannotPay` | project01/xv6-public/vm.c:221-345 | If memory runs out before n pages are mapped, the free pages at the start were fewer than these and the missing tables. |

## Left out

- Log.LogState.LogWrite: one atomic step, as log.lock makes it; the interleaving is that of LogProtocol.
- Log.LogState.Commit: others only read meanwhile, and not the blocks that commit copies, for whose sleep-locks it would wait; completion is promised while n and their buffers together are fewer than NBUF.
- Log.LogState.EndOp: likewise, for the last operation out.
- Log.LogState.Operation: the blocks it writes are in nobody else's hands, for whose sleep-locks it would wait; begin_op's wait is left out.
- Log.LogState.ReadHead: at boot, when nobody else runs.
- Log.LogState.RecoverFromLog: likewise.
- LogProtocol.LogSpace: for the log that mkfs lays out and a disk with LOGSIZE home blocks; Fs.WithinBudget meets the budget for writei and iput, the system calls on directories are not modelled.
- BufferCache.Cache.Bget: the wait for a buffer's sleep-lock is left out, the caller finds it unlocked; SleepLocks has the waiting.
- BufferCache.Cache.Bread: likewise.
- BufferCache.Cache.Brelse: a buffer that was changed is released only after bwrite or log_write, as every caller does; the C code does not check.
- Scheduler.Kernel.SchedulerUnlock: a locked scheduler has a holder, which SchedRuns.PassKeeps proves of every state between passes and SchedRuns.DoKeeps of every state within.
- Fs.FileSystem.Writei: the state after the panic "balloc: out of blocks" is not described, as the kernel stops there.
- Fs.FileSystem.Bmap: a block beyond the next one after the last is not asked for, which would leave a hole; readi and writei never do, as the file has none and off is at most its size.
- FsCrash.CrashConsistency: that calls of concurrent operations amount to whole calls one after the other, for which inode and buffer locks are there, is assumed of the groups; directories and ialloc are not among the calls.
- Fs.FileSystem.Ilock: the inode's sleep-lock is not taken; a file system call works on its inodes alone.
- KrMalloc.Heap.Malloc: sbrk answers with new memory for `nu * 8` bytes, or refuses; what happens to the heap for the sizes that KrMalloc.SbrkAskedRight excludes is not modelled, nor are pointers that were not allocated.
- KrMalloc.Heap.Morecore: likewise.
- Scheduler.Kernel.Kill: the killed flag is not modelled; a process that notices it exits, which is an event of its turn.
- KrMalloc.Heap.Free: the block must be live, as the C code trusts its caller.
- SchedRuns.NoStarvation: on one CPU, as `bootxv6.sh` runs the kernel; the accounting in trap without the table lock is not safe on several.
- SchedRuns.PassKeeps: pids do not wrap; parents are not tracked, so any process may reap any zombie; interrupts in the gap that the scheduler leaves between release and acquire are moved to the start of the next pass, as they touch nothing it writes there.
- SchedRuns.LockEnds: a lock granted anew is a new lock, with its own 100 passes.
- SleepLocks.MutualExclusion: only a holder releases a sleep-lock, as brelse and iunlock check; killed flags, deadlock between processes that hold several locks, and the choice of the scheduler are left out.
- PipeSpec.StrandedExactly: a stay under the pipe's lock is one step, which sleep and wakeup make sound as SleepLocks shows; an end in use is not closed, as the caller holds its file.
- GrepLines.GrepFile: the file has no NUL bytes; read returns no more than the buffer holds.
- Vm.Memory.AllocUvm: pages above the process's size must not be mapped yet, else "remap" is possible; pages taken for page tables stay with the directory after a failure.
- Vm.Memory.MapPages: user pages are mapped one at a time, to a page just taken from kalloc, as all callers do; kernel ranges are whole pages.
- Vm.Memory.CopyUvm: the state after its panics is not described.
- Vm.Memory.Kalloc: the free list is a sequence, not links stored in the free pages; addresses are page numbers.
- Vm.Memory.DeallocUvm: an old size above KERNBASE, for which the skip can wrap, is passed by no caller and not modelled.
- Directories, path lookup, file descriptors, exec, the shell: no rule harder than those of the layers below.
- loaduvm, inituvm, copyout, clearpteu, growproc: short uses of the page tables modelled here.
- ialloc, iget and the inode cache's slots: a search for a free slot.
- Drivers, traps other than the timer's, context switches, assembly: hardware effects; a dispatched process is any sequence of allowed events.
- project02: its log, file system, cache, allocator, pipe, grep and page tables are the same code; its threads are not modelled.
- mkfs: only its layout and its hole-free image, as assumptions on the disk.
