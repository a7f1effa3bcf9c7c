# ElephantOS: a model of the kernel's memory manager, locks and file system

ElephantOS is a small i386 teaching kernel. This project models four of its parts and proves what they keep:

- **Scheduler, semaphores and re-entrant locks** (`Threads`, `ThreadSafety`, `Fairness`, `LockCalls`): a step relation over any
  number of threads and locks. A step is one statement, or one block that runs with interrupts off; wherever interrupts
  are on, a timer or device interrupt may come. The theorems are about every run, so about every interleaving.
- **Memory manager** (`Bitmaps`, `Lists`, `Paging`, `Pages`, `Arenas`, `Heaps`, `HeapRuns`, `FreeLists`): bits in bytes,
  intrusive lists, two-level paging through the self-mapped directory, page allocation, and the arena heap on
  top of it. The layers are proved to agree, over every run of `sys_malloc` and `sys_free`.
- **File system** (`Disks`, `InodeTable`, `OpenInodes`, `Volumes`, `Files`, `FileReads`, `Releases`, `Entries`, `DirSlots`,
  `Dirs`, `DirInserts`, `DirDeletes`, `FileSystems`): the disk is a map from sector numbers to 512 bytes. Inode
  records, indirect tables and directory slots are modelled down to the byte. A file is shown to be a
  sequence of bytes and a directory a map from names to entries.
- **Paths and the system calls** (`Paths`, `Walks`, `WorkingDirs`, `Trees`, `Worlds`, `NewDirs`, `Mounts`, `Positions`,
  `SysCalls`, `Runs`, `Formats`, `FormatRuns`): splitting and printing of paths, `search_file`, `sys_getcwd`, and
  `sys_open`, `sys_close`, `sys_read`, `sys_write`, `sys_lseek`, `sys_mkdir`, `sys_unlink` and `sys_rmdir`, with an
  invariant over every run of these calls on a partition that was formatted and mounted. The invariant
  (`Worlds.Intact`, `Mounts.Live`) ties the blocks, the bitmap in memory and on the disk, the directory tree, the inode
  table on the disk, the list of open inodes and the table of open files together, so that `inode_open` gives the inode
  in use, whether it finds an object in the list or reads the record. Each run is also shown to refine one of a simple
  file system, whose state is a directory tree, a map from files to bytes and the table of open files.

An `ASSERT` that fails and a buffer that is overrun are outcomes of the model (`Panic`, `Overrun`, `Damaged`, `Stopped`,
or an `ok` that is false), and the contracts say when they can happen. Where a promise of the code or of its comments
is not kept, the model does what the code does, a lemma names an input, and an if-and-only-if states when the promise
holds:

- `bitmap_scan` tests the bit behind the map, so that a run may end there: `Bitmaps.ScanOverruns`.
- The loader gives directory entries 0 and 768 the same page table, so mapping a kernel heap page also maps a low
  page: `Paging.WritePteExact`, `Paging.BootAlias`.
- `inode_sync` narrows the inode number to eight bits, so inode 256 is written over the record of the root, and from
  then on the inode table is wrong: `InodeTable.RoundTripIff`, `InodeTable.RecordedTwo`, `Worlds.RecordsGrow`.
- `file_write` stops the kernel instead of filling a file to 71680 bytes, and `file_read` stops it on the last
  block that `file_write` can fill: `Files.FileWrite`, `FileReads.FileRead`.
- A name of 16 bytes is not terminated: `DirSlots.MakeEntryName`.
- `sync_dir_entry` writes behind `i_sectors` when all twelve direct blocks are full: `DirInserts.SyncDirEntry`.
- `path_depth_cnt` reads a buffer that nobody initialised, and overruns it for a component of more than 16 bytes:
  `Paths.PathDepthCnt`.
- `search_file` returns a number that was never set for a path of slashes only, and overruns its buffer for a component
  of 16 bytes or more, if it comes that far: `Walks.SearchFile`.
- `sys_getcwd` accepts a path that fills the buffer, and writes its terminator behind it: `WorkingDirs.Getcwd`.
- `sys_rmdir` of an empty directory by a path that ends in `.` releases the inode and leaves the entry behind, and then
  the directories on the disk are no tree any more: `SysCalls.SysRmdir`, `SysCalls.DotPath`,
  `SysCalls.MkdirThenRmdirDot`.
- `sys_open` of an existing file never closes the file's parent directory, and `inode_release` leaves an open object in
  the list. `sys_rmdir` of a directory that was left open so leaves an object behind that `inode_open` gives to the
  next inode with the number: `SysCalls.SysOpen`, `OpenInodes.ReleaseKeepsIff`, `SysCalls.SysRmdir`, `Runs.StaleRun`.
- `file_write` does not sync the bit of a new indirect table, which is then free on the disk if the next block is in
  another sector of the bitmap: `Volumes.TableBitLost`. All other bits agree in every run: `Files.DataOnDisk`,
  `Files.FreeOnDisk`.
- `partition_format` clears one bit too many at the end of the block bitmap, which offers a sector behind the
  partition: `Formats.OneBlockTooMany`.

## Model

| member | source | states |
|---|---|---|
| `ThreadSafety.StepKeeps` | thread/sync.c:23-90 | every step of any thread keeps the invariant, and an assertion of the two files fails if and only if `lock_release` is called by a thread that does not hold the lock |
| `ThreadSafety.RunKeeps` | thread/sync.c:23-90 | in every run the invariant holds in each state, and a panic can only follow a misused `lock_release` |
| `ThreadSafety.RunSafe` | thread/thread.c:132-212 | in every reachable state: at most one thread is inside a lock, the holder and the repeat count are those of the thread inside, wherever it is outside the code of that lock, the semaphore is 0 or 1 and is 1 exactly if nobody is inside, with the value 1 and waiters some thread is about to test again (no lost wake-up), every thread is in exactly one place, and with an empty ready list the idle thread runs or is blocked |
| `ThreadSafety.NoPanic` | thread/sync.c:79-90 | no assertion fails in a run whose clients release only what they hold |
| `ThreadSafety.ExactlyOnePlace` | thread/thread.c:141-200 | a thread is running, or once in the ready list, or once in one queue of waiters, or blocked elsewhere, and only one of these |
| `ThreadSafety.ScheduleMoves` | thread/thread.c:141-172 | `schedule` always finds a thread: no pop of an empty list, no failing assertion in `thread_unblock`, and only queues and status words change; which thread runs is stated by `Fairness.StepTurn` |
| `ThreadSafety.PlainStepKeeps` | thread/sync.c:64-90 | the statements of `lock_acquire` and `lock_release` between which interrupts are on keep the invariant |
| `ThreadSafety.SemaDownKeeps` | thread/sync.c:23-43 | one turn of the loop of `sema_down`, taken or blocked, keeps the invariant and fails no assertion |
| `ThreadSafety.UpKeeps` | thread/sync.c:46-61 | `sema_up` wakes the first waiter, keeps the invariant and fails no assertion |
| `ThreadSafety.YieldKeeps` | thread/thread.c:203-212 | `thread_yield` keeps the invariant; who runs then is stated by `Fairness.NextInLine` |
| `ThreadSafety.StartKeeps` | thread/thread.c:97-113 | `thread_start` keeps the invariant |
| `Fairness.StepTurn` | thread/thread.c:132-212 | for every step: if the thread gives up the processor the first of the ready list runs, behind which it is put itself if it stays ready, or the idle thread if the list is empty; otherwise it goes on, a thread that is woken goes to the head of the list, and a new one to its end |
| `Fairness.NextInLine` | thread/thread.c:141-212 | on a tick or a yield with threads ready, the first of them runs and the thread that ran is the last |
| `Fairness.WokenFirst` | thread/thread.c:188-200 | a thread that `sema_up` or `thread_unblock` wakes is the head of the ready list |
| `Fairness.StepShifts` | thread/thread.c:132-212 | a ready thread moves one place forward with every switch, one back with every wake-up, and not otherwise |
| `Fairness.WaitsBounded` | thread/thread.c:132-212 | over any part of any run in which it does not run, its place is the old one less the switches plus the wake-ups, so there are no more switches than that |
| `Fairness.TurnComes` | thread/thread.c:132-212 | the thread at place k of the ready list runs after k + 1 switches with no other step between |
| `Fairness.StepQueue` | thread/sync.c:23-60 | the waiters of a lock are a queue: only `sema_down` on a taken lock appends the running thread, only `sema_up` takes the first out |
| `Fairness.FirstServed` | thread/sync.c:23-60 | of two waiters the one that came first is woken first, over every step |
| `LockCalls.AcquireFree` | thread/sync.c:64-75 | `lock_acquire` of a free lock returns with the lock taken once by the thread, and nothing else has changed |
| `LockCalls.AcquireHeld` | thread/sync.c:64-75 | of a lock that the thread holds it returns with the count one higher |
| `LockCalls.AcquireTaken` | thread/sync.c:23-43 | of a lock that another thread holds it blocks the thread behind all others that wait, and the first ready thread runs |
| `LockCalls.ReleaseInner` | thread/sync.c:79-90 | `lock_release` of a lock that was taken more than once returns with the count one lower |
| `LockCalls.ReleaseLast` | thread/sync.c:46-90 | of a lock that was taken once it returns with the lock free and the first that waits at the head of the ready list |
| `LockCalls.Resumes` | thread/thread.c:176-185 | a thread that was woken from `thread_block` returns from it |
| `Bitmaps.Bitmap.Set` | lib/kernel/bitmap.c:76-90 | one bit of the map is set or cleared, every other bit stays |
| `Bitmaps.Bitmap.Scan` | lib/kernel/bitmap.c:25-72 | the byte-then-bit search with its restarting counter is first fit on the map and the bit behind it; a panic exactly if no bit of the map is clear |
| `Bitmaps.FirstFit` | lib/kernel/bitmap.c:24-25 | the least start of cnt clear bits, or none if there is none |
| `Bitmaps.GuardedScan` | lib/kernel/bitmap.c:48-71 | with the bit behind the map set, the answer is first fit on the map alone |
| `Bitmaps.ScanOverruns` | lib/kernel/bitmap.c:48-71 | the answer ends behind the map if and only if the map has no run and ends, with the next bit, in cnt clear bits |
| `Bitmaps.OverrunExample` | lib/kernel/bitmap.c:48-71 | a map of one byte for which it does |
| `Lists.List.constructor` | lib/kernel/list.c:5-11 | an empty, valid list between two sentinels |
| `Lists.List.InsertBefore` | lib/kernel/list.c:14-29 | links stay mutually inverse and acyclic; the element is inserted in the sequence |
| `Lists.List.Push` | lib/kernel/list.c:32-35 | the sequence gets the element in front |
| `Lists.List.Append` | lib/kernel/list.c:38-41 | the sequence gets the element at the end |
| `Lists.List.Remove` | lib/kernel/list.c:44-52 | the element leaves the sequence, the rest keeps its order |
| `Lists.List.Pop` | lib/kernel/list.c:55-60 | first element and rest are the old sequence |
| `Lists.List.Find` | lib/kernel/list.c:63-73 | terminates; true exactly for the elements |
| `Lists.List.Len` | lib/kernel/list.c:101-110 | terminates with the length |
| `Lists.List.Empty` | lib/kernel/list.c:113-115 | true exactly for the empty sequence |
| `Paging.PdePtrHits` | kernel/memory.c:244-251 | an MMU walk of `pde_ptr(v)` lands on the directory entry of v, for every v |
| `Paging.PtePtrHits` | kernel/memory.c:230-241 | an MMU walk of `pte_ptr(v)` lands on the table entry of v if there is a table, and faults otherwise |
| `Paging.WritePte` | kernel/memory.c:286-292 | writing a table entry changes the translation of the pages that share the word, and of no other |
| `Paging.WritePteExact` | kernel/memory.c:270-319 | every other translation is unchanged if and only if no other directory entry uses the table |
| `Paging.BootAlias` | boot/loader.S:340-355 | the loader's tables break it: mapping page 0xc0100 also maps page 0x100 |
| `Pages.Vm.constructor` | kernel/memory.c:584-667 | the pools and the kernel space start empty and agree with the loader's page tables |
| `Pages.NewProcess` | userprog/process.c:118-158 | a new process has a valid, empty address space with a clear user bitmap, and the kernel's pools |
| `Pages.CreatePageDir` | userprog/process.c:92-114 | the new directory shares the kernel's tables, maps itself, has no user table, and no other frame is written |
| `Pages.FirstProcess` | userprog/process.c:137-158 | a machine that has just booted can have such a process, with free user pages |
| `Pages.Vm.Palloc` | kernel/memory.c:258-266 | the first free frame of the pool is marked; none exactly if the pool is full |
| `Pages.Vm.PageTableAdd` | kernel/memory.c:270-319 | the table entry of v is the frame times 4096 plus 7, and so is the directory entry of a table that had to be made and cleared: v is translated to the frame for user and supervisor, read and write; every other translation is unchanged, but for pages that share the word, which none above 4 MB does; fails exactly if v is mapped already or no frame is left for a table |
| `Pages.Vm.VaddrGet` | kernel/memory.c:189-225 | the first run of cnt clear bits is set, nothing else; NULL changes nothing |
| `Pages.Vm.AddrV2P` | kernel/memory.c:386-392 | the physical address is the frame of v plus the offset |
| `Pages.Vm.MallocPage` | kernel/memory.c:396-424 | cnt pages, found first fit, get distinct frames of their pool, and a write in user mode to each of them reaches its frame; a heap page's bit stays set exactly if its entry is present; no other page changes |
| `Pages.Vm.Pfree` | kernel/memory.c:429-442 | the frame returns to the pool that its address belongs to |
| `Pages.Vm.MfreePage` | kernel/memory.c:474-529 | the pages are unmapped, their frames and bits are free again, each in the pool it came from |
| `Pages.BooksDetermined` | kernel/memory.c:396-529 | for equal mappings both spaces and the user pool are equal, and the kernel pool is equal but for the frames of the tables that were added; all bitmaps are equal if none was |
| `Pages.MallocThenFree` | kernel/memory.c:396-529 | for the kernel and for a process, `mfree_page` undoes `malloc_page` on the mapping and on all four bitmaps, up to the frames of the kernel pool that hold the page tables that were added; for the kernel there are none |
| `Arenas.BlockInArena` | kernel/memory.c:64-74 | `block2arena` undoes `arena2block`, and the block lies inside the arena's page |
| `Arenas.LiveDisjoint` | kernel/memory.c:78-182 | regions handed out and not yet freed do not overlap |
| `Arenas.ArenaHasLive` | kernel/memory.c:567-575 | every mapped arena has a live block: no wholly free arena stays mapped |
| `Arenas.GrownSound` | kernel/memory.c:146-170 | splitting a new arena keeps lists and counters in agreement |
| `Arenas.TakenSound` | kernel/memory.c:172-178 | taking the first block of a list keeps them in agreement |
| `Arenas.GivenSound` | kernel/memory.c:562-567 | giving a block back keeps them in agreement |
| `Arenas.DroppedSound` | kernel/memory.c:567-575 | sweeping a wholly free arena's blocks out of its list keeps them in agreement |
| `Heaps.Split` | kernel/memory.c:161-169 | the loop lists every block of the new arena once |
| `Heaps.Sweep` | kernel/memory.c:568-573 | the loop takes exactly the blocks of the arena out of the list, and the others keep their order |
| `Heaps.Fit` | kernel/memory.c:134-142 | the smallest block size that is large enough |
| `Heaps.Manager.constructor` | kernel/memory.c:47-61 | the heap starts with empty lists |
| `Heaps.Manager.Malloc` | kernel/memory.c:78-182 | a pointer that was not live; for up to 1024 bytes its extent is the least of 16, 32, ..., 1024 that holds the size, and the block is the first of that list if there is one; above, the extent is the least 4096 k - 12 that holds it; other live pointers keep their extent; lists hold exactly the free blocks once each, counters count them; NULL only for a size out of range or a space without a long enough run, and then nothing changes; a panic only for 3840 pages or more, or if a space or a pool is exhausted |
| `Heaps.Manager.Free` | kernel/memory.c:533-579 | the pointer is live no more, the others keep their extent, the block goes to the end of its list unless its arena is given back, and the invariant holds again |
| `Heaps.FreeingAllRestores` | kernel/memory.c:533-579 | with nothing live, no arena is mapped, all lists are empty, and the mapping and the bitmaps, for the kernel and for a process, are those from before the first call, up to the frames of added page tables |
| `HeapRuns.Run` | kernel/memory.c:78-182 | any sequence of requests keeps the heap's invariant, or is stopped by a request for memory with nothing left in a space or a pool, or for 3840 pages or more |
| `HeapRuns.RunAndFreeAll` | kernel/memory.c:533-579 | after any such run, freeing what is live restores lists, mapping and bitmaps in the same sense |
| `HeapRuns.ProcessRun` | kernel/memory.c:533-579 | there is such a run for a process on a machine that has just booted |
| `HeapRuns.HeldApart` | kernel/memory.c:78-182 | in every such state the live regions are disjoint |
| `HeapRuns.FreedComesLast` | kernel/memory.c:78-579 | first in, first out over calls: a block that was freed is given again after all that were free before it |
| `FreeLists.TakeBlock` | kernel/memory.c:172-178 | `list_pop` on the linked list of free blocks takes the block that the sequence of the heap has first |
| `FreeLists.GiveBlock` | kernel/memory.c:562-567 | `list_append` adds the block where the sequence has it |
| `FreeLists.SplitBlocks` | kernel/memory.c:161-169 | the loop over a new arena links its blocks in order |
| `FreeLists.TakeOut` | kernel/memory.c:568-573 | `elem_find` finds the block and `list_remove` takes it out of list and sequence |
| `InodeTable.RecordsFit` | fs/inode.c:21-40 | all 4096 records lie in the 608 sectors, none overlap, and `two_sec` is set exactly for those that straddle |
| `InodeTable.Overwrite` | fs/inode.c:57-73 | the read-modify-write of one or two sectors changes one record and no other byte of the table |
| `InodeTable.InodeSync` | fs/inode.c:43-74 | record (number mod 256) becomes the inode; every other record and sector stays |
| `InodeTable.InodeDelete` | fs/inode.c:147-169 | the record becomes zeros; every other record and sector stays |
| `InodeTable.InodeLoad` | fs/inode.c:90-124 | the inode is the record's, also across a sector boundary |
| `InodeTable.SyncThenOpen` | fs/inode.c:43-126 | below number 256, an inode synced and opened again is the same |
| `InodeTable.SyncClears` | fs/inode.c:51-57 | open count, write lock and list links are zero on the disk |
| `InodeTable.RoundTripIff` | fs/inode.c:43-52 | a changed inode survives sync and open if and only if its number is below 256; otherwise another record is overwritten |
| `InodeTable.RecordedTwo` | fs/inode.c:43-74 | after one inode was changed and one is new, and both were synced, the table is right for all inodes in use if and only if the new number is below 256 |
| `InodeTable.RecordedSynced` | fs/inode.c:43-74 | a changed inode that was synced leaves the table right |
| `InodeTable.RecordedGone` | fs/inode.c:147-169 | and so does one that was synced together with one that was deleted |
| `OpenInodes.InodeOpen` | fs/inode.c:77-126 | the first object in the list with the number, or else a new one from the record; while every object in the list is that of an inode in use, and the table is right, the result is the inode in use |
| `OpenInodes.InodeClose` | fs/inode.c:129-144 | one opening less, and the object leaves the list with the last |
| `OpenInodes.OpenThenClose` | fs/inode.c:77-144 | `inode_close` undoes `inode_open`, to the order of the list |
| `OpenInodes.ReleaseKeepsIff` | fs/inode.c:172-226 | after `inode_release` every object in the list is that of an inode in use if and only if the released inode was not open |
| `OpenInodes.StaleOpens` | fs/inode.c:79-88 | otherwise `inode_open` gives the released object for the inode that has the number now |
| `Disks.WordsOfEncode` | fs/file.c:359-368 | words stored in a sector read back as the same words |
| `Volumes.Reassign` | fs/file.c:64-72 | if exactly the bits of the blocks that change hands change, no block has two owners and the bitmap still marks the owned blocks |
| `Volumes.CommitGrowth` | fs/file.c:256-384 | an inode that grew by free blocks leaves the accounts right and the blocks of every other inode untouched |
| `Volumes.Partition.BlockAlloc` | fs/file.c:64-72 | the first free block is marked, and one block less is free; none exactly if none is free |
| `Volumes.Partition.BitmapSync` | fs/file.c:75-96 | the sector of the bitmap that has the bit is written, with the bits of that sector, and no other |
| `Volumes.PackedByte` | fs/file.c:75-96 | bit k of byte j of a sector that is written is the bit of the map in memory |
| `Volumes.Partition.NewBlock` | fs/file.c:256-268 | the same, and the sector of the bitmap with its bit is on the disk as in memory |
| `Volumes.NotedSynced` | fs/file.c:75-96 | if disk and memory agree on all bits but those of some blocks, and one bit is changed and synced, they agree again, on that bit, too |
| `Volumes.TableBitLost` | fs/file.c:329-356 | a bit that is set and not synced stays clear on the disk if the next block that is allocated is in another sector of the bitmap |
| `Files.Situation1` | fs/file.c:294-320 | all blocks direct: old blocks stay, new ones are distinct, free before and marked now, on the disk, too; stops exactly if there are not so many free blocks |
| `Files.Situation2` | fs/file.c:321-360 | the same when the indirect table is made, which takes one block more, and whose own bit is not synced |
| `Files.Situation3` | fs/file.c:361-383 | the same when there is a table already |
| `Files.Collect` | fs/file.c:280-384 | whichever branch is taken, `all_blocks` holds the blocks to be written, the assertions on `i_sectors` hold, and it is stopped exactly if the blocks it needs are not free |
| `Files.DataOnDisk` | fs/file.c:226-416 | while the invariant holds, the bitmap on the disk marks every data block of every inode |
| `Files.FreeOnDisk` | fs/file.c:75-96 | and every block that is free in memory is free there |
| `Files.WriteData` | fs/file.c:386-411 | the chunks put buf behind the old bytes, and only blocks of the file are written |
| `Files.FileWrite` | fs/file.c:226-416 | on success the file is its old bytes followed by buf, has size/512 + 1 data blocks and a table exactly if more than 12, the partition is valid, every other inode is untouched, one inode record is rewritten, and exactly the blocks that are needed are taken; -1 exactly if the sum of size and count is above 71680; a sum that wraps 32 bits gets past that test and damages memory; a panic exactly at 71680 bytes, or below that if fewer blocks are free than needed |
| `FileReads.GatherForRead` | fs/file.c:449-491 | every branch finds the blocks, and the assertions on the table hold |
| `FileReads.FileRead` | fs/file.c:420-512 | for any position and count: within the file, exactly the bytes from the position to the smaller of position + count and size, with the position moved to there; -1 exactly at the end of the file; a panic exactly if the end, or a position behind the file, lies in block 139 or later; other reads that start behind the end, or wrap, damage memory |
| `FileReads.WriteAllThenRead` | fs/file.c:226-512 | any sequence of appends succeeds if and only if it fits the largest size and the free blocks as one append would, and otherwise the first that does not fit fails; then a read from any position gives the bytes of all of them |
| `FileReads.NeededSplit` | fs/file.c:274-384 | two appends need as many blocks as one of both |
| `Releases.InodeRelease` | fs/inode.c:172-226 | exactly the blocks of the inode are free again, in memory and on the disk, no assertion fails, the other inodes are untouched, its record is zeros and the other records stay |
| `Releases.NothingOwned` | fs/inode.c:230-242 | a new inode owns no block and is an empty file |
| `DirSlots.MakeEntryFields` | fs/dir.c:110-117 | number and type read back |
| `DirSlots.MakeEntryName` | fs/dir.c:110-117 | the name reads back if and only if it is shorter than 16 bytes or the low byte of the number is 0 |
| `Dirs.SearchDirEntry` | fs/dir.c:32-92 | looks the name up in the map of the live entries, and finds it exactly if it is there |
| `Dirs.DirRead` | fs/dir.c:332-380 | at position 24k the k-th live entry, over holes and recycled blocks, and NULL exactly from the end on |
| `Dirs.ReadAll` | fs/dir.c:332-380 | repeated reading from 0 gives every live entry once and then NULL |
| `Dirs.EmptyExact` | fs/dir.c:383-387 | `dir_is_empty` is exact, and then only the first block exists |
| `DirInserts.FindFree` | fs/dir.c:144-215 | the first free slot, a missing block counting as free slots |
| `DirInserts.SyncDirEntry` | fs/dir.c:120-218 | the entry goes to the first free slot of the 252; size grows by 24; first block, uniqueness and "no block without entry" are kept; other inodes are untouched; it takes no block if that slot is in a block of the directory, one for a new block and two behind the twelfth; a panic exactly if these are not free, and otherwise memory is damaged exactly with 252 live entries |
| `DirInserts.InsertMeans` | fs/dir.c:120-218 | the name map gets that name and no other change, the listing that entry |
| `DirDeletes.FindIno` | fs/dir.c:246-272 | the entry with the number, and whether its block can go; the assertion against duplicates holds |
| `DirDeletes.DeleteDirEntry` | fs/dir.c:221-329 | that slot becomes free and nothing else changes, its block is freed exactly if it is left without entries, size shrinks by 24, no assertion fails; without such an entry nothing changes |
| `DirDeletes.DeleteMeans` | fs/dir.c:221-329 | the name map loses that name and no other, the listing that entry |
| `DirDeletes.DirRemove` | fs/dir.c:390-411 | the assertions on `i_sectors` hold for an empty directory; the parent loses its one entry for it and is synced, if it has one, and the inode is released in any case |
| `FileSystems.InodeAlloc` | fs/file.c:54-61 | the least inode number not in use |
| `FileSystems.FileCreate` | fs/file.c:98-165 | the parent's name map gets the new name with the least free number, the new file is empty, the other inodes are untouched, and of the inode table exactly the records that the two narrowed numbers name are rewritten; a panic exactly without a free number or the blocks for the entry |
| `Paths.PathParse` | fs/fs.c:203-218 | takes off the first component, and returns NULL with an untouched buffer exactly if there is none |
| `Paths.PathDepthCnt` | fs/fs.c:221-237 | the buffer is overrun if and only if a component has more than 16 bytes; otherwise the number of components, or one more if there are none and the uninitialised byte is not 0 |
| `Paths.ComponentsOfPrint` | fs/fs.c:264-266 | a printed path parses back to the components it was printed from |
| `Walks.SearchFile` | fs/fs.c:240-305 | the answer is that of walking the components through the name maps, with every directory opened by its number: missing, a regular file (where the walk stops), or a directory with its parent; `searched_path` prints the components looked up; a panic exactly for a path that is not absolute, too short or too long; an unset number exactly for slashes only; an overrun exactly if a component that is cut off has 16 bytes or more; of the directories that were opened on the way, exactly the one returned as parent is still open |
| `Walks.DepthTest` | fs/fs.c:333-341 | the depths are equal if and only if the last component was looked up |
| `WorkingDirs.FindsChild` | fs/fs.c:719-755 | searching the parent for the child's number meets the child's entry, not "." or ".." |
| `WorkingDirs.GetParent` | fs/fs.c:704-716 | the number in "..", with the inode opened and closed again, and the assertions hold |
| `WorkingDirs.GetChildName` | fs/fs.c:719-755 | the name in the first slot with the number, which is a used one |
| `WorkingDirs.Climb` | fs/fs.c:785-792 | the walk up ends, because the depth falls, with the names in reverse order; the buffer of 512 bytes is overrun exactly if the path does not fit |
| `WorkingDirs.Reverse` | fs/fs.c:797-804 | the loop from the right turns the order around |
| `WorkingDirs.Getcwd` | fs/fs.c:761-808 | the path of the directory from the root, if and only if it and its terminator fit the caller's buffer and, but for the root, the kernel's; a panic exactly if it is longer than the first and fits the second; otherwise an overrun; never NULL |
| `WorkingDirs.PathLeadsBack` | fs/fs.c:761-808 | `search_file` of that path gives the directory |
| `WorkingDirs.PathShape` | fs/fs.c:761-808 | the path has one name for each step from the root, none of them empty, "." or "..", one slash before each and none behind the last |
| `Trees.OnlyPath` | fs/fs.c:761-808 | it is the only path of that shape that leads to the directory |
| `WorkingDirs.CwdRoundTrip` | fs/fs.c:761-808 | whenever `sys_getcwd` returns a string, `search_file` of it resolves back to the working directory |
| `Trees.FileEntered` | fs/file.c:130-155 | the tree stays a tree when a file gets an entry |
| `Trees.DirEntered` | fs/fs.c:542-600 | and when a directory does |
| `Trees.FileRemoved` | fs/fs.c:502-504 | and when a file is removed |
| `Trees.DirRemoved` | fs/dir.c:390-411 | and when an empty directory is removed |
| `Trees.VisitEntered` | fs/fs.c:240-305 | a path that was missing its last name leads to the new entry |
| `Trees.VisitLeft` | fs/fs.c:240-305 | a path that led to the removed entry finds its name missing |
| `NewDirs.NewDirOk` | fs/fs.c:568-586 | the block with "." and ".." makes a well-formed, empty directory |
| `NewDirs.Mkdir` | fs/fs.c:538-606 | the parent gets the name, the new directory is empty and points back to it, every file keeps its bytes, and the invariant of the whole file system is kept, the inode table included; it is stopped exactly without slots, or without a block for the directory and those for the entry; if all 256 low numbers are in use, and only then, the new one is 256 and the root's record is lost |
| `Worlds.Write` | fs/file.c:226-416 | buf is appended, every other file keeps its bytes, and the invariant of the whole file system is kept, the inode table included |
| `Worlds.RecordsGrow` | fs/inode.c:43-52 | after a new inode was synced the table is right, or the new number is 256, all below are in use, and the record of the root is that of inode 256 |
| `Worlds.Create` | fs/file.c:98-165 | the directory gets the name of a new, empty file, every other file keeps its bytes, nothing else changes, and the invariant is kept, unless the new number is 256, as for `NewDirs.Mkdir`; it is stopped exactly without a slot or the blocks for the entry |
| `Worlds.Unlink` | fs/fs.c:502-504 | entry and inode go, every other file keeps its bytes, and the invariant of the whole file system is kept, the inode table included |
| `Worlds.Rmdir` | fs/fs.c:686-696 | the directory goes if and only if it is empty, and the files keep their bytes; if the given parent has an entry for it, the invariant is kept, and otherwise the disk shows no directory tree any more |
| `Worlds.NoWorldLeft` | fs/dir.c:405-408 | if an empty directory's inode was released and its entry was left, no assignment of entries to directories makes the disk a tree |
| `Mounts.FreeSlot` | fs/file.c:19-32 | the first free entry from 3 on, or none |
| `Mounts.InFileTable` | fs/fs.c:480-486 | true exactly if a file in the table has the number |
| `Mounts.WriteFlags` | fs/fs.c:406 | a file may be written to exactly if bit 0 or bit 1 of its flags is set |
| `Mounts.KeptOpen` | fs/file.c:98-223 | list and table stay right when inodes come, and when inodes go that are not open |
| `Mounts.RmdirLists` | fs/fs.c:686-699 | what `sys_rmdir` leaves of the list: the same objects are open as before, and that of the removed directory is gone or released |
| `Positions.SysRead` | fs/fs.c:416-424 | the bytes of the file from the position to the smaller of position + count and its end, where the position is then; -1 exactly at the end; the kernel stops, or memory is damaged, exactly for a descriptor that is not open, a position behind the end, a sum that wraps, or an end in block 139 or later |
| `Positions.SysLseek` | fs/fs.c:427-457 | the position is start, old position or end plus the offset, if that is a byte of the file, for all offsets that fit 32 bits; otherwise -1 and no change; the kernel stops exactly for a bad `whence` or a descriptor that is not open |
| `SysCalls.SysCreate` | fs/fs.c:308-371 | on success the path was missing only its last name and now leads to a new, empty file, which is open in the first free entry of the table and not locked for writing, all other files keep their bytes, nothing else has changed and the invariant is kept; -1 exactly if the path ends in a slash or is not missing just its last name or the table is full, and then nothing has changed; the kernel stops exactly for bad flags, a path that overruns a buffer or is bad for `search_file`, or for want of slots or of the blocks for the entry; the inode table is lost only if all 256 low numbers are in use |
| `SysCalls.SysOpen` | fs/fs.c:308-371 | opens a file exactly if the path leads to one, the tables have room, and nobody else writes; the file is in the first free entry of the table then, and is locked for writing exactly if it was opened for that or was before; once the file was found its parent is open once more, unless the path has one component, whether the call succeeds or not |
| `SysCalls.SysClose` | fs/fs.c:382-390 | the entry of the table is free, the inode is open once less and not locked for writing, and the invariant is kept |
| `SysCalls.SysMkdir` | fs/fs.c:511-625 | the same for a new directory, which has "." and ".." of its own, and needs a block of its own |
| `SysCalls.SysUnlink` | fs/fs.c:460-508 | on success the path led to a file that is not in the table of open files and now its name is missing, the inode is released, all other files keep their bytes, and nothing else has changed; -1 exactly if it leads to no file or to one in the table, and then nothing has changed; the kernel stops exactly for a bad path, overlong components included, or one to the root |
| `SysCalls.SysRmdir` | fs/fs.c:675-701 | for every path: 0 exactly if it leads to an empty directory other than the root, whose inode is then released; the disk shows a directory tree after that if and only if the directory was not reached by a last ".", and every open object is that of an inode in use if and only if the directory was not open; the invariant is kept exactly if both hold |
| `SysCalls.DotPath` | fs/fs.c:675-701 | every empty directory but the root has a path that reaches it by a last "." |
| `SysCalls.DotRemovesExample` | fs/fs.c:675-701 | "/a/." is one, in the tree with the root and "/a" |
| `SysCalls.MkdirThenRmdirDot` | fs/fs.c:511-701 | after `mkdir("/a")`, `rmdir("/a/.")` returns 0 and the disk shows no directory tree any more |
| `SysCalls.SysWrite` | fs/fs.c:393-413 | buf is appended to the file of the descriptor, which stands before the last byte then, and every other file keeps its bytes; -1 exactly if the flags forbid writing or the file would get too large, and then nothing has changed; the kernel stops exactly for a descriptor that is not open, too few free blocks, exactly 71680 bytes, or a count that wraps |
| `Runs.Perform` | fs/fs.c:308-701 | each call keeps the invariant and does to directories, contents and table what it is for and nothing else, or is refused and changes nothing of them but for the table, or is stopped; it loses the invariant only by inode number 256, or by `sys_rmdir`, and by that if and only if the path ends in "." or the directory was left open |
| `Runs.LossIsOne` | fs/fs.c:308-701 | after a loss the invariant holds for no directory tree |
| `Runs.Run` | fs/fs.c:308-701 | in every state that a run of calls reaches without being stopped or losing the invariant, no block has two owners, the bitmap marks exactly the owned blocks, on the disk, too, but for indirect tables, every file and directory is well-formed, the directories form a tree, the record of every inode in use is that inode, and every open object is that of an inode in use; and the run refines one of the simple file system, with the same bytes read |
| `Runs.FileGrows` | fs/fs.c:308-701 | over a whole run a file holds what it held at first, followed by what the calls have written to it, in order |
| `Runs.ReadGives` | fs/fs.c:393-424 | so every read in a run gives that part of it that starts at the position |
| `Runs.WriteAgain` | fs/file.c:187-222 | a file that was opened for writing and closed can be opened for writing again |
| `Runs.WriteTwice` | fs/file.c:187-213 | and as long as it was not closed it cannot |
| `Runs.RunThenGetcwd` | fs/fs.c:761-826 | after any such run, `sys_getcwd` in any directory gives its path exactly if that fits the buffers, and the path leads back to it |
| `Runs.StaleRun` | fs/fs.c:308-701 | `mkdir "/d"`, create and close "/d/f", open and close it, `unlink "/d/f"`, `rmdir "/d"`: once there was room for directory and file no call fails, the object of "/d" is left in the list, and the next file that is created gets its number and is opened as 48 bytes in a block it does not own |
| `Formats.FormatBitmap` | fs/fs.c:130-150 | bit 0 is set if and only if there are at least eight blocks, and every bit behind the one that follows the last block; a panic exactly if the buffer needs 3840 pages or more; otherwise an overrun exactly if the number of blocks wraps, or the bitmap fills all its sectors and there are at least 608 |
| `Formats.TooLargeFrom` | fs/fs.c:127-131 | the buffer is too large from a bitmap of 30712 sectors on |
| `Formats.OneBlockTooMany` | fs/fs.c:84-150 | the bitmap offers a sector behind the partition if and only if the last sector of the bitmap is not full and the first guess at its size was right |
| `Formats.TooManyExample` | fs/fs.c:84-150 | a partition of 1000 sectors for which it does |
| `Formats.WriteTable` | fs/fs.c:166-174 | the root's record, zeros in all others, and no other sector is written |
| `FormatRuns.FormattedWorld` | fs/fs.c:166-195 | the root directory that formatting writes is a directory tree |
| `FormatRuns.FormattedSound` | fs/fs.c:133-150 | the bitmap that formatting writes agrees with it |
| `Formats.Format` | fs/fs.c:74-200 | for every size and start: a partition that is smaller than its own tables overruns the buffer; otherwise super block, block bitmap, inode bitmap, inode table and root directory are in sectors start + 1, start + 2, and on, as the sizes say, and no sector outside the partition, nor its boot sector, is written, if it has more than its tables |
| `Formats.InitPartition` | fs/fs.c:885-897 | a partition is formatted exactly if it exists and its super block lacks the magic number |
| `Formats.InitTwice` | fs/fs.c:885-897 | the next start of the machine leaves it as it is |
| `FormatRuns.MountPartition` | fs/fs.c:19-71 | layout, block bitmap and inodes in use are what the super block, the two bitmaps and the inode table on the disk say; a panic or an overrun exactly if a bitmap is empty or too large for its buffer |
| `FormatRuns.FormatAndMount` | fs/fs.c:19-200 | mounting what was formatted gives the layout of the partition and an empty root; it satisfies the whole invariant if and only if there are at least eight blocks; with no block, or too many, it panics |
| `FormatRuns.FormatThenRun` | fs/fs.c:74-701 | every run of calls on such a partition, from an empty root on, keeps the invariant and refines one of the simple file system, or loses the invariant in one of these ways |

## Left out

- Ticks and priorities: a timer interrupt may end the time slice wherever interrupts are on.
- `holder_repeat_nr` and the semaphore value are unbounded; their wrap-around at 32 and 8 bits is not modelled.
- Page allocator and block bitmap: the bit behind the map is taken as set, so that the scan is first fit on the map (`Bitmaps.GuardedScan`).
- The lists of the scheduler and of open inodes are sequences; `Lists` proves that the linked lists behave as such, and `FreeLists` joins them to the heap.
- The translation cache and `invlpg`, the PCB of user processes apart from page directory and bitmap, `get_a_page`, and the locks of the pools: each call is one step.
- Pages.MallocThenFree: page tables that were added for user pages stay allocated, as in the code.
- Failure paths that leak (blocks of an unfinished `file_write`, pages of an unfinished `malloc_page`): exact accounting is claimed for calls that succeed.
- Files.FileWrite: regular files only; what memory looks like after a count that wraps is not modelled.
- FileReads.FileRead: nor what a read that starts behind the end of the file does to memory.
- DirInserts.SyncDirEntry: what happens after the write behind `i_sectors` is not modelled.
- `delete_dir_entry` on indirect blocks, whose counting loop never ends: directories keep to the twelve direct blocks.
- The inode bitmap is the set of inodes in use; its sector on the disk is modelled for `partition_format` and `mount_partition` only.
- The descriptors of a process: a call names the entry of the table of open files, and whether the process has a free descriptor is a parameter of `sys_open`.
- SysCalls.SysCreate: a file that was created while the process had no free descriptor is not told apart from one that was opened.
- What happens after memory was damaged, after a panic, and after a call has lost the invariant, apart from `Runs.StaleRun`.
- Mounting again after a run, and `filesys_init` for more than one partition.
- `sys_stat`, `sys_opendir` and `sys_closedir` as calls of a run, which would add easy members.
- Scratch buffers and their allocation, console, keyboard, `printf`, `ioqueue`, the disk driver's port access, boot code and context switch.
- Concurrency inside the file system, which takes no lock: each call is one step.
