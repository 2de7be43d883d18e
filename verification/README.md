# Linux 0.11 on RISC-V: a verified model

This project models the core of a Linux 0.11 kernel for rv32 in Dafny and proves what its data structures and protocols
keep over whole runs. State that the kernel updates in place is a class over arrays, with the kernel's own loops; each
such class has a value, `St()`, and the invariants and refinements are proved about that value. For most components
there is a simple reference machine, and a method `Run` or `Boot` whose contract says that every run of the kernel's
code gives the answers of the reference machine.

Verify everything with `dafny verify dfyconfig.toml`.

- **Memory.** Sv32 page tables with reference-counted frames and copy on write (`Sv32`, `Frames`, `Steps`, `Moves`,
  `Pages`, `Cow`, `Fork`, `Fault`, `Memory`). Every count is the number of references to the frame, those lost
  included. `PrivateMemory`: whatever a run does, each task sees what it would see with a memory of its own, with two
  exceptions: executing a page it has written can wipe the page, and the kernel's own store into a page that is still
  shared is seen by every task that shares it. `MemoryLosses` reaches both from boot.
- **Files.** Minix block trees, the zone map and file contents (`Zones`, `ZoneMoves`, `ZoneSteps`, `ZoneFree`, `Bitmap`,
  `FileLayer`, `FileBytes`), and the zones that mkdir takes (`MkdirBlocks`). `FileRuns`: open files are byte sequences
  with positions.
- **Buffer cache.** Free ring, hash chains and write-back (`Rings`, `CacheState`, `Coherence`, `BufferCache`).
  `CacheRuns`: the cache is a disk.
- **Requests.** The elevator and the request table (`Elevator`, `Requests`). `RequestRuns`: no request is lost.
- **Inodes and directories.** The inode table as a cache (`InodeState`, `InodeTable`, `InodeRuns`), directories as finite
  maps, link counts as entry counts (`Directories`, `LinkCounts`, `TreeRuns`).
- **Allocator.** The bucket allocator (`BucketLists`, `Buckets`, `HeapState`, `Kmalloc`), and what its users can tell of
  its pages from their own books (`HeapBooks`, `HeapRuns`).
- **Tasks.** Wait queues hidden in the sleepers' stacks (`WaitQueues`), the scheduler (`Scheduler`, `SchedulerRuns`),
  descriptors and open files (`Descriptors`, `DescriptorRuns`).
- **Streams.** Rings of bytes (`RingQueues`), pipes (`Pipes`), the terminal (`LineDiscipline`, `Terminals`,
  `TerminalRuns`).
- **Exec.** Argument pages and tables (`ExecArgs`), segments in memory (`ExecImage`).
- `Bytes`, `Longs`, `Limits`, `Options`, `Sequences` and `Counting` hold what several of these share.

The model is sequential: an operation runs until it sleeps or returns. That is how this kernel runs, since a tick in
kernel mode never reschedules and the ram disk finishes each request at once. Sleeping is a step of its own in
`WaitQueues`, and an answer of the operation elsewhere. Panics are preconditions proved to hold where the callers
guarantee it, and answers otherwise. Devices, clocks and user memory are parameters.

Some promises turn out not to hold of the code; then a member states exactly when they do, and a witness gives an input:

- Frames are lost if and only if a fork fails after it has copied a table, a program is mapped over itself in the pages
  that exec comes to, or a page that may not be executed is executed (`Memory.Mm.CopyProcess`, `Memory.Mm.NewSpace`,
  `PrivateMemory.Step`; witnesses `MemoryLosses.LeakedFork`, `MemoryLosses.OverlappingExec`, `MemoryLosses.FetchWipes`).
- Executing a page wipes it if and only if it is there and may not be executed, as after a copy on write: cause 12 is the
  instruction page fault, and the handler takes such a page for missing (`Memory.Mm.UserFetch`,
  `MemoryLosses.FetchWipes`). Loads of missing pages have cause 13, which nothing handles, and end the task
  (`Memory.Mm.UserLoad`).
- A kernel store is private if and only if the page has one owner, or the word was there already; `sys_pipe` stores
  without `verify_area` (`Memory.Mm.PutFsLong`, `PrivateMemory.Step`, `MemoryLosses.SharedPut`).
- `verify_area` makes an area private if and only if its size plus the offset of its start in the page is below 2^31; from
  there on it verifies nothing and returns (`Memory.Mm.VerifyArea`, `MemoryLosses.SkippedVerify`). It panics if and only
  if the task has a directory and the area starts past user memory.
- A write panics if and only if it comes to the end of the largest file with bytes left (`FileBytes.FileWrite`,
  `FileRuns.WritePanics`).
- `mkdir` panics if and only if there is a zone for the new directory and then not enough for its parent, because it frees
  a block that an inode still names (`MkdirBlocks.Mkdir`, `MkdirBlocks.LastZone`).
- Link counts wrap at the 256th link (`LinkCounts.LinkInv`, `LinkCounts.MkdirInv`, `TreeRuns.TooManyLinks`).
- `dup2` of a descriptor onto itself closes it (`Descriptors.Table.Dup2`, `DescriptorRuns.DupOntoItself`).
- `schedule` loops for ever if and only if no runnable task has a slice, one has a counter of 0, and all have priority 0
  (`Scheduler.Table.Schedule`, `SchedulerRuns.StuckRun`).
- A counter stays between 0 and twice the largest priority of its task if and only if no refill comes to 2^31, which none
  does below priority 2^30; `nice` takes any number (`Scheduler.RefillBounded`, `SchedulerRuns.RunBounded`). `schedule`
  chooses a runnable task of greatest counter if and only if not all of them have wrapped below zero; then it chooses the
  idle task (`Scheduler.Table.Schedule`, `SchedulerRuns.WrapRun`).
- The line count of a terminal goes wrong if and only if an end-of-file character from 128 on is read
  (`LineDiscipline.PopReady`, `TerminalRuns.HighEof`).
- A reader that waits for a terminal can still get something if and only if there is a line for it, or room for the end
  of one (`TerminalRuns.CanReturn`, `TerminalRuns.LongLineHangs`).
- `execve` indexes past its table of argument pages if and only if the strings do not fit, all the pages can be had and
  the environment does not fill the area exactly (`ExecArgs.ArgPages.SetUp`, `ExecArgs.TooLongArgument`).
- `execve` ends the process after the point of no return if and only if the argument tables do not fit into the lowest
  page of the strings (`ExecArgs.ArgPages.SetUp`, `ExecArgs.LongArgument`).
- A segment is loaded right if and only if its end does not wrap around and, for each of its bytes, the last segment in
  that page puts there what it wants; where it is the last itself: no hole is over a non-zero byte of block 0, and nothing
  is missed or misplaced because file offsets wrap (`ExecImage.ProgramRight`, `ExecImage.SegmentRight`,
  `ExecImage.OverlapLoses`, `ExecImage.FirstPageLost`, `ExecImage.HoleShows`, `ExecImage.BssFromFile`,
  `ExecImage.WrappedLoads`).

## Model

| member | source | states |
|---|---|---|
| Sv32.DecodeEncode | linux-0.11/include/linux/mm.h:9-30 | decoding an encoded page-table entry gives the entry back |
| Sv32.EncodeDecode | linux-0.11/include/linux/mm.h:9-30 | and every 32-bit word is the encoding of what it decodes to, so the model loses no bit of a word |
| Sv32.PtePhysOfWord | linux-0.11/include/linux/mm.h:22-25 | the shift-and-mask expression pte_phys is the address of the entry's page |
| Sv32.FlagTests | linux-0.11/include/linux/mm.h:9-16 | the tests `pte & PTE_V`, `& PTE_U` and `& PTE_W` are the three flag fields |
| Sv32.FlagUpdates | linux-0.11/mm/memory.c:157-159 | clearing and setting PTE_W in the word changes that field and no other |
| Steps.KernelEntries | linux-0.11/include/linux/mm.h:27-34 | or-ing flags into phys_ppn(page) is the encoding of the table and user entries used in the model |
| Memory.Mm.constructor | linux-0.11/mm/memory.c:279-292 | mem_init establishes the whole invariant: each count is the number of references to its frame, exactly the frames from start up to end are free, and nothing is lost |
| Memory.Mm.GetFreePage | linux-0.11/mm/memory.c:38-49 | the lowest frame with count 0, zeroed and counted once; refused exactly when none is free; no address space sees a difference |
| Memory.Mm.FreePage | linux-0.11/mm/memory.c:51-60 | one reference less |
| Moves.AllocInv | linux-0.11/mm/memory.c:38-49 | taking a free frame keeps all counts exact and every page of every address space as it was |
| Moves.KillInv | linux-0.11/mm/memory.c:51-60 | the frame of any live reference has a positive count, and dropping the reference with the count keeps the counts exact: the panics of free_page are unreachable |
| Moves.LoseAllInv | linux-0.11/kernel/fork.c:62-67 | any set of references that disappears without free_page is lost so many times, and everything else stays exact |
| Memory.Mm.PutPagePgdir | linux-0.11/mm/memory.c:75-98 | succeeds exactly for a user address, a frame in RAM and a table or a free frame for one; then the page is there, nothing else changed, and a frame that was there before is lost |
| Moves.OverwriteInv | linux-0.11/mm/memory.c:95-96 | a page mapped over another loses one reference to the frame that was there, and keeps everything else |
| Memory.Mm.FreePageTables | linux-0.11/mm/memory.c:105-126 | the address space is gone, every other one is untouched, counts stay exact |
| Cow.CountBound | linux-0.11/mm/memory.c:160-161 | a user page is named at most as often as there are address spaces |
| Cow.FilledLost | linux-0.11/mm/memory.c:160-161 | so a count of 255 means 191 references lost: without losses the unsigned char never wraps |
| Cow.BumpedShare | linux-0.11/mm/memory.c:153-162 | one fork raises no count twice, so a count below 255 at its start does not wrap |
| Cow.CowShareInv | linux-0.11/mm/memory.c:154-161 | sharing one page read-only keeps exclusivity of writable pages and exact counts |
| Cow.CowSharePages | linux-0.11/mm/memory.c:154-161 | and gives the child the parent's page while nobody else's changes |
| Memory.Mm.CopyOneTable | linux-0.11/mm/memory.c:153-162 | the 1024 entries of one table: the child has the entries and pages of the parent there, none writable any more, and nothing else moved |
| Memory.Mm.CopyPageTables | linux-0.11/mm/memory.c:132-165 | succeeds exactly if there are as many free frames as tables to copy; then the child has the parent's pages everywhere; if it fails, whether anything was left behind |
| Memory.Mm.CopyProcess | linux-0.11/kernel/fork.c:21-79 | succeeds exactly with 2 free frames plus one for each table of the parent; then child and parent have the same pages and entries; nothing is lost if and only if it succeeded or at most two frames were free; all other counts stay exact either way |
| Fork.DroppedLost | linux-0.11/kernel/fork.c:62-67 | the failure path loses nothing if and only if no table had been copied |
| Fork.DroppedInv | linux-0.11/kernel/fork.c:62-67 | it gives back directory and page, loses every table and every shared page of the child once, and keeps the rest exact |
| Memory.Mm.NewTask | linux-0.11/kernel/fork.c:91-128 | the page of a new task structure, with counts exact |
| Memory.Mm.DoExit | linux-0.11/kernel/exit.c:102-135 | the exiting task has no pages left, everybody else's are untouched, counts stay exact |
| Memory.Mm.ExitAlone | linux-0.11/kernel/exit.c:83-100 | a task without a father gives back its own page as well, and its slot is empty |
| Memory.Mm.Release | linux-0.11/kernel/exit.c:19-33 | the zombie's own page is given back and its slot is empty |
| Memory.Mm.UnWpPage | linux-0.11/mm/memory.c:218-233 | afterwards the page is writable and private with the bytes it had and no other entry of any address space changed; it may be executed exactly if it could be and had one owner; the task is ended exactly if a copy is needed and no frame is free |
| Fault.PrivatizeInv | linux-0.11/mm/memory.c:227-232 | moving a shared entry to a private copy keeps every page and all counts |
| Memory.Mm.GetEmptyPage | linux-0.11/mm/memory.c:245-253 | a zero page appears at the address, whatever was there, and a frame that was there is lost; the task is ended exactly if there is no frame for the page or for its table |
| Memory.Mm.PageFaultHandler | linux-0.11/mm/memory.c:263-277 | a missing or unwritable page becomes writable with its old bytes or zeros, a writable one is replaced by zeros and its frame lost, and nothing else changes; the task is ended exactly if the fault is not a user's or the frames it takes are not there, and then the others are untouched |
| Memory.Mm.UserLoad | linux-0.11/kernel/traps.c:107-115 | a load gives the word of the task's own view; without a page there the task ends, as load page faults have no case |
| Memory.Mm.UserFetch | linux-0.11/kernel/traps.c:107-115 | a fetch leaves a page that may be executed alone and makes one that is missing; a page that is there and may not be executed is replaced by zeros and its frame lost, exactly then; with the exact number of frames it takes |
| Memory.Mm.UserStore | linux-0.11/mm/memory.c:263-277 | a store, with whatever fault it takes, changes one word of the storing task's view and nothing of anybody else's; it ends the task exactly if the frames it takes are not there |
| Pages.StorePages | linux-0.11/mm/memory.c:218-233 | a store through a writable entry is seen through that entry only |
| Fault.SharedStoreSeen | linux-0.11/mm/memory.c:172-184 | a store through an entry that is shared is seen by another task |
| Memory.Mm.Translate | linux-0.11/mm/memory.c:172-184 | the frame behind a mapped user page, whether or not it is writable |
| Memory.Mm.PutFsLong | linux-0.11/include/asm/segment.h:53-59 | a kernel store reaches every task that has the frame at that page and nobody else, so that it is private if and only if the page has one owner or the word was already there; the task is ended exactly if it has no page there |
| Memory.Mm.VerifyArea | linux-0.11/mm/memory.c:196-216 | panics exactly for a task with a directory and a start past user memory; otherwise every page up to where the int size ends is mapped, private and writable, with its old bytes or zeros, and nobody else sees a difference; that is every page of the area if and only if size plus page offset is below 2^31; the task is ended exactly if the pages leave user memory or take more frames than are free |
| Memory.Mm.NewSpace | linux-0.11/fs/exec.c:217-249 | a new directory that maps exactly the given pages, the last one at each address, or nothing seen has changed; it succeeds exactly with a frame for the directory, each page and each table; nothing is lost if and only if no two of the pages it came to share an address, whether it succeeds or not |
| Memory.Mm.AbandonSpace | linux-0.11/fs/exec.c:298-299 | the failure path gives back everything of the half-built address space |
| Memory.Mm.CommitSpace | linux-0.11/fs/exec.c:260-261 | the task sees exactly the new address space; everybody else is untouched |
| PrivateMemory.Step | linux-0.11/mm/memory.c:38-277 | one step of any kind (store, load, fetch, verify_area, kernel store, fork, thread, exec, exit, reap) acts on the tasks and their views as on private memories, with exactly the answer the free frames decide; a kernel store acts on all tasks that share the frame exactly if there is another and the word is new; pages are wiped and frames lost exactly where said above; an area is private after verify_area exactly if its size does not wrap |
| PrivateMemory.Run | linux-0.11/mm/memory.c:38-277 | every run: each state keeps the invariant, each step is as above, and the end is that of the machine of private memories; it stops early only after a panic of verify_area or at a fork while a count is 255 |
| PrivateMemory.SharersNamed | linux-0.11/include/asm/segment.h:53-59 | the references to a page's frame are the entries of the tasks that share it: there are several if and only if another task does |
| PrivateMemory.TraceRuns | linux-0.11/mm/memory.c:38-277 | at every step of a run tasks and views are those of the reference run so far |
| PrivateMemory.Boot | linux-0.11/mm/memory.c:38-292 | the same for every run from mem_init on |
| MemoryLosses.LeakedFork | linux-0.11/kernel/fork.c:62-67 | from boot with eight frames: a program with two tables forks, the fork gives up half way and a table is lost |
| MemoryLosses.SharedPut | linux-0.11/fs/pipe.c:107-108 | from boot: after a fork a kernel store without verify_area is a store into the memories of both tasks |
| MemoryLosses.SkippedVerify | linux-0.11/mm/memory.c:205-206 | from boot: after a fork verify_area of 0x7fffffff bytes from address 1 verifies nothing, and the store after it is seen by both tasks |
| MemoryLosses.OverlappingExec | linux-0.11/fs/exec.c:232-249 | from boot: a program with two pages at one address is accepted, and a frame is lost |
| MemoryLosses.FetchWipes | linux-0.11/kernel/traps.c:107-115 | from boot: fork, store, and execute the page; it is all zeros then, and its frame is lost |
| Bitmap.SetBit | linux-0.11/fs/bitmap.c:18-25 | one bit of the byte array becomes set, and the old value is reported |
| Bitmap.ClearBit | linux-0.11/fs/bitmap.c:27-35 | one bit becomes clear; the answer is whether it already was |
| Bitmap.FindFirstZero | linux-0.11/fs/bitmap.c:37-44 | the lowest clear bit of a map block, 8192 if there is none |
| FileLayer.Fs.constructor | linux-0.11/tools/mkfs.c:187-213 | an empty file system satisfies the whole tree-and-bitmap invariant |
| FileLayer.Fs.NewBlock | linux-0.11/fs/bitmap.c:74-104 | first fit: the lowest free data zone, zeroed; 0 only when every zone the bitmap covers is taken; no file changes |
| FileLayer.BeyondRange | linux-0.11/fs/bitmap.c:91-94 | a first clear bit past the last zone is set and no zone is handed out, and then none was free |
| FileLayer.Fs.FreeBlock | linux-0.11/fs/bitmap.c:46-72 | the bit of the zone is cleared; it panics, and changes nothing, exactly on a block that is no data zone or is free already |
| ZoneSteps.GrabInv | linux-0.11/fs/bitmap.c:74-104 | taking a free zone keeps bits and trees in agreement and all contents |
| ZoneSteps.HookZoneInv | linux-0.11/fs/inode.c:83-90 | hanging a zeroed block into an empty i_zone slot keeps the invariant and every byte of every file |
| ZoneSteps.HookEntryInv | linux-0.11/fs/inode.c:92-137 | and so does hanging one into an entry of an indirect block |
| FileLayer.Fs.Bmap | linux-0.11/fs/inode.c:72-138 | the zone number stored for a file block; with create, missing blocks on the way are allocated, only the wanted position is filled, no content of any file changes, and 0 means a full disk; panics exactly on a block that no file has |
| ZoneFree.DropLive | linux-0.11/fs/bitmap.c:46-72 | freeing a block that the tree names never meets a clear bit, and nothing else living changes |
| FileLayer.Fs.FreeInd | linux-0.11/fs/truncate.c:11-27 | every block at or below an indirect block is freed once, everything else is spared |
| FileLayer.Fs.FreeDind | linux-0.11/fs/truncate.c:29-45 | the same for a doubly indirect block |
| FileLayer.Fs.Truncate | linux-0.11/fs/truncate.c:47-64 | the inode maps nothing any more, every other inode keeps its tree and its bytes, and set bits are again exactly the named zones; with a right map it does not panic, and with the inode's first block already free it does |
| MkdirBlocks.FreeAndFilled | linux-0.11/fs/bitmap.c:46-103 | free zones and places in files that name a zone make up all data zones |
| MkdirBlocks.AddBlocks | linux-0.11/fs/namei.c:179-197 | add_entry gets to the block with a free entry if and only if the directory has a first block and there is a free zone for each block and indirect block missing on the way; nothing else changes |
| MkdirBlocks.GiveUp | linux-0.11/fs/namei.c:520-526 | the way out of sys_mkdir when add_entry fails always panics: it frees the block that the inode still names, and iput frees it again |
| MkdirBlocks.Mkdir | linux-0.11/fs/namei.c:494-534 | sys_mkdir answers -ENOSPC exactly if no zone is free, and panics exactly if one is and the parent has no first block or lacks at least as many blocks as there are free zones; otherwise map and trees agree again and other files are as they were |
| MkdirBlocks.LastZone | linux-0.11/fs/namei.c:519-526 | on a disk of two zones, one of which a full root directory has, mkdir panics |
| FileBytes.FileWrite | linux-0.11/fs/file_dev.c:48-90 | the reported prefix is written at the position, no other byte of any file changes, the size grows as needed; a count is short exactly where the next byte has no block and none is left; panics exactly if bytes remain at the end of the largest file |
| FileBytes.FileRead | linux-0.11/fs/file_dev.c:17-46 | exactly the bytes of the file at the position, zeros for holes; panics exactly past the end of the largest file |
| FileBytes.SysRead | linux-0.11/fs/read_write.c:55-81 | the slice of the file's byte sequence from the position on, cut at its end |
| FileBytes.DataWrite | linux-0.11/fs/file_dev.c:72-84 | writing into a mapped data block changes that file position and no other |
| FileBytes.WriteRefines | linux-0.11/fs/file_dev.c:48-90 | a write is an overlay on the file's byte sequence, with zeros in a gap, and nothing on any other file |
| FileBytes.WriteThenRead | linux-0.11/fs/file_dev.c:17-90 | reading back what was written gives the written bytes |
| FileBytes.TruncateRefines | linux-0.11/fs/truncate.c:47-64 | truncate is the empty sequence for that file and nothing for the others |
| FileRuns.Step | linux-0.11/fs/read_write.c:25-103 | one write, read, seek or truncation of an open file is the same step on byte sequences and positions, with exactly the answer of the source: error numbers, among them that of writing a directory, short counts only on a full disk, and the panic |
| FileRuns.Run | linux-0.11/fs/read_write.c:25-103 | every run is a run on byte sequences and positions: each of its disks holds the files of the reference run, each answer is the expected one on that disk, and it ends early only at a panic |
| FileRuns.Boot | linux-0.11/fs/read_write.c:25-103 | the same for any run on a new file system |
| FileRuns.WritePanics | linux-0.11/fs/inode.c:77-80 | a position from the end of the largest file on can be set, and the next write there panics |
| BufferCache.Buffers.constructor | linux-0.11/fs/buffer.c:343-376 | buffer_init gives a well-linked, coherent cache whose contents are the disk image |
| BufferCache.InitOk | linux-0.11/fs/buffer.c:343-376 | the initial ring holds every buffer, all chains are empty, and the logical disk is the disk |
| Rings.UnlinkFreeOk | linux-0.11/fs/buffer.c:139-145 | taking a buffer out of a circular list leaves the circular list of the others |
| Rings.LinkFreeOk | linux-0.11/fs/buffer.c:148-155 | putting a buffer in front of the list head makes it the last of the circular list |
| Rings.UnlinkHashOk | linux-0.11/fs/buffer.c:131-138 | taking a buffer out of its hash chain leaves the chain of the others |
| Rings.LinkHashOk | linux-0.11/fs/buffer.c:156-163 | the buffer becomes the first of its hash chain |
| CacheState.RemovedOk | linux-0.11/fs/buffer.c:130-146 | remove_from_queues takes a buffer off ring and chain, changes no other field, and leaves both well linked |
| CacheState.InsertedOk | linux-0.11/fs/buffer.c:148-164 | insert_into_queues puts it back on both |
| BufferCache.RingOnce | linux-0.11/fs/buffer.c:213-223 | the links determine the order of the free list |
| BufferCache.Buffers.FindBuffer | linux-0.11/fs/buffer.c:166-174 | the buffer of the key; none exactly if no buffer has the key |
| BufferCache.Buffers.Victim | linux-0.11/fs/buffer.c:213-223 | the first unheld buffer, in list order, of least badness; none exactly if all are held |
| BufferCache.Buffers.RemoveFromQueues | linux-0.11/fs/buffer.c:130-146 | the pointer assignments are the removal above |
| BufferCache.Buffers.InsertIntoQueues | linux-0.11/fs/buffer.c:148-164 | the pointer assignments are the insertion above |
| BufferCache.Buffers.GetHashTable | linux-0.11/fs/buffer.c:183-196 | a cached block gains a user and nothing else changes |
| BufferCache.Buffers.Getblk | linux-0.11/fs/buffer.c:206-251 | no block's content ever changes; a cached block is found; otherwise the victim above is reused, written out first if dirty; it sleeps exactly when all buffers are held and the block is not cached |
| BufferCache.Buffers.Brelse | linux-0.11/fs/buffer.c:253-261 | one user less |
| BufferCache.Buffers.Bread | linux-0.11/fs/buffer.c:267-281 | returns the logical content of the block with one more user, modulo 256; fails exactly for blocks not on the disk, and panics there exactly if 255 users hold the buffer; changes no content |
| BufferCache.Buffers.LlRwBlock | linux-0.11/kernel/blk_drv/ll_rw_blk.c:88-155 | a request on the idle ram disk is done at once: the effect is the transfer below |
| BufferCache.TransferCases | linux-0.11/kernel/blk_drv/ramdisk.c:27-51 | on a coherent cache a request does nothing, writes a dirty buffer out or reads a stale one in |
| BufferCache.TransferLogical | linux-0.11/kernel/blk_drv/ramdisk.c:27-51 | and changes the logical content of no block |
| BufferCache.Buffers.SyncDev | linux-0.11/fs/buffer.c:60-83 | no buffer of the device stays dirty, no content changes, and the disk then equals the logical content |
| BufferCache.Buffers.Store | linux-0.11/fs/file_dev.c:72-84 | filling a held buffer and marking it changes the content of its block and of no other |
| Coherence.EvictLogical | linux-0.11/fs/buffer.c:243-250 | giving a clean buffer away changes no block |
| Coherence.FillLogical | linux-0.11/fs/file_dev.c:72-84 | a store is the update of one block of the logical disk |
| CacheRuns.WaitWhen | linux-0.11/fs/buffer.c:224-227 | getblk waits exactly when as many blocks are held as there are buffers and this is not one of them |
| CacheRuns.Step | linux-0.11/fs/buffer.c:206-281 | get, release, write or sync on the cache answers as a plain disk with user counts does |
| CacheRuns.Run | linux-0.11/fs/buffer.c:206-281 | every run does |
| CacheRuns.Boot | linux-0.11/fs/buffer.c:206-376 | every run from buffer_init: the answers are those of the plain disk |
| Elevator.Order | linux-0.11/kernel/blk_drv/blk.h:40-43 | IN_ORDER is a strict and total order on requests that differ |
| Elevator.PlaceSweeps | linux-0.11/kernel/blk_drv/ll_rw_blk.c:78-82 | where the walk stops is the sorted place in the sweep under way or in the next one |
| Elevator.InsertSweeps | linux-0.11/kernel/blk_drv/ll_rw_blk.c:64-86 | after an insertion the queue is again at most two ascending sweeps |
| Requests.AddInv | linux-0.11/kernel/blk_drv/ll_rw_blk.c:64-86 | an insertion keeps links, locks, slot rule and sweeps, and the relative order of all pending requests |
| Requests.EndInv | linux-0.11/kernel/blk_drv/blk.h:109-125 | serving the first request keeps all of that |
| Requests.FewWrites | linux-0.11/kernel/blk_drv/ll_rw_blk.c:115-122 | writes never hold more than 21 of the 32 slots |
| Requests.RequestQueue.constructor | linux-0.11/kernel/blk_drv/ll_rw_blk.c:157-165 | an empty queue satisfies the invariant |
| Requests.RequestQueue.AddRequest | linux-0.11/kernel/blk_drv/ll_rw_blk.c:64-86 | the list becomes the elevator insertion of the request, first in line only if the list was empty |
| Requests.RequestQueue.Enqueue | linux-0.11/kernel/blk_drv/ll_rw_blk.c:110-142 | a slot is found exactly if there is one of the allowed kind; then the queue is the elevator insertion |
| Requests.RequestQueue.MakeRequest | linux-0.11/kernel/blk_drv/ll_rw_blk.c:88-143 | read-ahead on a locked buffer and needless requests do nothing, otherwise the buffer is locked and queued, or the caller sleeps |
| Requests.RequestQueue.EndRequest | linux-0.11/kernel/blk_drv/blk.h:109-125 | the first request leaves, its slot is free and its buffer unlocked |
| RequestRuns.Step | linux-0.11/kernel/blk_drv/ll_rw_blk.c:64-143 | a request, a sleeper's new attempt or an end changes queue, locks and sleepers as the elevator says and answers as slots and locks decide |
| RequestRuns.Conserved | linux-0.11/kernel/blk_drv/ll_rw_blk.c:64-143 | at every point of a run what was queued has ended or is queued now, each once |
| RequestRuns.Boot | linux-0.11/kernel/blk_drv/ll_rw_blk.c:64-165 | every run from blk_dev_init on: each list is two sweeps of locked buffers, each step is as above, and no request is lost |
| WaitQueues.InitialInv | linux-0.11/kernel/sched.c:110-153 | nobody asleep satisfies the invariant |
| WaitQueues.StepInv | linux-0.11/kernel/sched.c:110-153 | sleep, wake and resume keep it: heads and saved pointers name sleeping tasks, none twice, and every sleeper is named |
| WaitQueues.RunInv | linux-0.11/kernel/sched.c:110-153 | so it holds after every interleaving on any number of queues |
| WaitQueues.TargetAsleep | linux-0.11/kernel/sched.c:122-123 | only tasks that sleep are made runnable, although the code writes through a pointer saved before the sleep |
| WaitQueues.OnceEach | linux-0.11/kernel/sched.c:110-153 | a task is woken and resumed exactly once for each sleep that is over |
| WaitQueues.StepMoves | linux-0.11/kernel/sched.c:110-153 | how one step changes where a sleeper's chain begins and how many tasks are before it |
| WaitQueues.NoLostWakeup | linux-0.11/kernel/sched.c:110-153 | a sleeper stays on the chain of its queue until wake_up is called on it, and from then on its chain begins at a task that can run |
| WaitQueues.ChainAdvances | linux-0.11/kernel/sched.c:122-123 | each time that task resumes there is one fewer before the sleeper, so the length of the chain bounds its wait |
| WaitQueues.Drain | linux-0.11/kernel/sched.c:122-123 | a possible sequence of resumes, one for each task before the sleeper, that wakes it |
| WaitQueues.Queues.SleepOn | linux-0.11/kernel/sched.c:110-121 | the assignments before schedule are the sleep step |
| WaitQueues.Queues.Continue | linux-0.11/kernel/sched.c:122-123 | those after it are the resume step |
| WaitQueues.Queues.WakeUp | linux-0.11/kernel/sched.c:147-153 | wake_up is the wake step |
| Buckets.Size | linux-0.11/lib/malloc.c:77-87 | every bucket size divides a page |
| Buckets.BucketFor | linux-0.11/lib/malloc.c:127-134 | the smallest bucket that is large enough |
| BucketLists.MoveOk | linux-0.11/lib/malloc.c:146-168 | moving a descriptor from one list to another keeps every descriptor on exactly one list |
| HeapState.TakeObjOk | linux-0.11/lib/malloc.c:169-173 | handing out the first free object of a page keeps the partition: refcnt counts the live objects, the free list threads the others |
| HeapState.PutObjOk | linux-0.11/lib/malloc.c:206-208 | putting an object back keeps it |
| HeapState.NoneLive | linux-0.11/lib/malloc.c:208-209 | refcnt is zero exactly when no object of the page is live |
| HeapState.AddBucketOk | linux-0.11/lib/malloc.c:146-168 | a new page joins its bucket with all objects free |
| HeapState.DropBucketOk | linux-0.11/lib/malloc.c:209-229 | a page without live objects goes back, its descriptor to the free list, and no live object is lost |
| HeapState.MoreDescsOk | linux-0.11/lib/malloc.c:97-115 | a page of new descriptors is linked in front of the free ones |
| HeapState.StoreOk | linux-0.11/lib/malloc.c:169-173 | a user writing inside a live object cannot disturb the allocator |
| Kmalloc.ObjApart | linux-0.11/lib/malloc.c:117-174 | two live objects never overlap |
| Kmalloc.LastWhen | linux-0.11/lib/malloc.c:209-229 | refcnt reaches zero exactly with the last object of the page |
| Kmalloc.NothingLeft | linux-0.11/lib/malloc.c:183-232 | when everything has been given back, every page is free again except those that hold descriptors |
| Kmalloc.Allocator.constructor | linux-0.11/lib/malloc.c:77-92 | an empty allocator satisfies the invariant |
| Kmalloc.Allocator.FindBucket | linux-0.11/lib/malloc.c:127-134 | the loop finds that bucket |
| Kmalloc.Allocator.FindRoom | linux-0.11/lib/malloc.c:139-141 | a page of the bucket with a free object; none exactly if there is none |
| Kmalloc.Allocator.InitBucketDesc | linux-0.11/lib/malloc.c:97-115 | 256 more descriptors; fails exactly without a free page |
| Kmalloc.Allocator.NewBucket | linux-0.11/lib/malloc.c:146-168 | a new page for the bucket; fails exactly when there are too few pages |
| Kmalloc.Allocator.Malloc | linux-0.11/lib/malloc.c:117-174 | a new object, large enough and apart from all others, which keep what is in them; how many pages that takes; panics exactly for more than a page or without memory |
| Kmalloc.Allocator.FindPage | linux-0.11/lib/malloc.c:192-203 | the descriptor of the object's page; none exactly if the size given is larger than the bucket's |
| Kmalloc.Allocator.FreeS | linux-0.11/lib/malloc.c:183-232 | the object is gone, the others keep what is in them, and its page goes back exactly if it was the last on it |
| HeapBooks.RoomIs | linux-0.11/lib/malloc.c:139-141 | users can tell from their own objects whether some page of a bucket has room |
| HeapBooks.PagesLeft | linux-0.11/lib/malloc.c:146-168 | and how many pages are free: those given less those cut up less those of the descriptors |
| HeapBooks.SpareIs | linux-0.11/lib/malloc.c:97-115 | and whether a descriptor is left |
| HeapRuns.Step | linux-0.11/lib/malloc.c:117-232 | one malloc, free_s or word access is answered as its users' books say: a panic exactly without memory, a new page exactly without room |
| HeapRuns.Run | linux-0.11/lib/malloc.c:117-232 | so is every run, up to a panic, and the pages given are those free, those cut up and those of the descriptors |
| HeapRuns.Boot | linux-0.11/lib/malloc.c:117-232 | from the start on; once nothing is in use any more all pages but those of the descriptors are free again |
| Scheduler.Table.Pick | linux-0.11/kernel/sched.c:84-93 | of the runnable tasks with a counter of at least 0 one of greatest counter, the highest slot on ties; idle if there is none |
| Scheduler.Table.Refill | linux-0.11/kernel/sched.c:95-98 | every counter becomes half of itself plus the priority, in 32 bits |
| Scheduler.Table.Check | linux-0.11/kernel/sched.c:70-79 | expired alarms are signalled and interruptible tasks with an open signal become runnable |
| Scheduler.Table.Schedule | linux-0.11/kernel/sched.c:63-101 | ends with such a choice after as many refills as it takes to give somebody a slice; does not end exactly if the greatest counter is 0 and every runnable task has priority 0; the choice is a runnable task of greatest counter, or idle with none runnable, if and only if not all runnable tasks were below zero |
| Scheduler.RefillHelps | linux-0.11/kernel/sched.c:83-99 | a refill brings the first runnable task with a priority nearer to a slice, so the loop ends unless there is none |
| Scheduler.ChoicePromised | linux-0.11/kernel/sched.c:84-93 | what the search finds is a runnable task of greatest counter, or idle with none runnable, if and only if not all runnable tasks are below zero |
| Scheduler.OneRefill | linux-0.11/kernel/sched.c:83-99 | while no counter is below zero, one refill is enough |
| Scheduler.NeverEnds | linux-0.11/kernel/sched.c:83-99 | and then no number of rounds changes that |
| Scheduler.RefillBounded | linux-0.11/kernel/sched.c:95-98 | a refill keeps each counter between 0 and twice the largest priority its task has held, if and only if no sum comes to 2^31 |
| Scheduler.ModestFits | linux-0.11/kernel/sched.c:95-98 | none does while no task has held a priority above 2^30 |
| Scheduler.Table.DoTimer | linux-0.11/kernel/sched.c:214-220 | a tick takes one from the slice, in 32 bits; a user task that has run out gets a new one before schedule |
| Scheduler.Table.Nice | linux-0.11/kernel/sched.c:273-278 | the priority drops by any 32-bit increment exactly if the result is neither negative nor past 2^31, so it never is negative |
| Scheduler.Table.Fork | linux-0.11/kernel/fork.c:33-77 | the child's counter is the parent's priority |
| SchedulerRuns.ChoiceIs | linux-0.11/kernel/sched.c:84-93 | the choice of schedule is a function of the table: the last slot of greatest counter among those it sees |
| SchedulerRuns.HungWhen | linux-0.11/kernel/sched.c:63-101 | a step hangs exactly if it reschedules while the greatest counter is 0 and all runnable tasks have priority 0 |
| SchedulerRuns.PassedOver | linux-0.11/kernel/sched.c:83-100 | a step that reschedules turns to idle while others can run exactly if all of those are below zero, and it then refills none of them |
| SchedulerRuns.HeldLargest | linux-0.11/kernel/sched.c:273-278 | the history of a run is, for each slot, the largest priority that its task has held since it came |
| SchedulerRuns.RunBounded | linux-0.11/kernel/sched.c:63-101 | in all states of a run so far each counter is between 0 and 2p-1, p being that largest priority, if and only if no step so far had a refill that came to 2^31 |
| SchedulerRuns.ModestRun | linux-0.11/kernel/sched.c:63-101 | and no step has one in a run in which no priority is ever above 2^30 |
| SchedulerRuns.Step | linux-0.11/kernel/sched.c:63-278 | a tick, yield, nice, fork, change of state, alarm, signal or release is the step of the reference, and hangs exactly when it does |
| SchedulerRuns.Run | linux-0.11/kernel/sched.c:63-278 | and so is every run, with any increments |
| SchedulerRuns.Boot | linux-0.11/kernel/sched.c:63-278 | from a single idle task on, with the bound in its states exactly as long as no refill comes to 2^31 |
| SchedulerRuns.StuckRun | linux-0.11/kernel/sched.c:83-99 | a fork, a yield, a nice of 1 and a tick: schedule never returns |
| SchedulerRuns.WrapRun | linux-0.11/kernel/sched.c:83-100 | from the kernel's own idle task: a task takes priority 2147483647 and sleeps, another runs out, the counter of the first wraps around, and when it is woken schedule turns to idle |
| RingQueues.ItemsAppend | linux-0.11/include/linux/fs.h:58-63 | bytes stored at the head of a ring, across the wrap or not, are appended to what it holds |
| Pipes.Pipe.Read | linux-0.11/fs/pipe.c:13-39 | takes from the front what there is, up to the count; sleeps or returns as the source does |
| Pipes.Pipe.Write | linux-0.11/fs/pipe.c:41-69 | appends what fits; the page never holds more than 4095 bytes |
| Pipes.Run | linux-0.11/fs/pipe.c:13-69 | whatever the order of the turns, the ring is a bounded queue |
| Pipes.Boot | linux-0.11/fs/pipe.c:13-69 | the same from a new pipe on |
| Pipes.InOrder | linux-0.11/fs/pipe.c:13-69 | what was accepted is what was delivered followed by what is still there: nothing lost, doubled or reordered |
| InodeState.EvictMeaning | linux-0.11/fs/inode.c:194-226 | reusing a clean slot changes no inode |
| InodeState.WriteOutOk | linux-0.11/fs/inode.c:314-338 | write_inode changes no inode for its users |
| InodeState.FreeOk | linux-0.11/fs/bitmap.c:106-133 | freeing an inode clears its bit and keeps the others |
| InodeState.AllotOk | linux-0.11/fs/bitmap.c:135-167 | a new inode gets a free number and keeps the others |
| InodeTable.Table.constructor | linux-0.11/fs/inode.c:15-15 | an empty table over a mounted file system satisfies the invariant |
| InodeTable.Table.GetEmptyInode | linux-0.11/fs/inode.c:194-226 | an unused slot, wiped; panics exactly if all are used; no inode changes |
| InodeTable.Table.FindEmpty | linux-0.11/fs/inode.c:200-210 | the round of the table from the last slot taken finds an unused clean slot whenever there is an unused one |
| InodeTable.Table.WriteInode | linux-0.11/fs/inode.c:314-338 | a dirty slot with a device is copied to the disk |
| InodeTable.Table.Iget | linux-0.11/fs/inode.c:244-292 | one more user of the inode's only slot, which holds the inode's content; no inode changes |
| InodeTable.Table.Iput | linux-0.11/fs/inode.c:150-192 | one user less; with the last one an inode without links is freed and any other is on the disk |
| InodeTable.Table.FreeInode | linux-0.11/fs/bitmap.c:106-133 | the bit is cleared and the slot wiped |
| InodeTable.Table.NewInode | linux-0.11/fs/bitmap.c:135-167 | the first free number, in a dirty slot; refused exactly without a number, panics exactly without a slot |
| InodeTable.Table.SyncInodes | linux-0.11/fs/inode.c:59-70 | no slot stays dirty and the disk holds every inode |
| InodeRuns.FullWhen | linux-0.11/fs/inode.c:211-216 | the table is full exactly when 32 inodes are held |
| InodeRuns.Step | linux-0.11/fs/inode.c:150-338 | iget, iput, an edit, new_inode or sync answers as one array of inodes does |
| InodeRuns.Run | linux-0.11/fs/inode.c:150-338 | every run does |
| InodeRuns.Boot | linux-0.11/fs/inode.c:150-338 | and every run from an empty table |
| Directories.NameOfPadded | linux-0.11/fs/namei.c:205-208 | a name of at most 14 bytes is read back from its padded field |
| Directories.EnterTable | linux-0.11/fs/namei.c:162-217 | add_entry with the store of the number is insertion into a finite map, and names stay unique |
| Directories.EraseTable | linux-0.11/fs/namei.c:707-710 | storing 0 is deletion |
| Directories.Directory.Match | linux-0.11/fs/namei.c:63-75 | the entry is live and its name is the name |
| Directories.Directory.FindEntry | linux-0.11/fs/namei.c:88-150 | finds the entry whose name is the first 14 bytes, ".." being "." in the root; fails exactly if there is none |
| Directories.Directory.AddEntry | linux-0.11/fs/namei.c:162-217 | the first free entry, or a new one at the end, gets the name cut to 14 bytes |
| Directories.Directory.SetInode | linux-0.11/fs/namei.c:382-383 | the number goes into the entry |
| LinkCounts.CreateInv | linux-0.11/fs/namei.c:367-387 | a new file's entry is insertion into the directory's map, and link counts stay entry counts |
| LinkCounts.LinkInv | linux-0.11/fs/namei.c:718-775 | link is insertion, and the counts stay right if and only if there were fewer than 255 links |
| LinkCounts.UnlinkInv | linux-0.11/fs/namei.c:660-716 | unlink is deletion and one link less |
| LinkCounts.MkdirInv | linux-0.11/fs/namei.c:460-535 | a new directory keeps counts and tree, in which every directory leads up to the root, if and only if its parent had fewer than 255 links |
| LinkCounts.RmdirInv | linux-0.11/fs/namei.c:584-658 | an empty directory has exactly two links, so the warning cannot occur; its removal is deletion, keeps tree and counts, and nothing names it any more |
| LinkCounts.LeafRefs | linux-0.11/fs/namei.c:540-582 | an empty directory is named by its entry and its own "." only |
| TreeRuns.StepInv | linux-0.11/fs/namei.c:334-775 | a step keeps unique names, tree and counts if and only if it does not make a 256th link |
| TreeRuns.RunInv | linux-0.11/fs/namei.c:334-775 | so does every run without such a step |
| TreeRuns.BareInv | linux-0.11/tools/mkfs.c:117-141 | a file system with only a root directory satisfies all of it |
| TreeRuns.TooManyLinks | linux-0.11/fs/namei.c:718-775 | a tree with 255 links to one file, reached from there; with one link more the count is 0 |
| Descriptors.CountBound | linux-0.11/fs/fcntl.c:31-33 | f_count never exceeds the number of descriptor slots, so it cannot wrap |
| Descriptors.ShareOk | linux-0.11/fs/fcntl.c:18-34 | one more slot for a file in use keeps f_count the number of slots that lead to it |
| Descriptors.TakeOk | linux-0.11/fs/open.c:145-184 | and so does a free file entry in a free slot, which owns one reference to its inode |
| Descriptors.DropOk | linux-0.11/fs/open.c:192-208 | and so does emptying a slot; the inode is released exactly with the last |
| Descriptors.Table.constructor | linux-0.11/fs/file_table.c:9-9 | empty tables satisfy the invariant |
| Descriptors.Table.Open | linux-0.11/fs/open.c:138-185 | the lowest free descriptor leads to the first free entry; fails as the source does, with nothing changed |
| Descriptors.Table.Close | linux-0.11/fs/open.c:192-208 | the slot is empty; with the last slot the inode is released |
| Descriptors.Table.Dupfd | linux-0.11/fs/fcntl.c:18-34 | the lowest free descriptor from arg on leads to the same file |
| Descriptors.Table.Dup2 | linux-0.11/fs/fcntl.c:36-40 | newfd is closed first, so a descriptor duplicated onto itself ends up closed |
| Descriptors.Table.Pipe | linux-0.11/fs/pipe.c:71-111 | two entries and two descriptors for one inode with two users, or nothing changed, and exactly when |
| Descriptors.Table.Fork | linux-0.11/kernel/fork.c:68-70 | the child has the parent's descriptors and every count is right |
| Descriptors.Table.Exit | linux-0.11/kernel/exit.c:115-117 | the task has no descriptors and every count is right |
| DescriptorRuns.FullWhen | linux-0.11/fs/open.c:153-158 | the file table is full exactly when 64 different open files are in use |
| DescriptorRuns.Step | linux-0.11/fs/open.c:138-208 | each call answers as a machine does in which every open makes a file that is never reused |
| DescriptorRuns.Run | linux-0.11/fs/open.c:138-208 | and so does every run of open, close, dup, dup2, pipe, fork and exit |
| DescriptorRuns.Boot | linux-0.11/fs/open.c:138-208 | from empty tables on |
| DescriptorRuns.DupOntoItself | linux-0.11/fs/fcntl.c:36-40 | a descriptor duplicated onto itself is closed, and the call fails |
| LineDiscipline.KillIs | linux-0.11/kernel/chr_drv/tty_io.c:148-162 | the kill character removes the unfinished line and nothing before it |
| LineDiscipline.EraseIs | linux-0.11/kernel/chr_drv/tty_io.c:163-188 | the erase character removes at most the last byte of the unfinished line |
| LineDiscipline.TypeReady | linux-0.11/kernel/chr_drv/tty_io.c:131-226 | every character typed keeps secondary.data the number of complete lines |
| LineDiscipline.CookReady | linux-0.11/kernel/chr_drv/tty_io.c:131-226 | and so does any input |
| LineDiscipline.PopReady | linux-0.11/kernel/chr_drv/tty_io.c:268-279 | taking a byte keeps it right if and only if the byte is no end-of-file character from 128 on |
| LineDiscipline.DeliverReady | linux-0.11/kernel/chr_drv/tty_io.c:228-295 | so with an end-of-file character below 128 every read keeps it right |
| Terminals.Terminal.TypeOne | linux-0.11/kernel/chr_drv/tty_io.c:135-224 | one round of the loop on the rings is the pure step on sequences, echo included |
| Terminals.Terminal.CopyToCooked | linux-0.11/kernel/chr_drv/tty_io.c:131-226 | the whole loop is the pure fold, and no ring overflows |
| Terminals.Terminal.Poll | linux-0.11/kernel/chr_drv/console.c:62-75 | characters that find the read queue full are lost, the others are cooked in order |
| Terminals.Terminal.Read | linux-0.11/kernel/chr_drv/tty_io.c:228-295 | a new call in canonical mode: begins to wait exactly without a complete line and without a nearly full queue, otherwise delivers from the front up to the count or an end of file |
| Terminals.Terminal.Turn | linux-0.11/kernel/chr_drv/tty_io.c:256-267 | a turn of a reader that waits: it polls, and goes on waiting exactly without a complete line |
| TerminalRuns.Step | linux-0.11/kernel/chr_drv/tty_io.c:131-295 | input, a call or a turn on the terminal is the step on sequences |
| TerminalRuns.Run | linux-0.11/kernel/chr_drv/tty_io.c:131-295 | and so is every run of them, with reading in canonical mode |
| TerminalRuns.Boot | linux-0.11/kernel/chr_drv/tty_io.c:131-295 | from empty queues on, answers and echo included |
| TerminalRuns.LinesCounted | linux-0.11/kernel/chr_drv/tty_io.c:131-295 | in every run secondary.data counts the complete lines and the queue never exceeds 1023 bytes, for an end-of-file character below 128 |
| TerminalRuns.NeverReturns | linux-0.11/kernel/chr_drv/tty_io.c:256-267 | in canonical mode, once a full queue has no line end, or no character ends a line, no waiting reader gets anything in any run without a new call, whatever is typed; if the queue is full, what is typed changes nothing, so it sends no signal either |
| TerminalRuns.CanReturn | linux-0.11/kernel/chr_drv/tty_io.c:256-267 | and otherwise some run gives it something: if and only if |
| TerminalRuns.LongLineHangs | linux-0.11/kernel/chr_drv/tty_io.c:256-267 | at the console's first settings: a reader waits, 1023 letters are typed, and it never returns |
| TerminalRuns.HighEof | linux-0.11/kernel/chr_drv/tty_io.c:268-279 | with an end-of-file character of 200: a complete line is left that is not counted, and the next reader waits |
| ExecArgs.ArgPages.CopyStrings | linux-0.11/fs/exec.c:77-107 | the strings stand one after the other right below the given place, in exactly the pages that takes; fails exactly if there are too few free pages or nothing of the area is left; page[] is indexed in bounds if and only if they fit or the pages run out first |
| ExecArgs.ArgPages.CreateTables | linux-0.11/fs/exec.c:31-55 | the tables and the three words below them, or the process is ended, exactly if they would leave the lowest page of the strings |
| ExecArgs.ArgPages.SetUp | linux-0.11/fs/exec.c:210-262 | the outcome, in numbers, and, if the program starts, that following the words at its stack pointer gives argc and every string of argv and envp |
| ExecArgs.OnePageIs | linux-0.11/fs/exec.c:31-43 | the tables fit if and only if their size is at most the place of the strings within its page |
| ExecArgs.StartedIs | linux-0.11/fs/exec.c:31-55 | so no program starts with more than 1018 strings, and none without any |
| ExecArgs.LongArgument | linux-0.11/fs/exec.c:31-55 | one argument of 4091 characters ends the process although there is memory enough |
| ExecArgs.TooLongArgument | linux-0.11/fs/exec.c:92-93 | one argument of 131068 characters, with memory enough, is copied past the end of page[] |
| ExecImage.ReadFile | linux-0.11/fs/exec.c:110-130 | the bytes of the blocks bmap names, block 0 standing in for holes; panics exactly past the end of the largest file |
| ExecImage.SeenRight | linux-0.11/fs/exec.c:121-123 | a byte read so is the byte of the file if and only if it is in no hole or block 0 has a zero there |
| ExecImage.AddressSpace.LoadSegment | linux-0.11/fs/exec.c:132-163 | every page of the segment is mapped with the bytes the offsets name; fails exactly if pages and page tables take more than there is; panics exactly at a page that reads past the largest file and that memory suffices for |
| ExecImage.AddressSpace.LoadAll | linux-0.11/fs/exec.c:232-249 | every page is as the last segment that touches it says; the first header that is refused, does not fit or panics decides |
| ExecImage.SegmentRight | linux-0.11/fs/exec.c:132-163 | for every header that is accepted and loaded: every byte of the segment is the file's byte and the tail is zero, if and only if its end does not wrap around and each byte is clean: no bad hole, nothing read from where a wrapped offset leads, nothing missed |
| ExecImage.WrappedLoads | linux-0.11/fs/exec.c:137-140 | of a segment whose end wraps around at most the first page is loaded |
| ExecImage.ProgramRight | linux-0.11/fs/exec.c:232-249 | a segment of any program that is accepted and loaded is right if and only if its end does not wrap around and, for each of its bytes, the last segment in that page puts there what this one wants |
| ExecImage.ApartRight | linux-0.11/fs/exec.c:232-249 | for segments that share no page: if and only if it does not wrap and each byte is clean |
| ExecImage.OverlapLoses | linux-0.11/fs/exec.c:232-249 | two segments of one byte in one page: both are accepted and fit, and the first is lost |
| ExecImage.CongruentClean | linux-0.11/fs/exec.c:132-163 | segments with offset congruent to address and without holes are clean |
| ExecImage.FirstPageLost | linux-0.11/fs/exec.c:142-146 | a segment further into its page than its bytes are into the file loses its first page |
| ExecImage.HoleShows | linux-0.11/fs/exec.c:121-123 | a hole over a non-zero byte of block 0 is loaded wrong |
| ExecImage.BssFromFile | linux-0.11/fs/exec.c:142-151 | a segment without bytes in the file whose second page gets the file's first bytes |

## Left out

- Memory.Mm.CopyProcess: for a moment the child's slot holds a copy of the parent's directory pointer; the model enters the child without an address space, and no step sees the difference.
- Memory.Mm.NewSpace: takes the pages of an image in the order given, not in the order in which exec allocates argument pages, directory and segments.
- Memory.Mm.UserFetch: one fetch needs one page; an instruction across two pages is two fetches.
- PrivateMemory.Run: ends at a fork while some count is 255, after which the unsigned char would wrap; that takes 191 losses of one frame.
- PrivateMemory.Step: refuses stores and verify_area of a task without a directory, whose addresses are physical.
- FileLayer.Fs.FreeBlock: does not model the message for a block whose buffer somebody else holds, which a sequential run does not reach.
- FileLayer.Fs.constructor: takes the number of zones as the kernel compares it with block numbers; tools/mkfs.c stores the number of data zones there.
- FileBytes.FileWrite: takes the block of a full device as the only failure; a block of the ram disk can always be read.
- FileRuns.Step: opening, closing and sharing of open files are in Descriptors; devices and pipes are not files here.
- BufferCache.Buffers.Getblk: no buffer is ever found locked, because the ram disk ends each request before the caller goes on.
- CacheRuns.Step: no step for free_block, which makes a block mean whatever the ram disk holds; FileLayer takes that as a parameter and clears the block before its next use.
- BufferCache.Buffers.SyncDev: the inode table's part of sync_dev is InodeTable.Table.SyncInodes.
- Block numbers so large that the address arithmetic of the ram disk would wrap.
- block_write in fs/block_dev.c, whose full-block path marks a buffer dirty without marking it up to date.
- InodeTable.Table.Iget: of allocated inodes, which are what directory entries name; without mount points; i_count is not bounded.
- InodeTable.Table.Iput: without pipes and block devices; truncation of the file is FileLayer.Fs.Truncate.
- Directories.Directory.FindEntry: for directories without holes and without mount crossing.
- LinkCounts.MkdirInv: for a sys_mkdir that succeeds; what it does without room is MkdirBlocks.Mkdir.
- LinkCounts.CreateInv: sys_mknod takes a mode from the super-user that may say directory; such an inode, which has neither entries nor a block, is not created here.
- MkdirBlocks.Mkdir: takes the block of the parent with the first free entry as given; a block of the ram disk can always be read.
- Signed sums that do not fit into 32 bits are taken to wrap around, as the machine's do; the language leaves them open.
- Descriptors.Table.Open: does not model what opening a terminal does to the process.
- Kmalloc.Allocator.FreeS: leaves out the second search for the predecessor, which is for interruptions between the search and the removal.
- WaitQueues.StepInv: uninterruptible sleeps only; interruptible_sleep_on is used by no driver that is built.
- SchedulerRuns.Run: no claim about fairness, since a tick refills an expired task before it calls schedule; alarms are unbounded.
- Pipes.Pipe.Write: signals do not interrupt a call.
- Terminals.Terminal.Read: canonical mode only; reading in raw mode, with its minimum and time-out, is not modelled.
- Terminals.Terminal.Turn: for a reader to whom no signal is pending; a signal, such as an interrupt character sends from a queue that is not full, ends the wait.
- TerminalRuns.CanReturn: says when a reader can get bytes; that a signal may end its wait is not counted as such.
- Terminals.Terminal.TypeOne: IUCLC, which calls tolower, is off.
- ExecArgs.ArgPages.CopyStrings: says nothing of what follows once page[] is indexed past its end.
- ExecArgs.ArgPages.CreateTables: no segment is mapped right below the argument area.
- ExecImage.ReadFile: its -EIO cannot occur on the ram disk.
- ExecImage.AddressSpace.LoadAll: takes the program headers as given; reading them is ReadFile, with its panic.
- The layers are joined by their contracts only: FileLayer works on blocks as the logical disk of CacheRuns shows them, InodeTable on inodes as blocks hold them, and ExecImage counts frames instead of using Memory.
- Mount and umount, permissions, ids, times, stat, ioctl, signal frames, waiting for children, timers: little proof depth.
- Boot code, traps, device registers, drivers that are not built, the C library, user programs.
