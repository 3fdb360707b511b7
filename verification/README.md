# xv6 coursework kernels: verified models

The repository holds four copies of the xv6 teaching kernel with coursework in them. This project models
the parts with the hardest invariants, mostly from the mp2 copy and its user programs, and proves what
these parts are there for. Each file is one component:

- `LogDisk`, `LogMachine`, `LogProtocol`: the redo log. Recovery as a function on disk images; the code of
  `log.c`, write by write, over a ghost record of every disk that a crash can leave behind; and the
  protocol of concurrent operations, group commit, crashes and recoveries as a state machine. `LogRuns` takes
  its commits and recoveries to their ends, and one write from the buffer to the disk.
- `Lists`, `BufferCache`: the circular list of `list.h`, and the buffer cache with its ring in order of use.
- `LogLimits`: what bounds a transaction besides the share of each operation: the size of the log area and the
  number of buffers, with runs that reach both bounds.
- `FreeList`, `Umalloc`: the circular, address-ordered, coalescing free list of the user-level allocator.
- `Sv39`, `Vm`: three-level page tables as words of physical memory, the free list of pages, and the
  operations on user address spaces. A ghost map says of every page what it is used for, which makes
  conservation of pages a statement about single pages. Which calls fail for want of pages is said exactly, by
  the frames and the tables that they need.
- `ProcMem`: the user memory of processes, as `proc.c` builds it with `Vm`: every page below the size of a
  process lies in a frame of its own, in every state and after every failure, so that fork, growth and the
  end of a process ask nothing of their caller.
- `FsBlocks`, `Fs`: the block bitmap, the block map of inodes, and file contents as flat bytes, with the
  number of blocks each operation logs. The same kind of ghost map says which slot of which file has a block:
  outside the calls a set bit means metadata or just one slot. How far the memory of the caller can be reached is
  an argument. `FsRoom` counts the free blocks that a write needs. `FsTight` has the file whose next chunk fills
  the log reservation to the last block, and one with a hole whose next chunk goes beyond it.
- `Slab`: the slab allocator, with its three lists of slabs and the objects in the cache's own page.
- `Virtio`: the block driver, with the index test of mp2 and that of mp4, and a device that takes chains of
  descriptors, reads them by their flags and lengths, and serves them in any order or fails at them. It takes
  any number of steps between any two writes of the driver, whether that holds its lock or not.
- `SleepLock`, `Processes`: sleep locks over sleep and wakeup, and fork, exit, wait and kill, as steps of
  interleaved processes. Spinlocks are atomic; a step is what happens between two lock operations.
  `ProcessRuns` takes the calls to their ends.
- `Raid`: the mirrored buffer layer of mp4 under injected faults.
- `Grep`, `Shell`: the pattern matcher and the line loop of grep; the tokens, the parser and the in-place
  NUL termination of the shell.
- `Basics`: constants and a few facts about sets that several of these share.

Where the source updates something in place there is a class, and its methods are proved against functions
and predicates on values; the lemmas are about those. Invariants that are expensive to unfold stand behind a
quantifier over a predicate that is always true, so that only the lemmas that mention it see inside.

What was found where code and intention part:

- `malloc` of the user library passes `nu * sizeof(Header)` to `sbrk`, which takes an `int`. Up to
  0x7fffffe0 bytes the two agree, above that never (`Umalloc.RequestedArea`); `Malloc` reports the case as
  `overrun`.
- `kmem_cache_create` links at least one object into the cache's own page, even if there is no room for
  it; that page holds its objects exactly up to 3976 bytes an object (`Slab.InCacheFits`). Objects below 8
  bytes would not hold a link. `Slab` covers sizes from 8 to 3976.
- `log_write` tests for room before it looks whether the block is in the list already, and against the size
  of the log area. In every run it panics exactly when the list has `min(LOGSIZE, size - 1)` blocks
  (`LogProtocol.ReservationSuffices`). For an operation that has not used up its share there is a run in which
  it does, exactly if `size <= LOGSIZE` (`LogLimits.ShareIsSafe`), as with the `nlog` of mp3/xv6/mkfs/mkfs.c:25.
- A transaction that fits the log need not fit the buffer cache, which has LOGSIZE buffers, too. While a commit
  copies, all blocks of its list are pinned, and it needs one buffer more; `bread` panics exactly if those
  blocks and the ones that readers hold are all 30 (`LogLimits.CommitReads`). Without any reader that is
  possible exactly if `size > LOGSIZE` (`LogLimits.CommitFits`).
- The mirrored layer keeps what was written under any flags but one pair: with Disk 1 and the first copy of
  a block both out, a write reaches neither copy (`Raid.ReadsBackExactly`). A second fault that replaces the
  first one can lose data: `Raid.SecondFaultLoses` reads stale data through `bread`, with the block in a valid
  buffer. `Raid.SurvivesExactly` gives the exact condition, over the flags at the write and those at the read,
  under which a read returns what was written.
- `grep` stops reading at the first line that does not fit into its buffer with its newline, or has none: it
  misses a matching line exactly if one matches from there on (`Grep.SelectsAllExactly`), such as one behind a
  line of 1023 characters (`Grep.LosesLine`), or a last line without newline (`Grep.LosesLast`).
- All buffers of the cache start out as block 0 of device 0, and stay so until they are recycled, so that several
  may be for that block. At most one of them is ever in use, the first one in the ring (`BufferCache.OneInUse`).
- The last reference to a buffer may go before its data are on the disk; recycling the buffer then loses them,
  and only then (`BufferCache.Recycled`).
- After `&` the shell's grammar goes on only with `;` (`Shell.NoSeparator`): `a & b` is a syntax error
  (`Shell.TypedAmpersand`). Every command tree can be written all the same, with parentheses
  (`Shell.TypedTreeParses`).
- A chunk of `filewrite` logs at most six blocks and as many of the bitmap as there are, up to four, or up to
  five if it starts inside a block that is missing (`Fs.ChunkFits`). Both bounds are reached (`FsTight.Append`):
  the ten blocks of the reservation are needed, on a disk with four bitmap blocks, and they suffice because
  `writei` leaves no holes.
- `growproc` has no test for the pages at the top of the address space. It cannot run into them all the same,
  because there is not that much memory below PHYSTOP (`ProcMem.Memory.SizeBound`, `ProcMem.Memory.Growproc`).
- A kill can be lost: `wait` asks `killed()` and lets go of `p->lock` before `sleep` takes it again. A process that
  is killed in between sleeps until a child exits or it is killed once more (`ProcessRuns.KillLost`); in every
  run that is the only moment (`ProcessRuns.KilledSleeper`, `ProcessRuns.KillLasts`).
- Shrinking a process by more than its size changes nothing and reports success, because the sum wraps around
  (`ProcMem.Memory.Growproc`).

`dafny verify dfyconfig.toml` checks the whole project.

## Model

| member | source | states |
|---|---|---|
| `LogDisk.PutHeader` | mp2/kernel/log.c:102-114 | A header that was written is read back as the same list of blocks, for every list that fits. |
| `LogDisk.RecoveredIsLogical` | mp2/kernel/log.c:116-123 | Recovery leaves every home block at its logged copy if the header names it, else as it was, and an empty log. |
| `LogDisk.RecoveryRestarts` | mp2/kernel/log.c:68-83 | Cutting recovery off after any of its writes does not change the disk that a later recovery produces. |
| `LogDisk.RecoveryIdempotent` | mp2/kernel/log.c:116-123 | Recovering a recovered disk changes nothing. |
| `LogDisk.RecoverySurvivesCrashes` | mp2/kernel/log.c:116-123 | Any number of crashed boots, cut off anywhere, followed by one that gets through, gives the disk of one clean recovery. |
| `LogDisk.HeaderCommits` | mp2/kernel/log.c:193-203 | The header write switches, in one write, all logged blocks from their old to their new contents. |
| `LogDisk.HeaderErased` | mp2/kernel/log.c:193-203 | Erasing the header after installation changes no block a reader is entitled to. |
| `LogDisk.CommitImagesAt` | mp2/kernel/log.c:193-203 | Which disk each of the 2n+2 writes of a commit leaves behind. |
| `LogDisk.CommitWindow` | mp2/kernel/log.c:177-203 | After a crash behind any write of a commit, recovery gives all home blocks old, or all of them new; from the header write on, new. |
| `LogDisk.CommitRecovers` | mp2/kernel/log.c:193-203 | Of all the disks that the writes of a commit leave behind, those before the header write recover to the old home blocks, and all others to the new ones. |
| `LogDisk.CommitImageStep` | mp2/kernel/log.c:177-203 | Each disk of a commit is the one before it with one write: a log block, the header, a home block from its copy in the log, the empty header. |
| `LogDisk.RecoveryWindow` | mp2/kernel/log.c:116-123 | After a crash behind any write of recovery, recovery gives the same disk. |
| `LogMachine.Log.WriteLog` | mp2/kernel/log.c:178-191 | Its writes, in order, are the cached contents of the logged blocks, into the log area. |
| `LogMachine.Log.WriteHead` | mp2/kernel/log.c:102-114 | One write: the header with the current list. |
| `LogMachine.Log.ReadHead` | mp2/kernel/log.c:86-97 | The in-memory list becomes the one on disk. |
| `LogMachine.Log.InstallTrans` | mp2/kernel/log.c:68-83 | Its writes, in order, copy each logged block home; each block loses one pin, none in recovery. |
| `LogMachine.Log.RecoverFromLog` | mp2/kernel/log.c:116-123 | Ends in the recovered disk, through exactly the disks that the crash theorems speak of; each of them recovers to the same disk. |
| `LogMachine.Log.Commit` | mp2/kernel/log.c:193-203 | Leaves exactly the sequence of disks of the crash theorems: each before the header write recovers to the old home blocks, each from it on to the new; every pin of log_write is released once. |
| `LogMachine.Log.LogWrite` | mp2/kernel/log.c:214-235 | When it panics; otherwise absorption: a block is appended and pinned only if it is not in the list. |
| `LogMachine.Log.TryBeginOp` | mp2/kernel/log.c:126-142 | An operation starts exactly if no commit runs and the log has room for the worst case of all operations. |
| `LogMachine.Log.EndOp` | mp2/kernel/log.c:146-175 | Only the last operation to leave commits, and the others leave the disk alone. |
| `LogProtocol.CrashAtomicity` | mp2/kernel/log.c:126-203 | In every run of interleaved operations, commits, crashes and recoveries, a crash at any point recovers to the effect of a prefix of the logged writes that splits no operation. |
| `LogProtocol.StepKeepsCommitted` | mp2/kernel/log.c:193-203 | No step, a crash included, takes back a committed write. |
| `LogProtocol.CommittedStays` | mp2/kernel/log.c:193-203 | What is committed at one point of a run is committed at every later one. |
| `LogProtocol.QuiescentIsDurable` | mp2/kernel/log.c:146-175 | When no operation runs and no commit, all logged writes are on the disk at home. |
| `LogProtocol.ReadersSeeLoggedWrites` | mp2/kernel/log.c:178-191 | A reader of a block that nobody is changing sees all writes logged so far, also in the middle of a commit. |
| `LogProtocol.ReservationSuffices` | mp2/kernel/log.c:126-142 | In every run the reservation covers each operation: end_op never panics, and log_write panics exactly if the list has grown to the log area less one block, or to the reserved size. |
| `LogLimits.ShareIsSafe` | mp2/kernel/log.c:214-235 | There is a run in which an operation within its share holds a buffer on which log_write panics, exactly if the log area has at most LOGSIZE blocks. |
| `LogLimits.CommitReads` | mp2/kernel/log.c:177-191 | The first bread of a commit panics for want of a buffer exactly if the pinned blocks of its list and the blocks that readers hold are as many as there are buffers. |
| `LogLimits.CommitFits` | mp2/kernel/log.c:126-203 | A run reaches a commit whose own blocks take all buffers exactly if the log area has more than LOGSIZE blocks. |
| `LogProtocol.CommitIsAlone` | mp2/kernel/log.c:146-175 | While a commit copies and installs, no step changes the list of blocks, the history or the set of operations. |
| `LogProtocol.CommitBegins` | mp2/kernel/log.c:193-199 | A commit of the protocol begins with the cached contents of all blocks of its list. |
| `LogProtocol.CommitStep` | mp2/kernel/log.c:177-203 | Each write of the protocol during a commit is the next write of the commit of log.c, from the same disk with the same data; the steps of others leave disk and list alone. |
| `LogProtocol.StepInv` | mp2/kernel/log.c:126-235 | Every step of the protocol keeps its invariant. |
| `LogRuns.CommitEnds` | mp2/kernel/log.c:177-203 | From every state in which a commit runs its own steps bring it to its end, with all that was logged durable and at home on the disk. |
| `LogRuns.RecoveryEnds` | mp2/kernel/log.c:116-123 | From every state behind a crash recovery comes to its end, with exactly the committed writes at home on the disk. |
| `LogRuns.EndOpEnds` | mp2/kernel/log.c:146-175 | end_op comes to its end: at once if others go on, and with all that was logged at home on the disk if it is the last. |
| `LogRuns.WriteSurvives` | mp2/kernel/log.c:126-235 | What an operation writes into a buffer that it has locked and then logs becomes the next write of the history, under its number; once that is durable it is there for good, crashes included. |
| `LogRuns.BeginsFresh` | mp2/kernel/log.c:126-142 | begin_op starts an operation under a number that no write in the history and no other operation has; it can end at once. |
| `LogRuns.CacheUnseen` | mp2/kernel/bio.c:58-103 | A block that the cache brings in or drops by itself reads the same before and after, at every moment of a transaction. |
| `BufferCache.Cache.constructor` | mp2/kernel/bio.c:36-53 | The ring lists all 30 buffers, each once, and none of them is in use. |
| `BufferCache.Cache.Bget` | mp2/kernel/bio.c:58-89 | Gives the one buffer in use for the block, which is the first in the ring that is for it, or recycles the least recently used buffer without references; fails exactly if the block has no buffer and all are referenced. No block changes its contents, unless the recycled buffer had unsaved data. |
| `BufferCache.Cache.Bread` | mp2/kernel/bio.c:92-103 | The buffer holds what the block stands for, cached or on disk, on any device. |
| `BufferCache.Cache.Bwrite` | mp2/kernel/bio.c:106-112 | The disk gets the data of the buffer; no block stands for anything else than before. |
| `BufferCache.Cache.Brelse` | mp2/kernel/bio.c:116-137 | The count drops by one; at zero the buffer moves to the front of the ring, and all others keep their order. Unreferenced buffers stay droppable without loss if this one is saved, or keeps a reference. |
| `BufferCache.Cache.Bpin` | mp2/kernel/bio.c:139-144 | One more reference, so that the buffer is not recycled. |
| `BufferCache.Cache.Bunpin` | mp2/kernel/bio.c:146-151 | One reference less, with the same condition for the loss of data. |
| `BufferCache.Recycled` | mp2/kernel/bio.c:73-84 | Giving an unreferenced buffer to another block loses something exactly if it has data that are not on the disk. |
| `BufferCache.OneInUse` | mp2/kernel/bio.c:58-89 | Of the buffers for one block, on any device, one at most is referenced or valid; it is the first of them in the ring. |
| `BufferCache.RoomExactly` | mp2/kernel/bio.c:73-88 | An unreferenced buffer is left exactly if fewer blocks are in use than there are buffers. |
| `BufferCache.Touched` | mp2/kernel/bio.c:122-133 | Unlinking a buffer and linking it behind the head is the move to the front of the order. |
| `FreeList.Canonical` | mp2/user/umalloc.c:24-44 | The free list is determined by the set of free units: sorted, disjoint, no two blocks touching leaves one choice. |
| `FreeList.LinkCycle` | mp2/user/umalloc.c:24-44 | Relinking with both joins gives again one sorted, coalesced cycle. |
| `FreeList.LinkUnits` | mp2/user/umalloc.c:24-44 | Exactly the units of the freed block become free. |
| `FreeList.RemoveCycle` | mp2/user/umalloc.c:72-74 | Unlinking a block leaves one sorted, coalesced cycle. |
| `FreeList.CutCycle` | mp2/user/umalloc.c:75-79 | Cutting the tail off a block leaves one sorted, coalesced cycle. |
| `FreeList.CutUnits` | mp2/user/umalloc.c:75-79 | Exactly the units of the tail stop being free. |
| `Umalloc.Units` | mp2/user/umalloc.c:68 | The least number of units that hold the bytes and a header. |
| `Umalloc.RequestedArea` | mp2/user/umalloc.c:46-61 | sbrk, which takes an int, is asked for the area the new header claims exactly up to 0x7fffffe0 bytes. |
| `Umalloc.FreeOwned` | mp2/user/umalloc.c:24-44 | Freeing keeps the partition of the units obtained into free and allocated ones. |
| `Umalloc.Heap.FindGap` | mp2/user/umalloc.c:30-32 | The loop ends, at the block behind which the freed one belongs. |
| `Umalloc.Heap.Free` | mp2/user/umalloc.c:24-44 | The block leaves the allocated ones and lies inside one free block; the list stays one sorted, coalesced cycle. |
| `Umalloc.Heap.Store` | mp2/user/umalloc.c:63-90 | Whatever a client writes into a block that it has, the heap stays intact, and no header or free block is changed. |
| `Umalloc.Heap.Morecore` | mp2/user/umalloc.c:46-61 | One call of sbrk, which is recorded with its answer, for the units needed or MIN_UNITS, whichever is more, through an int; 0 exactly if it was refused, or granted for a request above 2^27 units; otherwise one free block has the units asked for, and no allocated block has changed. In every state the units obtained are exactly those of all areas granted. |
| `Umalloc.Heap.Search` | mp2/user/umalloc.c:69-89 | Takes the tail of the first block after freep that fits, in the list as it was or with the area that morecore added; goes to morecore at most once, and only if no block fits; 0 exactly if that was refused; terminates. |
| `Umalloc.Heap.Malloc` | mp2/user/umalloc.c:63-90 | A new block of the units needed, disjoint from all others; or 0 with nothing changed, exactly if its one call of sbrk was refused; sbrk at most once, only if no block fits, and for how much; overrun exactly if sbrk granted a request above 0x7fffffe0 bytes. |
| `Sv39.TranslateFindsView` | mp2/kernel/riscv.h:360-382 | The address translation of section 4.3.2 of the RISC-V Privileged Architecture finds in the words of the tree exactly the map it stands for. |
| `Sv39.MidAdded` | mp2/kernel/vm.c:85-103 | Hanging an empty level-1 table into the tree changes no translation and nothing in any other space. |
| `Sv39.LowAdded` | mp2/kernel/vm.c:85-103 | The same for a level-0 table. |
| `Sv39.LeafSet` | mp2/kernel/vm.c:143-199 | Writing one leaf entry changes the map at one page, of one space. |
| `Sv39.Popped` | mp2/kernel/kalloc.c:68-82 | Taking the head of the free list leaves a list of the other free pages. |
| `Sv39.Pushed` | mp2/kernel/kalloc.c:46-63 | Pushing a page leaves a list with it and all others. |
| `Vm.MapUnmap` | mp2/kernel/vm.c:143-199 | Unmapping what was mapped restores the map. |
| `Vm.Kernel.Translates` | mp2/kernel/vm.c:85-103 | In every state the hardware translates every address of every space as its map says. |
| `Vm.Kernel.NoPageTwice` | mp2/kernel/kalloc.c:46-82 | No page is a table in two places, or a table and free; `ProcMem.Memory.NoPageTwice` has all uses. |
| `Vm.Kernel.Freerange` | mp2/kernel/kalloc.c:33-40 | Every page of the pool ends up free. |
| `Vm.Kernel.Kalloc` | mp2/kernel/kalloc.c:68-82 | A page that was free, or none exactly if there is none; only its owner and content change. |
| `Vm.Kernel.Kfree` | mp2/kernel/kalloc.c:46-63 | Panics exactly outside the pool; otherwise the page is free and no other page changes. |
| `Vm.Kernel.Walk` | mp2/kernel/vm.c:85-103 | Panics from MAXVA on; gives the one slot of the page; allocates only when asked to, takes only free pages for tables, exactly as many as there are tables missing, and fails exactly if there are fewer free pages than that; the map is unchanged. |
| `Vm.Kernel.Mappages` | mp2/kernel/vm.c:143-172 | Maps exactly its range, or on failure exactly the pages before the one that failed; fails for want of pages only if there were fewer than tables missing, and otherwise takes exactly those; when it panics. |
| `Vm.Kernel.Uvmunmap` | mp2/kernel/vm.c:177-199 | Unmaps exactly its range, and frees exactly its pages if asked to; panics exactly at a page that is not mapped, is no leaf, or is not of the pool. |
| `Vm.Kernel.Uvmcreate` | mp2/kernel/vm.c:203-212 | An empty space in a page that was free, or nothing changed, exactly if there is none. |
| `Vm.Kernel.MapFresh` | mp2/kernel/vm.c:240-252 | One more page with the content and permissions wanted in a frame that was free, at the price of that frame and the tables missing; or, only if there are fewer free pages, the map as before and the frame given back. |
| `Vm.Kernel.Uvmalloc` | mp2/kernel/vm.c:232-256 | All new pages, zeroed, in frames of their own, exactly if there were free pages enough for them and for the tables they lack; else the map as before, every frame given back, and only tables added. |
| `Vm.Kernel.Uvmdealloc` | mp2/kernel/vm.c:262-274 | Unmaps and frees exactly the pages between the two sizes. |
| `Vm.Kernel.Uvmcopy` | mp2/kernel/vm.c:312-340 | The child has a copy of every page of the parent, in frames of its own, and has taken pages for these and the tables it lacked; or, only if there were fewer free pages than that at the call, its map as before and every frame given back. |
| `Vm.RegionsFromZero` | mp2/kernel/vm.c:85-103 | The pages from 0 up to n lie in one table for each 512 of them. |
| `Vm.SpansFromZero` | mp2/kernel/vm.c:85-103 | The pages from 0 up to n lie under one table for each 512 times 512 of them. |
| `Vm.Kernel.Freewalk` | mp2/kernel/vm.c:278-294 | Frees exactly the table and all tables below it; panics exactly if a leaf is below it. |
| `Vm.Kernel.Uvmfree` | mp2/kernel/vm.c:298-304 | Every page of the space becomes free and no other page changes; "freewalk: leaf" is reached only if a page is mapped beyond the size. |
| `ProcMem.Memory.NoPageTwice` | mp2/kernel/kalloc.c:46-82 | In every state a page has one use at most: table of one space, frame of one page of one process, trapframe of one process, or one place on the free list. |
| `ProcMem.Memory.EveryPageUsed` | mp2/kernel/kalloc.c:46-82 | In every state a page has one of these uses, unless the kernel has it, or a space that is no process. |
| `ProcMem.Memory.SizeBound` | mp2/kernel/memlayout.h:36-40 | The pages of a process and the free pages together are no more than the pool has. |
| `ProcMem.Memory.ProcPagetable` | mp2/kernel/proc.c:176-206 | A space with the trampoline and the trapframe at its top and nothing below; or 0, with every page back, exactly if there were fewer than three free pages. |
| `ProcMem.Memory.FreePagetable` | mp2/kernel/proc.c:210-216 | Every page of the space becomes free, the two at the top excepted, and no other changes. |
| `ProcMem.Memory.Allocproc` | mp2/kernel/proc.c:109-150 | A new process without user pages has taken four free pages for its space and its trapframe and done nothing else; or 0, with every page back, exactly if there were fewer than four, whichever step failed. |
| `ProcMem.Memory.Freeproc` | mp2/kernel/proc.c:155-172 | All pages of the process, its trapframe among them, become free; the other processes see what they saw. |
| `ProcMem.Memory.Growproc` | mp2/kernel/proc.c:259-275 | The process grows by zeroed pages that it may read and write, or loses those beyond its new size, and sees below it what it saw; it grows exactly if there are free pages enough for the new pages and the tables they lack, and -1 leaves it as it was; no other process is concerned. With the memory between KERNBASE and PHYSTOP it never panics. |
| `ProcMem.Memory.Fork` | mp2/kernel/proc.c:279-303 | The child sees in frames of its own what its parent sees, with the same permissions, exactly if there are free pages enough for its frames and tables; or 0, with every page back. No process sees a change, and nothing is asked of the parent. |
| `ProcMem.ForkPagesIs` | mp2/kernel/proc.c:279-303 | How many pages fork needs for a process of n pages: four, the n frames, a table for each 512 of them, and one above these. |
| `ProcMem.Memory.ForkThenFree` | mp2/kernel/proc.c:155-303 | A fork followed by the end of the child gives every page back to where it was, whether it succeeded or not. |
| `ProcMem.Memory.Store` | mp2/kernel/proc.c:279-303 | What a process writes to one of its pages it reads there; none of its other pages and no other process sees a change, a child or parent neither. |
| `FsBlocks.UintPut` | mp2/kernel/fs.c:407-413 | A block number put into an indirect block is read back, and no other entry changes. |
| `FsBlocks.Changed` | mp2/kernel/fs.c:382-453 | A change to one file, within blocks that it has or takes, keeps the exact ownership of all blocks and all other files. |
| `FsBlocks.Marked` | mp2/kernel/fs.c:65-105 | Taking or returning a block keeps the bitmap exact. |
| `FsBlocks.DirectSet` | mp2/kernel/fs.c:388-396 | Entering a block into the inode adds that block to the file and nothing else. |
| `FsBlocks.IndirectSet` | mp2/kernel/fs.c:399-406 | A zeroed indirect block adds no block to the file. |
| `FsBlocks.EntrySet` | mp2/kernel/fs.c:407-415 | Entering a block into the indirect block adds that block to the file and nothing else. |
| `Fs.BlockBytes` | mp2/kernel/fs.c:516-528 | Writing into one block of a file changes those bytes of that file and no byte of any file besides. |
| `Fs.FileSystem.Balloc` | mp2/kernel/fs.c:65-88 | The first free block, zeroed and marked, and now in the hands of the caller, with what it logs; 0 exactly if none is free, with nothing changed. |
| `Fs.FileSystem.Bfree` | mp2/kernel/fs.c:91-105 | A block in use becomes free; it panics exactly on a free one. |
| `Fs.FileSystem.Bmap` | mp2/kernel/fs.c:382-421 | The block of the file, added if it is missing; no byte of any file changes; free blocks become that block or the indirect block of the file or stay free, no other block changes hands, and afterwards no block is in nobody's, on the out-of-space exits too; what is logged. |
| `Fs.FileSystem.Writei` | mp2/kernel/fs.c:505-539 | The bytes from off on are those of the source, no other byte of any file has changed, the size and the absence of holes are kept up; free blocks become blocks of the range in this file or stay free, nothing else changes hands and no block is lost. If the source can be read all of it is written exactly if there are free blocks enough for the holes in the range and the indirect block; short only where the source can be read no further, or for want of free blocks; how many blocks are logged. |
| `FsRoom.RanShort` | mp2/kernel/fs.c:382-421 | If a block of the range is missing in the end and no block is free, there were not: counted without any order in which blocks were taken. |
| `FsRoom.WasEnough` | mp2/kernel/fs.c:382-421 | If a file has all blocks of a range in the end, there was a free block for each one that was missing, and for the indirect block. |
| `Fs.FileSystem.Readi` | mp2/kernel/fs.c:471-496 | Returns the bytes of the file; changes no byte and no size of any file, and in a file without holes nothing at all; into holes it takes free blocks for this file only. In a file without holes it reads up to the end, or gives -1, exactly if the destination cannot be written so far; otherwise short only at a hole for which no block is free. |
| `Fs.FileSystem.Itrunc` | mp2/kernel/fs.c:425-453 | Frees exactly the blocks of the file, its indirect block among them, and changes no other; logs their bits and the inode and nothing else. |
| `Fs.FileSystem.WriteBlocks` | mp2/kernel/fs.c:516-528 | The loop of writei: after each block, exactly the bytes written so far are there, and every block taken is one of this file in the range; why it stops. |
| `Fs.ChunkTouches` | mp2/kernel/file.c:202-208 | How many blocks a chunk lies in: four, if it is a full one and starts inside a block. |
| `Fs.ChunkFits` | mp2/kernel/file.c:202-208 | A chunk logs at most six blocks and those of the bitmap, of which four count, or five if it starts inside a missing block, whatever the offset and the layout; in a file without holes that is MAXOPBLOCKS at most. |
| `Fs.File.WriteChunk` | mp2/kernel/file.c:210-220 | One operation: it logs at most six blocks and those of the bitmap, of which at most four count, or five if it starts inside a missing block; the offset moves by what was written; ownership, and the reasons to stop short, as in writei. |
| `Fs.File.Filewrite` | mp2/kernel/file.c:188-234 | Returns the length of the source exactly if that is 0, or: the offset is not beyond the end of the file, the end not beyond the largest file, all of the source can be read, and there are free blocks enough for the holes and the indirect block. Otherwise writes a prefix, which ends only where the next chunk would be too large, the source can be read no further, or a block is missing and none is free. Every operation on the way stays within its log reservation; free blocks become blocks of this file in the range or stay free, and nothing else changes hands. |
| `FsTight.Append` | mp2/kernel/file.c:202-208 | Both bounds are reached: on disks with one to four bitmap blocks, a chunk appended to a certain file without holes is written as a whole and logs exactly six blocks and all of the bitmap, MAXOPBLOCKS with four; with a hole it is one to five, and MAXOPBLOCKS + 1 with five. |
| `FsTight.Image` | mp2/kernel/file.c:202-208 | These files, in a consistent file system: the offset is in the middle of a block, which is there, or the only hole. |
| `Lists.Empty` | mp2/kernel/list.h:197-200 | The head points to itself exactly if the list is empty. |
| `Lists.AddTailRing` | mp2/kernel/list.h:139-147 | Adding at the tail extends the list at its end. |
| `Lists.AddFirstRing` | mp2/kernel/list.h:124-132 | Adding behind the head extends it at its beginning. |
| `Lists.DelRing` | mp2/kernel/list.h:163-170 | Deleting removes just that node. |
| `Lists.Apart` | mp2/kernel/list.h:139-170 | Neither touches a list without common nodes. |
| `Slab.ObjectsApart` | mp2/kernel/slab.c:188-192 | The objects of a page do not overlap. |
| `Slab.InCacheFits` | mp2/kernel/slab.c:111-122 | The objects in the page of the cache itself lie within the page exactly up to 3976 bytes an object. |
| `Slab.Cache.constructor` | mp2/kernel/slab.c:88-130 | An empty cache, with all objects of its own page free. |
| `Slab.Cache.LiveApart` | mp2/kernel/slab.c:140-276 | In every state live objects are disjoint. |
| `Slab.Cache.PickSlab` | mp2/kernel/slab.c:164-197 | The first partial slab, else the first free one, else a new one. |
| `Slab.Cache.KmemCacheAlloc` | mp2/kernel/slab.c:140-218 | An object that was not live becomes live, and no other; where it comes from; 0 only if no object is free and there is no page. Every slab stays on the list its count says, each once. |
| `Slab.Cache.KmemCacheFree` | mp2/kernel/slab.c:220-276 | Just this object stops being live; its slab goes back to the page pool exactly if that was its last one and two other slabs are available. |
| `Slab.Cache.Store` | mp2/kernel/slab.c:140-218 | Whatever a client writes into an object that it has, the free lists of all slabs stay as they are. |
| `Slab.Cache.WordApart` | mp2/kernel/slab.c:140-218 | The eight bytes of a word inside a live object overlap no header of a page and no link of a free list. |
| `Slab.Cache.Retire` | mp2/kernel/slab.c:258-273 | An empty slab is kept exactly if fewer than two others are available. |
| `Slab.Cache.InitChain` | mp2/kernel/slab.c:115-122 | The initial free list runs through all objects of the page once. |
| `Virtio.TestsExact` | mp4/kernel/virtio_disk.c:262 | With at most two requests in flight, the test on 16-bit indices and the test modulo 8 are both exact, after any number of wraps. |
| `Virtio.Driver.TestExact` | mp2/kernel/virtio_disk.c:311 | At every moment, inside the critical sections too, the driver's test for finished requests and the device's for available ones are exact. |
| `Virtio.ReadsLastWrite` | mp2/kernel/virtio_disk.c:215-292 | A read that is over has brought into its buffer what the last write to its sector was given, however the device ordered the two. |
| `Virtio.Driver.TwoAtMost` | mp2/kernel/virtio_disk.c:215-292 | At most two requests are in flight, one while a third is being formatted, so that the rings never overflow. |
| `Virtio.Driver.SleeperIsServed` | mp2/kernel/virtio_disk.c:226-233 | A process sleeps for descriptors only while there is a request in flight. |
| `Virtio.Driver.AllocDesc` | mp2/kernel/virtio_disk.c:156-166 | The first free descriptor, or -1 exactly if there is none. |
| `Virtio.Driver.FreeDesc` | mp2/kernel/virtio_disk.c:169-182 | The descriptor is free and cleared; the panic is not reached; all sleepers are awake. |
| `Virtio.Driver.FreeChain` | mp2/kernel/virtio_disk.c:185-197 | Frees the three descriptors of the chain and no other, while the device goes on. |
| `Virtio.Driver.Alloc3Desc` | mp2/kernel/virtio_disk.c:201-213 | Three descriptors exactly if three are free, else none and those taken are back, while the device goes on. |
| `Virtio.Driver.StartRw` | mp2/kernel/virtio_disk.c:215-281 | The request as asked for enters the ring, or the process sleeps, exactly for want of three descriptors, and then two requests are in flight. The status byte is preset as each driver does it. The device goes on between all writes and serves nothing but requests in flight. |
| `Virtio.Driver.FinishRw` | mp2/kernel/virtio_disk.c:284-292 | The request was served as it was asked for: written was what the buffer held when it was handed over, or the buffer holds what was in the sector when the device read it. The chain is broken up, the request gone and its buffer forgotten, everybody who waits for descriptors awake. |
| `Virtio.Driver.Intr` | mp2/kernel/virtio_disk.c:294-327 | Ends although the device goes on adding entries; reports each finished request once, in the order of the ring, and leaves none; panics exactly if it comes to one at which the device failed. |
| `Virtio.Driver.See` | mp2/kernel/virtio_disk.c:311-325 | One turn takes the entry at its place in the ring, and with device steps between all its reads and writes still finds that request and its status. |
| `Virtio.Driver.DeviceFetch` | mp2/kernel/virtio_disk.c:271-277 | The device finds in the ring, in order, the requests that were queued, also while the driver is at work. |
| `Virtio.Driver.DecodeAt` | mp2/kernel/virtio_disk.c:235-265 | For every request in flight the device, which goes by the flags and lengths of the descriptors as section 5.2.6 of VIRTIO 1.1 has it, reads in the chain: BSIZE bytes, this buffer, this sector, in this direction as the flags allow it, and the status byte of this request. |
| `Virtio.PerformIs` | mp2/kernel/virtio_disk.c:235-265 | Carrying out such a reading moves exactly the block of the request, between its buffer and its sector. |
| `Virtio.Driver.DeviceServe` | mp2/kernel/virtio_disk.c:235-265 | What the device does on its own reading of a chain, which may be malformed or of any length, is what was asked for: this buffer, this sector, this direction, the whole block; it reports just this request, as done or as failed. |
| `Virtio.Driver.DeviceRun` | mp2/kernel/virtio_disk.c:299-311 | Whatever steps the device takes, inside a critical section of the driver or outside, every request stays in flight, goes only forward, and nothing else is served. |
| `SleepLock.StepInv` | mp2/kernel/sleeplock.c:21-41 | Every step of acquiresleep, releasesleep, sleep and wakeup keeps the invariant. |
| `SleepLock.MutualExclusion` | mp2/kernel/sleeplock.c:21-41 | In every interleaving at most one process holds the lock, and pid names it. |
| `SleepLock.NoLostWakeup` | mp2/kernel/proc.c:547-592 | A process sleeps on the lock only while it is held, or while a releaser in wakeup has not come to that process yet. |
| `SleepLock.NoDeadlock` | mp2/kernel/proc.c:547-592 | If no process can go on by itself, everybody is outside, holds the lock, or sleeps while somebody holds it. |
| `SleepLock.CallsInOrder` | mp2/kernel/sleeplock.c:21-41 | A process is outside, in acquiresleep, has the lock, or is in releasesleep, in this order, and goes in by its calls alone; a kill leaves it awake. |
| `SleepLock.TookIt` | mp2/kernel/sleeplock.c:21-30 | Whoever has the lock has set it himself, in a state in which it was free, and has had it since. |
| `SleepLock.ReleaseFrees` | mp2/kernel/sleeplock.c:32-41 | Before a releasesleep is over there is a state with the lock free, and every process that slept on it then has been awake since. |
| `SleepLock.TurnIsWhole` | mp2/kernel/sleeplock.c:21-41 | Between leaving and coming back a process has taken the lock when it was free, has had it, and has left it free. |
| `SleepLock.ReleaseEnds` | mp2/kernel/sleeplock.c:32-41 | From every state in which a process is in releasesleep, finitely many steps, of it and of those it meets, bring it out, with the lock free and nobody asleep. |
| `SleepLock.AcquireEnds` | mp2/kernel/sleeplock.c:21-30 | From every state in which a process is in acquiresleep, and no other has the lock other than to release it or is about to take it, finitely many steps bring it to have the lock. |
| `Processes.StepInv` | mp2/kernel/proc.c:279-435 | Every step of fork, exit, reparent, wait and kill keeps the invariant. |
| `Processes.ParentsLive` | mp2/kernel/proc.c:330-386 | Every started process, and every zombie, has a parent that is neither gone nor a zombie. |
| `Processes.NoSleepOverZombie` | mp2/kernel/proc.c:373-433 | While wait_lock is free no process sleeps in wait that has a zombie child. |
| `Processes.ReapedOnce` | mp2/kernel/proc.c:402-423 | No process is reaped twice, and none that is still there has been reaped. |
| `Processes.ReapsOnlyTheDead` | mp2/kernel/proc.c:402-421 | What is reaped is a zombie child of the one that waits, and it has left its stack. |
| `Processes.WaitFailsRightly` | mp2/kernel/proc.c:426-430 | wait gives up for want of children only if there are none, unless it is killed. |
| `Processes.WaitLockMoves` | mp2/kernel/proc.c:346-435 | Whoever has wait_lock can go on, at once or after one step of the one process that has the p->lock it needs: one leaving its stack, one falling asleep, or one in fork; in wakeup too, which takes the lock of every other process in turn. |
| `ProcessRuns.KilledSleeper` | mp2/kernel/proc.c:426-434 | A process that sleeps in wait, or is about to, although it is killed, was killed between the killed() of wait and its sleep, and only then. |
| `ProcessRuns.KillLost` | mp2/kernel/proc.c:426-434 | A kill that comes in that moment is lost: the process goes to sleep all the same. |
| `ProcessRuns.KillLasts` | mp2/kernel/proc.c:598-619 | At any other moment it takes effect: the process is awake, stays killed as long as it lasts, and does not sleep in wait again. |
| `ProcessRuns.ExitCompletes` | mp2/kernel/proc.c:330-386 | From its call on exit comes to its end in finitely many steps, of itself and of those whose p->lock it meets: a zombie off its stack, all its children those of init, and nobody asleep in wait over a zombie. |
| `ProcessRuns.WaitCompletes` | mp2/kernel/proc.c:390-435 | From its call on wait comes to reap its first zombie child; without one it gives up if it has no child or is killed, and sleeps otherwise. |
| `ProcessRuns.ZombieReaped` | mp2/kernel/proc.c:390-435 | A process in the sleep of wait that has a zombie child while wait_lock is free comes to reap its first one. |
| `ProcessRuns.FaultKeepsZombie` | mp2/kernel/proc.c:414-419 | A wait that cannot copy out the status leaves the zombie for the next call. |
| `ProcessRuns.ForkCompletes` | mp2/kernel/proc.c:279-326 | From its call on fork comes to its end, whoever has wait_lock: the child has a pid that nobody has had, and its parent, and can run. |
| `ProcessRuns.ForkGivesUp` | mp2/kernel/proc.c:291-296 | A fork that cannot copy the memory gives the place in the table back and touches no other process. |
| `ProcessRuns.SleepReturns` | mp2/kernel/proc.c:547-592 | A process that sleeps on any other channel is not running until that is woken, and then goes on where it was, with nothing changed. |
| `ProcessRuns.YieldReturns` | mp2/kernel/proc.c:510-519 | The same for a process that gives up its processor. |
| `Raid.ReadsBackExactly` | mp4/kernel/bio.c:123-199 | Under any flags a write is read back, except exactly when Disk 1 and the first copy of the block are both out. |
| `Raid.OthersUntouched` | mp4/kernel/bio.c:160-199 | A write to one block changes no other, whatever the flags. |
| `Raid.CopiesWithin` | mp4/kernel/param.h:13-21 | A write to any block of the logical disk stays on the disk, and each place on it is for copies of one block only. |
| `Raid.SurvivesExactly` | mp4/kernel/bio.c:123-199 | After a write under any flags, a read under any other flags returns what was written if and only if: reading the second copy, Disk 1 was not out at the write, or held the data already; reading the first, neither Disk 0 nor the first copy of the block was out, or it held the data already. |
| `Raid.SecondFaultLoses` | mp4/kernel/bio.c:123-199 | A second fault that loses data: Disk 1 out while a block is written, then Disk 0; bread returns the old data, although the block is in a valid buffer. |
| `Raid.Mirror.WriteThenRead` | mp4/kernel/bio.c:123-199 | The same exactness through bwrite and bread: from a valid buffer that is not forced to be read again what was written always comes back; otherwise exactly when the copy has it. |
| `Raid.Mirror.Inject` | mp4/kernel/bio.c:125-133 | One fault, at any time, leaves every block that was written readable. |
| `Raid.Mirror.Bread` | mp4/kernel/bio.c:123-153 | A block that was ever written reads as it was last written, under any single fault. |
| `Raid.Mirror.Bwrite` | mp4/kernel/bio.c:160-199 | Without a fault both copies are the same afterwards; under any flags, what is on the disk. |
| `Grep.Match` | mp2/user/grep.c:72-82 | 1 exactly if the text contains a string of the language of the pattern, at its beginning if the pattern starts with ^. |
| `Grep.MatchHere` | mp2/user/grep.c:85-96 | 1 exactly if the text begins with a string of the language, and is all of it under $. |
| `Grep.MatchStar` | mp2/user/grep.c:99-106 | The same for a starred character and the rest. |
| `Grep.ParseExactly` | mp2/user/grep.c:85-96 | Every pattern written down again is the string it came from, and each character in it means what it can: $ an end only at the end, * a repetition behind any character, . any character. |
| `Grep.RenderParses` | mp2/user/grep.c:85-96 | Every such pattern, written down, is parsed as itself. |
| `Grep.Grep` | mp2/user/grep.c:11-35 | However the reads cut the input, the output is the matching lines, in order, up to the first line that does not fit the buffer. |
| `Grep.FitSelectsAll` | mp2/user/grep.c:18-34 | If every line fits with its newline into 1023 bytes, these are all the matching lines with a newline. |
| `Grep.SelectedBefore` | mp2/user/grep.c:11-35 | The lines selected are exactly the matching ones before the first line that does not fit with its newline, or has none. |
| `Grep.SelectsAllExactly` | mp2/user/grep.c:11-35 | All matching lines are selected if and only if none matches from that line on; counting a last line without newline, and not counting it. |
| `Grep.LosesLine` | mp2/user/grep.c:18-34 | A line of 1023 characters, and a matching line behind it that is not written. |
| `Grep.LosesLast` | mp2/user/grep.c:22-34 | A matching line without newline that is not written. |
| `Grep.Lines` | mp2/user/grep.c:22-29 | Writes the matching lines of the buffer, and stops behind the last newline. |
| `Grep.NoMore` | mp2/user/grep.c:18 | When nothing is read any more, no line that fits is left. |
| `Shell.TypedTreeParses` | mp2/user/sh.c:266-447 | Every command tree with at most nine arguments a command, typed in, is parsed as itself. |
| `Shell.LineAt` | mp2/user/sh.c:345-447 | A tree written down, in parentheses where it must be, is parsed as itself, and what follows it is left over. |
| `Shell.LineKeeps` | mp2/user/sh.c:345-447 | The words of a line that parses are the words of its tree and of what is left over, with their number; no command has more than nine arguments. |
| `Shell.ParseRenders` | mp2/user/sh.c:345-447 | A line that parses, and its tree written down again, mean the same. |
| `Shell.NoSeparator` | mp2/user/sh.c:345-360 | What follows a command and its & on a line that parses is nothing, or ; and a line that parses. |
| `Shell.TypedAmpersand` | mp2/user/sh.c:328-360 | The line a & b ends in a panic. |
| `Shell.SpellTokens` | mp2/user/sh.c:266-309 | Tokens, typed with a space before each, are read back. |
| `Shell.Gettoken` | mp2/user/sh.c:266-309 | The next token, with the places of its text. |
| `Shell.Peek` | mp2/user/sh.c:311-321 | Whether the next token begins with one of the characters; it is not taken. |
| `Shell.Parseredirs` | mp2/user/sh.c:375-398 | The redirections, in order, around the command; a panic exactly for a missing file name. |
| `Shell.Parseexec` | mp2/user/sh.c:416-447 | A block, or a plain command with its arguments and redirections in any order. |
| `Shell.Parseblock` | mp2/user/sh.c:400-414 | A line in parentheses, with redirections. |
| `Shell.Parsepipe` | mp2/user/sh.c:362-373 | The grammar of pipes; it terminates on every line. |
| `Shell.Parseline` | mp2/user/sh.c:345-360 | The grammar of lines; it terminates on every line. |
| `Shell.TerminatedReads` | mp2/user/sh.c:450-494 | With the NULs written, every word read as a C string is its text: no NUL lands inside a word. |
| `Shell.Nulterminate` | mp2/user/sh.c:450-494 | A NUL behind each word of the tree, and no other byte changed. |
| `Shell.Parsecmd` | mp2/user/sh.c:328-343 | A tree whose words, read as C strings, are those of the command; a panic, with the buffer as it was, exactly when the line is not one command. |

## Left out

- Umalloc.Heap.Malloc: what happens to memory after an `overrun` is not modelled, nor are headers at addresses that are no multiple of 16.
- Umalloc.Heap.Free: only blocks that were handed out and not freed since are covered; the source does not detect others.
- Slab.Cache.constructor: only object sizes from 8 to 3976 bytes, for which the objects fit; allocation of the cache's page itself, the name, and printing are not modelled.
- Slab.Cache.NewSlab: the page comes from anywhere outside the cache; the page pool of `kalloc.c` is modelled in `Vm` and not composed with it.
- LogProtocol.ReservationSuffices: the size of the log area is a parameter; mkfs is not part of this model.
- LogMachine.Log.EndOp: the wakeup of waiting operations is left to `LogProtocol`, where a waiting operation may start whenever it could.
- LogMachine.Log.TryBeginOp: one round of the loop of `begin_op`; the sleep between rounds is a step of `LogProtocol`, without fairness.
- LogMachine.Log.LogWrite: a block outside the log area, in a valid buffer, as all callers have it.
- BufferCache.Cache.Bget: the sleep lock of a buffer and `bcache.lock` are left to `SleepLock`; the cache is sequential here.
- Vm.Kernel.Uvmunmap: of pages that are freed, only own leaf pages of the space; `ProcMem` has them so for every process.
- Vm.Kernel.Uvmdealloc: sizes below MAXVA, and own leaf pages, as every process has them (`ProcMem`).
- Vm.Kernel.Uvmcopy: the pages of the parent within its size are its own leaf pages, as those of every process are (`ProcMem`); a parent with other mappings there is not covered.
- Vm.Kernel.Uvmfree: the pages below the size are own leaf pages of the space, as those of every process are (`ProcMem`).
- ProcMem.Memory.Fork: the registers in the trapframe and the open files are not modelled; nor are exec and the process table, of which there is always room here.
- ProcMem.Memory.Growproc: with more memory than the machine has, what a panic leaves behind is not described.
- Vm.Kernel.Freewalk: of a table in the hands of the kernel; a tree that two spaces share does not occur.
- Vm.Kernel.Freerange: called on exactly the pool, as `kinit` does.
- Sv39.TranslateFindsView: permissions, the accessed and dirty bits and the alignment of superpages are not part of the translation; no superpage is ever mapped.
- Fs.FileSystem.Bfree: blocks that a file has are not freed before they have left it, which is how all callers do it.
- Fs.FileSystem.Balloc: the bitmap is one sequence of booleans per bitmap block; the packing of eight bits into a byte is not modelled.
- Fs.FileSystem.Writei: a copy from the caller that cannot be done as a whole changes nothing; bytes that a partial copy leaves in a cached buffer are not modelled.
- Fs.FileSystem.Readi: what a copy to the caller that fails has already written there is not modelled.
- Fs.File.Filewrite: pipes and devices are not modelled.
- Virtio.Driver.Intr: memory fences and device registers are not modelled, reads and writes of shared memory take effect in program order; the device reads neither `used_idx` nor `b->disk`, so that the driver's changes of both are one step.
- Virtio.Driver.DeviceServe: data, status and used entry of one request become visible in one step.
- Virtio.Driver.StartRw: a buffer is in at most one request, as its sleep lock sees to.
- Processes.WaitLockMoves: that somebody can go on, not that the scheduler lets him, here and in `ProcessRuns`, `SleepLock` and `LogRuns`; process numbers do not wrap.
- Processes.StepInv: the copy of memory, open files and the working directory in fork and exit are not modelled; wakeup of processes asleep elsewhere is a step of its own.
- Raid.Mirror.Bwrite: the holder of a valid buffer writes every change before it lets go of it; the log is not composed with the mirrored layer, because a forced fallback discards a changed buffer.
- Slab.Cache.Store: memory is keyed by the address of a word; that words at other addresses are not overlapped is `Slab.Cache.WordApart`.
- LogLimits.CommitReads: the cache of the protocol and the cache of buffers are tied by which blocks are in use, not by their contents.
- Grep.Grep: input without NUL.
- Shell.Parsecmd: a panic is a result here and ends nothing; the memory of the tree is not modelled.
- `copyin`, `copyout`, `uvmfirst` and the kernel page table.
- Directories, path names, symbolic links, `iget` and `iput`, and the composition of file operations with the log.
- Thread scheduling of mp3, mkfs, boot, traps, interrupts, the console and the small user programs.
