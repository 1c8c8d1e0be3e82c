# A verified model of xv6

This project models the parts of the xv6 kernel, of its user library and of its shell whose
correctness is hardest to see, and proves what they promise. Every claim is for all inputs, all
runs or all reachable states.

- **The log over the buffer cache over the disk** (`Bio.dfy`, `LogSpec.dfy`, `Log.dfy`,
  `LogProtocol.dfy`). The cache refines a plain map from blocks to contents, although the disk
  lags behind and buffers are recycled in LRU order on a doubly linked list. Each `bwrite` is
  one disk image; for every point at which `commit` can be cut off, and any number of cut-off
  recoveries after it, a finished recovery leaves the home blocks all old or all new. Whether a
  transaction gets its buffers is decided exactly, from the boot to the end of the commit, and
  readers may hold buffers all the while.
  `begin_op`, `log_write` and `end_op` are a step system for any number of processes.
- **Blocks and inodes** (`FsSpec.dfy`, `Dinodes.dfy`, `Fs.dfy`, `Mkfs.dfy`, `InodeCache.dfy`). Every
  block number stored anywhere is stored in one place only, and the bitmap marks exactly the
  metadata and those blocks; mkfs establishes this and every operation keeps it. Reads and writes
  are those of a byte sequence. Whatever an operation changes, it logs. A write fails exactly if it needs more blocks than are free. A write
  of one `filewrite` chunk logs at most MAXOPBLOCKS blocks, and with one bitmap block so few that no
  mix of writes makes `log_write` panic. The inode cache is a step system over all
  interleavings of `iget`, `ilock`, `iput`, `ialloc` and the rest.
- **The K&R heap** (`Heap.dfy`): the circular free list, its search, coalescing and splitting.
- **Page tables and the page pool** (`Vm.dfy`): who owns each page, on all paths, also those that
  run out of memory, and exactly how many free pages each operation needs.
- **Processes** (`ProcTable.dfy`, `Sleep.dfy`, `Pipe.dfy`): the process table, sleep and wakeup step
  by step, sleep-locks and pipes, every interleaving. Bytes are followed from the buffers given to
  `pipewrite` to those filled by `piperead`.
- **The shell's parser** (`Parser*.dfy`), which reads every line of a grammar that is stated
  independently of it, **grep's matcher** (`Grep.dfy`), and **the ring of exited
  processes** (`History.dfy`).

`Basics.dfy`, `Words.dfy` and `Remainder.dfy` hold what these share.

Code that works in place is modelled by classes and methods with loops; protocols are step systems
whose invariants are proved for every step and lifted to every run. A panic is a stop: the method
returns `None` or `false`, or, where the invariants exclude it, it is proved not to happen.

Findings about the code:

- `log_write` tests for a full log before it looks whether the block is already in it
  (`log.c:218`). So even with `log.size` above LOGSIZE, three operations that each use their whole
  reservation can make it panic on a block that needs no new slot. `LogProtocol.PanicFreeIff` shows
  that no run panics exactly when operations add fewer than MAXOPBLOCKS blocks; then mkfs's log of
  LOGSIZE blocks (`mkfs.c:25`) is enough too.
- A pipe writer that is killed while the pipe is full returns without waking readers
  (`pipe.c:86-88`). If it filled an empty pipe since it last took the lock, a reader can sleep on a
  full pipe: `Pipe.LostWakeup`. If not, its return is harmless. `Pipe.AwakeIff` says so over all runs.
- A directory keeps the number of its parent in `..` after the parent has been unlinked and freed.
  `namex` then calls `iget` for a free inode, and the `ilock` that follows panics
  (`fs.c:637-652`, `fs.c:312`): `InodeCache.StaleLookup`. If the look-up comes while `iput` is at
  work, the inode is freed under two references: `InodeCache.FreedShared`. If it comes between
  `ialloc`'s mark and its `iget`, the new inode can be freed and the `ilock` of `ialloc`'s caller
  panics: `InodeCache.LostAlloc`. `InodeCache.GetIff` gives the exact condition on `iget`; a link
  (`LinkedIsAlive`) or a reference in use (`HeldIsAlive`) meets it.
- `kill` looks at the pids of slots that are not in use (`proc.c:585-587`), and `allocproc` does not
  clear the mark. After `kill(0)` the next process in the first such slot is born killed:
  `ProcTable.BornKilled`. `ProcTable.KilledSince` says exactly when a slot is marked, in every run.
- With LOGSIZE equal to NBUF (`param.h:11-12`) a transaction that fills a log of more than LOGSIZE
  blocks leaves `commit` no buffer for the log block, and `bget` panics (`bio.c:92`):
  `Log.FullLogStops`. mkfs's log of LOGSIZE blocks lets `log_write` list at most LOGSIZE - 1 blocks,
  which is enough. `Log.Transaction` has the exact condition for every number of buffers, log size
  and number of blocks.
- `sys_gethistory` returns the oldest part of what is kept when the limit is small; its comment
  promises the most recent part (`sysproc.c:161`). `History.MostRecentIff` says when the two agree.
- mkfs rounds the root directory's size up to a block that does not exist when the size is a
  multiple of BSIZE (`mkfs.c:161-166`): `Mkfs.RoundUpIff`. That is so exactly if two more than the
  number of files is a multiple of 32 (`Mkfs.RootFills`), as for thirty files (`Mkfs.ThirtyFiles`).
- The shell reads `>>` as `>` (`sh.c:534-539`): the model's trees have one kind of output
  redirection.

## Model

| member | source | states |
|---|---|---|
| `LruRing.MoveRing` | bio.c:132-137 | unlinking a buffer and relinking it behind the head, pointer by pointer, is moving it to the front of the list, and both link directions stay consistent |
| `LruRing.FrontOrdered` | bio.c:132-137 | with the buffer just released at the front the list is again in order of last release |
| `Bio.SameView` | bio.c:61-93 | recycling or touching one buffer changes no block contents as callers see them and keeps one buffer per block |
| `Bio.NewView` | bio.c:96-116 | a valid buffer decides what its block contains; all other blocks keep their contents |
| `Bio.BufferCache.Binit` | bio.c:38-56 | all buffers with identity (0,0) on the circular list, and the cache invariant |
| `Bio.BufferCache.FindCached` | bio.c:66-76 | the buffer of a block if and only if there is one |
| `Bio.BufferCache.FindVictim` | bio.c:78-90 | the least recently released buffer among the clean unreferenced ones; none exactly when all are pinned |
| `Bio.BufferCache.Get` | bio.c:61-93 | the panic exactly if the block has no buffer and all are in use or dirty; otherwise no buffer in use or dirty changes identity, no contents change, at most one buffer per block; a recycled buffer is the least recently released one |
| `Bio.BufferCache.Lock` | bio.c:73-74 | taking the buffer's sleep-lock changes no contents |
| `Bio.BufferCache.Iderw` | memide.c:38-60 | one disk transfer: a dirty buffer reaches the disk as one new image, an invalid one is read in; the contents callers see do not change |
| `Bio.BufferCache.Bread` | bio.c:95-106 | the panic exactly as in bget; it waits exactly if another process holds the buffer; otherwise a locked buffer with what was last put in that block, on the disk or not |
| `Bio.BufferCache.Bwrite` | bio.c:108-116 | exactly one new disk image, equal to the old one except for this block |
| `Bio.BufferCache.Pin` | log.c:231 | a logged buffer is dirty, so it is not recycled |
| `Bio.BufferCache.Drop` | bio.c:128-140 | a buffer that nobody uses becomes the most recently released one |
| `Bio.BufferCache.Brelse` | bio.c:120-141 | the lock and the reference are given back, the contents callers see stay |
| `LogSpec.HeadRoundTrip` | log.c:85-113 | reading back a written log header gives the list of blocks that was written |
| `LogSpec.FreshLog` | mkfs.c:108-111 | a zeroed log area is recoverable and holds no transaction |
| `LogSpec.InstallAgain` | log.c:68-82 | installing after a partial installation is installing once |
| `LogSpec.RecoveryRestarts` | log.c:115-122 | recovery from any image that an interrupted recovery leaves ends as the uninterrupted one |
| `LogSpec.CrashesDoNotMatter` | log.c:115-122 | the same for any number of interruptions, each anywhere |
| `LogSpec.LoggedRecovers` | log.c:176-190 | before the header is written recovery leaves the old contents |
| `LogSpec.CommittedRecovers` | log.c:192-202 | once the header is written recovery leaves the new contents |
| `LogSpec.CommitImageRecovers` | log.c:192-202 | for every number k of completed writes of commit, recovery gives old contents up to the header and new ones from it on |
| `LogSpec.CrashAtomicity` | log.c:68-122 | commit cut off anywhere, any number of recoveries cut off anywhere, then one that ends: home blocks all old or all new, new exactly if the header was written |
| `LogSpec.CommitIsCrashSafe` | log.c:176-202 | whichever image of a commit, complete or not, a crash uncovers, recovery makes all home blocks old before the header and all new from it on |
| `LogSpec.CommitImageAt` | log.c:192-202 | the image after the j-th write of a commit is the one the crash theorem speaks of |
| `Log.Log.Store` | log.c:181-188 | a write to one buffer is one new image |
| `Log.Log.WriteLog` | log.c:176-190 | the log blocks hold the contents that the cache has for the listed blocks; home blocks on the disk are untouched; with the listed blocks in the cache it gets to its end exactly if every log block has a buffer or can get one; readers go on holding theirs |
| `Log.Log.InstallTrans` | log.c:68-82 | the listed blocks get their log blocks' contents, one image after the other, also when cut off; with the listed blocks in the cache and no buffer referenced it gets to its end exactly if the first log block has a buffer or can get one |
| `Log.Log.WriteHead` | log.c:98-113 | the header on the disk lists the blocks, in one image; it stops exactly if there is no buffer for it |
| `Log.Log.ReadHead` | log.c:84-96 | the list in memory is the one on the disk; it stops exactly if there is no buffer for it |
| `Log.Log.Commit` | log.c:192-202 | a crash after any of its disk writes is survived, with all old or all new home blocks; at its end disk and cache agree with what callers saw before it; it gets there exactly if the list is empty or the header and every log block have a buffer or can get one, which with no buffer referenced means a list shorter than the number of buffers; readers hold their buffers throughout |
| `Log.CountBuffers` | bio.c:81-92 | the listed blocks are in as many pinned buffers, so with no buffer referenced all are pinned exactly if the list is as long as there are buffers |
| `Log.Log.RecoverFromLog` | log.c:115-122 | the images of recovery in order, and at the end the recovered disk with an empty log; with no buffer referenced it gets there exactly if there are two buffers, or one and no transaction to install |
| `Log.Log.LogWrite` | log.c:213-233 | the panics exactly on a full log or outside of an operation; otherwise the block is listed once (absorption) and its buffer pinned |
| `Log.Log.Update` | log.c:204-233 | read, change, log_write, release, while others hold and change other blocks: it stops exactly if there is no buffer, the log is full or no operation runs; the disk does not change, callers see the new contents, and every reference count is as before |
| `Log.Transaction` | log.c:125-233 | from binit on: of any list of different home blocks as many are updated as there are log entries and buffers for; the commit succeeds exactly if all are and a buffer is left; a crash during it is survived |
| `Log.FullLogStops` | bio.c:92 | LOGSIZE buffers and a log with room for LOGSIZE blocks: LOGSIZE updates succeed, their commit does not |
| `LogProtocol.StepKeeps` | log.c:125-174 | every step of begin_op, log_write, end_op and commit keeps the reservation invariant |
| `LogProtocol.EveryReachableState` | log.c:125-174 | in every run: log plus unspent reservations within LOGSIZE, no block twice, nothing outstanding during a commit, no panic in end_op, and a sleeper has someone who will wake it |
| `LogProtocol.SleepersCanWake` | log.c:125-174 | from every reachable state with sleepers, processes that are awake can reach a state without sleepers |
| `LogProtocol.FullBudgetPanics` | log.c:213-219 | a run in which log_write panics although every operation keeps to its reservation |
| `LogProtocol.PanicFreeIff` | log.c:213-219 | log_write panics in no run if and only if operations add fewer than MAXOPBLOCKS blocks |
| `Bitmap.FirstFree` | fs.c:60-75 | the lowest clear bit, scanning bitmap block by bitmap block |
| `Bitmap.SetTest` | fs.c:66-68 | setting a bit changes that bit only |
| `Bitmap.ClearTest` | fs.c:87-93 | clearing a bit changes that bit only |
| `FsSpec.LinkDirect` | fs.c:379-383 | a new block in a direct slot keeps every block in one place and moves no other block |
| `FsSpec.LinkTable` | fs.c:386-389 | a new zeroed indirect block brings no stale pointers with it |
| `FsSpec.LinkEntry` | fs.c:390-397 | the same for a new entry of the indirect block |
| `FsSpec.UnlinkAll` | fs.c:410-437 | cutting off one inode's blocks leaves the ownership of all others |
| `FsSpec.MissingStep` | fs.c:374-402 | getting one block of a file takes exactly what was missing for it and leaves what is missing for the rest |
| `Fs.Fs.constructor` | fs.c:31-39 | a file system as mkfs leaves it has the invariant |
| `Fs.Fs.Balloc` | fs.c:56-78 | the first free block, zeroed and marked, owned by nobody, and one fewer is free; none exactly if none is free; all it changes is logged |
| `Fs.Fs.Bmap` | fs.c:374-402 | the block of a file position, new and zeroed if there was none; all other file blocks stay, ownership and bitmap agree, all that changes is logged and not much more; none exactly if fewer blocks are free than it and its indirect block need |
| `Fs.Fs.Bfree` | fs.c:81-95 | the panic exactly if the block was free; otherwise its bit is cleared |
| `Fs.Fs.Iupdate` | fs.c:220-237 | the stored inode equals the one in memory, and its block is logged |
| `Dinodes.RoundTrip` | fs.c:220-237 | what iupdate stores in a slot of an inode block is what ilock loads from it, in all fields, mode included |
| `Dinodes.Neighbours` | fs.c:224-233 | the other inodes of the block stay as they are |
| `Dinodes.UpdateStores` | fs.c:220-237 | so iupdate on the inode blocks is the update of one element of the list of inodes |
| `Fs.Fs.Itrunc` | fs.c:409-437 | exactly this inode's blocks are given back, each once: freeing a free block does not happen; logged are exactly the bitmap blocks of these blocks and the inode's block, which is all that changes |
| `Fs.Fs.Ialloc` | fs.c:194-214 | the first free inode, emptied, and its block logged; a free inode owns no block |
| `Fs.Fs.FreeInode` | fs.c:342-347 | what iput does to an unlinked inode frees its blocks, logs all it changes and keeps all invariants |
| `Fs.Fs.Readi` | fs.c:454-478 | -1 exactly on a bad offset or overflow; otherwise the slice of the file's contents, clipped at its size, and nothing changes |
| `Fs.Fs.Writei` | fs.c:483-513 | -1 exactly on a bad offset or a file too big; balloc's panic exactly if the write needs more blocks than are free; otherwise bytes off to off+n are the source's, every other byte of every file is as before, the size is right and stored, every bit, block and inode that changed is logged, and three blocks' worth log at most MAXOPBLOCKS blocks, or 7 if the bitmap has one block |
| `Fs.PutContents` | fs.c:483-513 | as contents: the file is spliced at the offset, all others are unchanged |
| `Fs.TallyBound` | file.c:127-133 | three blocks' worth of bytes at any offset touch at most eight data and bitmap blocks, as a partly covered first block already exists |
| `Fs.Fs.LogBound` | file.c:127-133 | with the indirect block and the inode that is at most MAXOPBLOCKS, or 7 if the bitmap has one block |
| `Fs.WritesNeverPanic` | log.c:213-219 | with one bitmap block, no mix of such transactions of any number of processes makes log_write panic |
| `Fs.Fs.WriteOp` | file.c:140-145 | one transaction of filewrite logs all it changes and at most MAXOPBLOCKS blocks at any offset, or 7 if the bitmap has one block, and panics exactly if it needs more blocks than are free |
| `Fs.Fs.Filewrite` | file.c:117-156 | success exactly if offset and end are legal; otherwise the whole chunks before the file size limit arrive, or nothing beyond the end of the file; every transaction fits; it panics exactly if all the chunks that arrive together need more blocks than are free |
| `Fs.NextArrives` | file.c:134-156 | chunk by chunk: one arrives exactly if it does not cross the limit |
| `InodeCache.Scan` | fs.c:250-264 | the entry that holds the inode, or else the first empty one |
| `InodeCache.GetIff` | fs.c:242-273 | iget keeps the cache invariant if and only if the inode is allocated, iput is not freeing it and ialloc is not between marking it and its own iget |
| `InodeCache.LinkedIsAlive` | fs.c:541-545 | that holds for an inode with a link, |
| `InodeCache.HeldIsAlive` | fs.c:637-652 | and for one with a reference, linked or not, in any use but the last part of iput: so for . in an unlinked directory |
| `InodeCache.FreeInodePanics` | fs.c:288-314 | after iget of a free inode, ilock panics |
| `InodeCache.FreeingIsShared` | fs.c:333-354 | after iget of an inode that iput is freeing, the rest of iput frees it on the disk while the new reference is there |
| `InodeCache.StepKeeps` | fs.c:194-354 | each step of each call keeps the cache invariant, iget under that condition |
| `InodeCache.AllocWriteKeeps` | fs.c:200-208 | reusing an inode number while its last user is still inside iput harms no valid entry |
| `InodeCache.EveryReachableState` | fs.c:242-354 | in every run whose igets meet the condition: one entry per referenced inode, counts equal to the references held, every unlocked valid entry equal to the disk in all fields |
| `InodeCache.LoadFindsType` | fs.c:288-314 | in every such run ilock never finds a free inode, so its panic is not reached |
| `InodeCache.FreedAlone` | fs.c:333-354 | in every such run an inode is marked free on the disk only without links and with no reference but the one being dropped |
| `InodeCache.FreedIff` | fs.c:333-354 | in every such run a finished iput has cleared the inode on the disk exactly if, at its check, the entry was valid, the inode had no links and nobody else referred to it, whatever its size and blocks |
| `InodeCache.StaleLookup` | fs.c:312 | a run from boot, with one iget of a freed inode, that ends in ilock's panic |
| `InodeCache.FreedShared` | fs.c:333-354 | a run from boot, with one iget during iput, that frees an inode with two references |
| `InodeCache.LostAlloc` | fs.c:200-208 | a run from boot, with one iget of an inode that ialloc has marked but not got, in which that inode is freed and the ilock of ialloc's caller panics |
| `Mkfs.Image.constructor` | mkfs.c:108-111 | the zeroed image, which owns nothing |
| `Mkfs.Image.Ialloc` | mkfs.c:226-240 | the next inode, with one link, mode 7 and no contents |
| `Mkfs.Image.FindBlock` | mkfs.c:276-292 | the block for a file position, the next one of the image if there was none; it gives up exactly if the image has fewer blocks left than it needs |
| `Mkfs.Image.Iappend` | mkfs.c:260-301 | the file's contents with the bytes appended, no other file changed, ownership and sizes exact; it gives up exactly if the longer file is too big or its blocks do not fit the image |
| `Mkfs.NeedsToAppend` | mkfs.c:273-292 | an append takes exactly the blocks that the longer file has more, with the indirect block |
| `Mkfs.Image.AddFile` | mkfs.c:130-159 | a file with the given bytes, one link and mode 7, and its entry in the root directory; it gives up exactly if inodes or blocks do not suffice or one of the two files is too big |
| `Mkfs.RoundUpIff` | mkfs.c:161-166 | rounding the root's size keeps all its blocks allocated exactly if the size is no multiple of BSIZE |
| `Mkfs.RootFills` | mkfs.c:119-151 | the size is one exactly if two more than the number of files is a multiple of the entries per block |
| `Mkfs.Balloc` | mkfs.c:242-256 | exactly the first bits are set, all in one bitmap block; its assertion fails exactly if they do not fit there |
| `Mkfs.Image.Finish` | mkfs.c:161-168 | the root directory is its entries and then zeroes up to the rounded size; ownership and bitmap as the kernel needs them, sizes exactly if the root's was no multiple of BSIZE |
| `Mkfs.Build` | mkfs.c:67-171 | an image is made exactly if inodes, blocks and one bitmap block suffice and no file is too big; it satisfies the kernel's block invariants, each file is a T_FILE with its bytes, the root is a T_DIR with all entries, and the other inodes are free |
| `Mkfs.ThirtyFiles` | mkfs.c:161-166 | an image of thirty files: its root has a size of two blocks and only one block |
| `Mkfs.Boot` | mkfs.c:67-171 | the kernel's file system starts on that image with its invariant, the files as given, and as many free blocks as no file has |
| `HeapSpec.UnitsSuffice` | umalloc.c:69 | a block holds the bytes asked for exactly if the sum does not wrap, and when its size is a nonnegative int for sbrk |
| `HeapSpec.Merge` | umalloc.c:33-41 | joining two touching blocks keeps every unit in exactly one block |
| `HeapSpec.Split` | umalloc.c:77-81 | so does cutting the tail off a block |
| `HeapSpec.UnitsConserved` | umalloc.c:24-90 | every unit got from sbrk is in exactly one free or allocated block, and blocks have no other units |
| `Heap.Heap.constructor` | umalloc.c:20-21 | the empty heap |
| `Heap.Heap.FindPlace` | umalloc.c:30-32 | free's search ends, at the last ring member below the block |
| `Heap.Heap.JoinNext` | umalloc.c:33-37 | the free block behind is taken in if it touches |
| `Heap.Heap.JoinPrev` | umalloc.c:38-43 | the free block before takes it in if they touch, or points to it; the ring is again sorted, circular and fully coalesced |
| `Heap.Heap.Free` | umalloc.c:24-44 | exactly this block stops being allocated, all other allocated blocks keep their size, units are conserved |
| `Heap.Walk` | umalloc.c:74-88 | malloc's walk ends, at a block that is big enough or after seeing all |
| `Heap.Heap.TakeWhole` | umalloc.c:76-77 | the whole block leaves the ring and is allocated |
| `Heap.Heap.TakeTail` | umalloc.c:78-82 | the last units of the block are allocated, the rest stays in the ring |
| `Heap.Heap.Take` | umalloc.c:75-85 | the block whole or its tail is allocated, no other block changes |
| `Heap.Heap.Morecore` | umalloc.c:46-61 | null exactly if sbrk fails; otherwise at least the units asked for are free in one block |
| `Heap.Heap.Malloc` | umalloc.c:63-90 | morecore is called at most once, exactly if no free block is big enough; null exactly if it then fails; otherwise a new block of the right size apart from all others |
| `VmSpec.NewTable` | vm.c:44-53 | a zeroed page put into a directory keeps every page owned once |
| `VmSpec.DropUser` | vm.c:268-275 | clearing an entry lets go of exactly its page |
| `VmSpec.SpacesDisjoint` | vm.c:315-345 | two entries below KERNBASE, of one directory or two, have the same page only if they are the same entry |
| `VmSpec.GrownShrunk` | vm.c:221-249 | growing and then shrinking restores all mappings |
| `VmSpec.BuiltAndTorn` | vm.c:283-298 | taking apart a directory built from free pages restores every page's owner |
| `Vm.Vm.Kinit` | kalloc.c:46-53 | every page of the range is free and on the list |
| `Vm.Vm.Kfree` | kalloc.c:59-77 | the page is first on the list; pages freed are never the kernel's own, so the panic is not reached |
| `Vm.Vm.Kalloc` | kalloc.c:82-95 | null exactly on an empty list; otherwise a page that was free |
| `Vm.Vm.Walkpgdir` | vm.c:35-55 | null exactly if there is no table and none can be made; no entry of any directory changes, and one page is taken exactly for a new table |
| `Vm.Vm.MapPage` | vm.c:60-80 | mappages for one page: exactly one entry changes, remap does not happen, the page now belongs to the directory; it fails exactly if a table is missing and no page is free |
| `Vm.Vm.Mappages` | vm.c:60-80 | for a kernel region: mapped one to one, nothing else changes, also on failure; it fails exactly if more tables are missing than pages are free |
| `VmSpec.KmapMeans` | vm.c:105-115 | the regions of kmap map, in numbers: pages 0x80000 to 0x8DFFF to physical memory from 0 on, pages 0xFE000 to 0xFFFFF to themselves, read-only exactly from the kernel's text up to its data, for the kernel only, and nothing else |
| `VmSpec.KmapSpans` | vm.c:105-115 | they need 56 tables for memory and 8 for devices, wherever the kernel's data begins |
| `Vm.Vm.Setupkvm` | vm.c:118-136 | with 65 free pages a directory with exactly these mappings, which takes 65; with fewer none, and every page has its old owner |
| `Vm.Vm.DeallocTurn` | vm.c:263-276 | one turn, also the skip over a missing table, misses no mapped page |
| `Vm.Vm.Deallocuvm` | vm.c:255-279 | exactly the pages of the range are unmapped and freed, everything else stays |
| `Vm.Vm.Allocuvm` | vm.c:221-249 | the range is mapped to zeroed pages from the free list exactly if there are enough for it and for the missing tables; otherwise no mapping of any directory has changed |
| `VmSpec.UserCost` | vm.c:44-53 | n pages of a directory with only the kernel's tables take n pages and one per 1024 of them |
| `Vm.Vm.Freevm` | vm.c:283-298 | exactly what belongs to the directory is freed |
| `Vm.Vm.Copyuvm` | vm.c:315-345 | with 65 pages, one per page copied and one per 1024 of them free, a copy with equal contents and flags on other pages and the kernel's mappings above it; with fewer none, and every page has its old owner; the parent is unchanged |
| `ProcTable.Wakeup1` | proc.c:557-565 | on every channel exactly its sleepers become RUNNABLE, and nothing else changes |
| `ProcTable.NobodySleepsOn` | proc.c:557-574 | after a step that calls wakeup on a channel nobody sleeps on it |
| `ProcTable.GetsUpIff` | proc.c:557-594 | a sleeper gets up exactly if a step wakes its channel or kills it, and sleeps on otherwise |
| `ProcTable.FallsAsleepIff` | proc.c:517-552 | a process falls asleep exactly by sleep, on the channel it names, or in wait on its own slot |
| `ProcTable.SleepsUntilWoken` | proc.c:517-594 | in every run a sleeper whose channel is not woken and that is not killed sleeps on |
| `ProcTable.ExitSection` | proc.c:284-299 | the parent woken, all children passed to init, init woken exactly if given a zombie, the process a ZOMBIE |
| `ProcTable.WaitScan` | proc.c:381-402 | the first zombie child, or none and whether there are children |
| `ProcTable.FindUnused` | proc.c:82-84 | the first unused slot, if any |
| `ProcTable.StepKeeps` | proc.c:201-302 | each step of fork, exit, wait, sleep, wakeup, kill, yield and the scheduler keeps the table's invariant |
| `ProcTable.ExitKeeps` | proc.c:284-300 | exit leaves no orphan and no waiter with a dead child |
| `ProcTable.WaitKeeps` | proc.c:372-412 | wait sleeps only with a living child and no dead one |
| `ProcTable.EveryReachableState` | proc.c:372-456 | in every run: RUNNING exactly if one CPU runs it, living parents for all but init, and whoever is asleep in wait has a living child and no dead one |
| `ProcTable.ChildExitWakes` | proc.c:286-287 | the exit of any child makes a waiting parent runnable |
| `ProcTable.EveryPid` | proc.c:89-91 | in every run no two processes have the same pid, and none has pid 0 |
| `ProcTable.KilledSince` | proc.c:580-597 | in every run a slot that wait has not given up is marked killed exactly if it was before or kill has found it since |
| `ProcTable.BornKilled` | proc.c:585-587 | a run in which kill(0) marks an unused slot and the next process is born killed |
| `Monitor.StepKeeps` | proc.c:517-574 | each step of sleep and wakeup, with both locks and the scan slot by slot, keeps the rule that a sleeper with something to do is owed a wakeup |
| `Monitor.NoLostWakeup` | proc.c:517-574 | with the caller's lock free nobody sleeps who has something to do |
| `Monitor.WokenIff` | proc.c:557-565 | a sleeper gets up exactly when a wakeup on its channel comes to its slot, or by a kill |
| `Monitor.ReleaseIff` | proc.c:517-574 | a release loses a wakeup exactly if one is owed to somebody |
| `SleepLock.StepKeeps` | sleeplock.c:22-42 | each step of acquiresleep and releasesleep keeps to that rule |
| `SleepLock.EveryReachableState` | sleeplock.c:22-42 | in every run: at most one holder, and with sleep-lock and spinlock free nobody is asleep on it |
| `Pipe.CounterIndex` | pipe.c:93-116 | wrap-around of the 32-bit counters does not disturb positions in the buffer |
| `Pipe.EmptyFull` | pipe.c:85-106 | the tests for empty and full are right although the counters wrap |
| `Pipe.StoreKeeps` | pipe.c:93 | a store keeps the pipe a queue of at most PIPESIZE bytes |
| `Pipe.TakeKeeps` | pipe.c:113-117 | a read takes the oldest byte |
| `Pipe.PipeSize` | pipe.c:11 | PIPESIZE divides 2^32 |
| `Pipe.EveryRunFifo` | pipe.c:78-121 | in every run the bytes taken out are the first of those put in, and at most PIPESIZE are between |
| `Pipe.EveryWriteInOrder` | pipe.c:78-98 | in every run what a call of pipewrite has put into the pipe is a prefix of its buffer, and all of it at the end of a call that is not cut short |
| `Pipe.CutShort` | pipe.c:85-89 | it is cut short only at a full pipe, by a kill or with the read end closed |
| `Pipe.EveryReadInOrder` | pipe.c:101-121 | in every run what a call of piperead has copied are the last bytes taken out, at most as many as asked for; fewer only from an empty pipe, none only if no writer is left |
| `Pipe.ReadFails` | pipe.c:106-110 | it fails only at an empty pipe that has writers, by a kill |
| `Pipe.Stream` | pipe.c:78-121 | with one writer, whose calls are not cut short, and one reader: what the calls of piperead return is, in order, a prefix of the buffers given to the calls of pipewrite |
| `Pipe.Disciplines` | pipe.c:59-121 | every action respects the rule for sleep and release, except the return of a killed writer that has filled an empty pipe |
| `Pipe.EveryRunAwake` | pipe.c:59-121 | in every run without such returns, other killed writers included, with the lock free no reader sleeps on a pipe with bytes or without writers, no writer on one with room or without readers |
| `Pipe.KilledWriteIff` | pipe.c:85-89 | a killed writer's return loses a wakeup exactly if a reader is asleep, which is only possible if this writer filled an empty pipe since it took the lock |
| `Pipe.LostWakeup` | pipe.c:85-89 | a run that ends with a reader asleep on a full pipe |
| `Pipe.AwakeIff` | pipe.c:78-98 | no run loses a wakeup if and only if no killed writer that has filled an empty pipe returns before a wakeup |
| `ParserSpec.Token` | sh.c:411-454 | the cursor only moves forward, on every token but the end strictly, and a word token is a whole word |
| `ParserRoundTrip.EveryLine` | sh.c:473-592 | for every line of the grammar, with pipes and lists grouped to the right and redirections from the last one outside to the first inside, the parser returns its command; it gives up exactly if a command has MAXARGS words or more |
| `ParserRoundTrip.RoundTrip` | sh.c:473-592 | so every command is read back from its fully parenthesised spelling, under the same condition |
| `ParserRoundTrip.LineReads` | sh.c:490-505 | a line anywhere in the buffer: its pipelines with their & in a list |
| `ParserRoundTrip.PipeReads` | sh.c:507-518 | a pipeline: its commands, grouped to the right |
| `ParserRoundTrip.AtomReads` | sh.c:520-592 | a simple command or a block, with its redirections from the last one outside to the first inside |
| `ParserSimple.SimpleReads` | sh.c:520-592 | a simple command with redirections before, between and behind its words: the words in order, and from outside the redirections from the last to the first; the tenth word refused |
| `ParserSimple.ItemsRead` | sh.c:573-588 | words and redirections from any point of a command on, read after those before them |
| `ParserSimple.AppendReads` | sh.c:537-539 | >> gives the same redirection as > |
| `ParserWords.LineWords` | sh.c:490-592 | every word of a parsed tree is a whole word of the line |
| `ParserWords.Nulterminate` | sh.c:595-639 | zero bytes are written behind the words of the tree and nowhere else |
| `ParserWords.WordsAreStrings` | sh.c:595-639 | afterwards each word is a C string equal to its token |
| `Parser.Parser.Gettoken` | sh.c:411-454 | the token, its span and the new cursor as specified |
| `Parser.Parser.Peek` | sh.c:456-466 | whether the next character is one of those given; the cursor is past white space |
| `Parser.Parser.ParseRedirs` | sh.c:520-543 | the redirections of the grammar, or failure exactly when it has none |
| `Parser.Parser.ParseWords` | sh.c:570-591 | the words and redirections of a simple command |
| `Parser.Parser.ParseExec` | sh.c:561-592 | agrees with the grammar, result and cursor |
| `Parser.Parser.ParseBlock` | sh.c:545-559 | agrees with the grammar, result and cursor |
| `Parser.Parser.ParsePipe` | sh.c:507-518 | agrees with the grammar, result and cursor |
| `Parser.Parser.ParseLine` | sh.c:490-505 | agrees with the grammar, result and cursor |
| `Parser.Parsecmd` | sh.c:473-488 | the tree of the line or failure, and then every word of it is a C string in the buffer equal to its token |
| `Grep.MatchHere` | grep.c:84-96 | true exactly if a prefix of the text is a word of the pattern, all of it if the pattern ends in $ |
| `Grep.MatchStar` | grep.c:98-106 | true exactly if the rest matches after some characters that the starred one stands for |
| `Grep.Match` | grep.c:72-82 | true exactly if some suffix, or for a leading ^ the whole text, has such a prefix |
| `Grep.OneMeans` | grep.c:93-95 | the meaning of a pattern by its first character |
| `Grep.StarMeans` | grep.c:89-90 | the meaning of a starred character, also of * and $ |
| `Grep.EndMeans` | grep.c:91-92 | a final $ means the end of the text |
| `Grep.SimpleFound` | grep.c:72-96 | a pattern without stars and anchors is found exactly if the text has its characters, with . for any, from some position on |
| `History.History.Exit` | proc.c:258-269 | the ring holds the last MAX_HISTORY exits |
| `History.History.Gethistory` | sysproc.c:149-174 | the oldest part of what is kept, in the order of the exits, for every limit |
| `History.MostRecentIff` | sysproc.c:159-163 | that is the most recent part exactly if the limit is 0 or not below the number kept |
| `History.FirstOfTwo` | sysproc.c:159-163 | a concrete case in which it is not |

## Left out

- Boot, assembly, interrupt controllers, consoles, the IDE port driver: `memide.c` is the disk.
- Directories and path names (`dirlookup`, `dirlink`, `skipelem`, `namex`): they add few hard properties to those of `readi` and `writei`.
- Device files in `readi` and `writei`, which call a driver.
- Reference balance of inodes in the system calls that use `fs.c`; `exec`, `sbrk` and `copyout`.
- Spinlocks: a stretch of code under a spinlock is one step, except in `Sleep.dfy` and `Pipe.dfy`, where taking and releasing the locks are steps.
- Fairness and liveness beyond the existence of a run that wakes all sleepers of the log.
- The 16-byte limit and padding of names in `History`, which are the same on both sides of the copy.
- Bio.BufferCache.Unlock: asks that a changed buffer has been logged or written before it is released, as the log's callers must see to.
- Log.Log.Commit: no operation is running, as `LogProtocol` proves for every interleaving; of the readers, who take no part in operations, none holds a listed block when it starts (it would wait for such a reader), and no step of theirs falls between its steps.
- Log.Log.InstallTrans: the exact condition without the cached blocks is stated where it is used so, in `Log.Log.RecoverFromLog`.
- LogProtocol.EveryReachableState: blocks logged by one operation are bounded by a budget; `Fs.Fs.Writei` proves that bound for writes, no member for the other system calls.
- Fs.Fs.Writei: asks that the inode in memory equals the stored one at the call, which `InodeCache` proves of unlocked entries.
- Fs.Fs.Iupdate: on the list of stored inodes; `Dinodes.UpdateStores` says that the inode blocks then hold it.
- InodeCache.StepKeeps: who changes an inode calls `iupdate` before unlocking, as the comment at `iupdate` demands (`fs.c:216-218`). The entries and inode numbers of directories are not part of the model: `Get` takes any number.
- Mkfs.Build: stops where the image or the inode table is full; mkfs itself has no test for that.
- Heap.Heap.Malloc: up to 2^31 - 16 bytes, and `base` lies below what sbrk returns, as in a process image. Two passes around the ring are a loop of their own inside the loop that calls morecore.
- Heap.Heap.Free: the block must be an allocated one.
- Vm.Vm.Deallocuvm: the old size is at most KERNBASE, as all callers have it.
- Vm.Vm.Allocuvm: the range to be mapped is not mapped yet, as for a process of the old size; otherwise the code stops with remap.
- Vm.Vm.Copyuvm: the parent's pages below its size are present; otherwise the code stops.
- Vm: pointers to pages are page numbers, and addresses are counted in pages.
- ProcTable.EveryReachableState: a process sleeps on a slot of the table only in wait.
- ProcTable.EveryPid: the counter of pids does not wrap around.
- ParserRoundTrip.EveryLine: the text of a line has one space between the words and redirections of a command and none elsewhere; other white space is skipped by `ParserSpec.Token`. `>>` is in `ParserSimple.AppendReads`.
- Pipe.EveryRunAwake: an end is closed when no call on it is running, as the reference count of its file ensures.
- Parser.Parser.ParseExec: the redirections found are listed and put around the command at its end; the source puts them around a record whose words are filled in later.
- Sleep: the scheduler's own hold of ptable.lock between a sleeper's switch and the next process is not a step of its own; the lock counts as free then.
