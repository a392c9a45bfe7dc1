# Verified models of the xv6 kernel and the student labs

Dafny models of the parts of the repository whose correctness is hardest to see, with
proofs that hold for every input, run and interleaving.  `dafny verify dfyconfig.toml`
checks the project.

- **Crash-safe storage.**  `RedoLog` describes the disk after every single block write of
  a commit or a recovery and proves atomicity; `LogRuns` puts commits, crashes and
  recoveries together in any order; `LogDevice` is the imperative log that passes through
  exactly those disks; `LogOps` is the step system of begin_op, log_write and end_op run
  by any number of processes.  `Ring` and `BufferCache` are the cache below, one method a
  step, refining a plain map from block numbers to contents.  `Inodes` and `FileSystem`
  are blocks, bitmaps and files as byte sequences; `LinkCounts` and `Directories` are
  entries, links and reference counts.
- **Allocators.**  `FreeList` and `Umalloc` are the circular free list of section 8.7 of
  The C Programming Language (second edition); `Frames` and `Vm` are page frames, the free
  list threaded through them, and page tables.
- **Concurrency.**  `SleepWakeup`, `ProcTable`, `TicketLock`, `Pipe` and `BoundedBuffer`,
  each over any number of threads.  A method of `ProcTable.Table`, `Pipe.PipeState` or
  `BoundedBuffer.Buffer` is what one thread does while it holds the lock, so the runs are
  all sequences of calls; the hand-over between two locks inside `sleep`, which these
  take as one step, is what `SleepWakeup` proves sound.  `Words` has the wrap-around
  arithmetic of the counters.
- **Schedulers.**  `Schedules` proves that running a job of least remaining time finishes
  most jobs at every instant; `Processes`, `Stcf` and `Batch` are the tick loops.
- **Languages.**  `ShellParser`, `ShellRoundTrip` and `ShellLine` are the shell's parser as
  a function, its inverse, and the code on a buffer; `Matcher` is the pattern matcher of
  chapter 9 of The Practice of Programming, against a denotational language.
- **Toy file system.**  `ToyFs`, the 128-block disk of the sixth lab.

`Numbers` and `CStrings` hold what several of these need.

Constants are kept where the code's arithmetic uses them (BSIZE, the inode layout, page
sizes) and are parameters with their stated relations elsewhere (LOGSIZE, PIPESIZE, NBUF,
NPROC, the width of a ticket).  What sbrk answers, which process runs next and when a crash
comes are parameters.

What the proofs show about the code itself:

- mkfs gives the log LOGSIZE blocks, one fewer than the header and LOGSIZE logged blocks
  need: "too big a transaction" is then reachable by operations within their limit.
  log_write also tests for a full list before it looks for the block, so an operation that
  has used its whole limit can panic by logging a listed block again.  The panic is out of
  reach exactly when neither holds (`LogOps.TooBigReachable`, `LogOps.TooBigAgain`).
- A reader of a pipe is left asleep with data present exactly when a killed process writes
  more than the ring holds (`Pipe.PipeState.Write`, at an input in `Pipe.LostWakeup`).
- The buffer cache has LOGSIZE buffers.  A log of LOGSIZE + 1 blocks, which the panic above
  asks for, lets a transaction pin them all, and write_log then finds no buffer for the log
  (`BufferCache.IdleLeft`, `BufferCache.PinAll`).
- An entry made in a directory breaks the link counts exactly if the directory has been
  unlinked (`LinkCounts.CreateKeepsIff`, `LinkCounts.LinkDoneIff`; reached from a new file
  system in `Directories.EntryInRemovedDirectory` and `Directories.LinkInRemovedDirectory`).
- Deleting the file with the empty name can clear four bytes of another file on the toy disk
  (`ToyFs.FileSystem.DeleteFile`, at an input in `ToyFs.DeleteNothing`).

## Model

| member | source | states |
|---|---|---|
| `RedoLog.EncodeDecode` | p4-student/xv6-public/log.c:101-113 | A header block overwritten in place with a list of targets reads back as exactly that list, and keeps its length. |
| `RedoLog.CopySound` | p4-student/xv6-public/log.c:177-190 | Copying any number of modified blocks to the log area of a clean disk changes nothing the disk says, and puts the copies where recovery looks for them. |
| `RedoLog.HeadSound` | p4-student/xv6-public/log.c:101-113 | The header write alone switches the list of pending blocks; every other block stays. |
| `RedoLog.InstallAt` | p4-student/xv6-public/log.c:69-82 | After `k` installs a home block holds its logged value exactly if its place in the list is below `k`, and its old value otherwise. |
| `RedoLog.InstallView` | p4-student/xv6-public/log.c:69-82 | A disk cut off between installs still says the same. |
| `RedoLog.ClearView` | p4-student/xv6-public/log.c:115-122 | Clearing the header after the last install loses nothing: the home blocks are then what the disk said. |
| `RedoLog.CommitAtomic` | p4-student/xv6-public/log.c:177-202 | For every cut of a commit after `k` block writes: the disk says what it said before up to the last log copy, and the whole transaction from the header write on; the finished commit leaves a clean disk. |
| `RedoLog.RecoverAtomic` | p4-student/xv6-public/log.c:69-122 | Recovery cut off anywhere keeps what the disk says; finished, it leaves a clean disk whose home blocks are that. |
| `RedoLog.CommitTrailAt` | p4-student/xv6-public/log.c:192-202 | The sequence of disks a commit passes through is, write by write, the disks of `CommitAt`. |
| `RedoLog.RecoverTrailAt` | p4-student/xv6-public/log.c:115-122 | The same for recovery. |
| `LogRuns.StepMeans` | p4-student/xv6-public/log.c:115-122 | A commit, a crash inside a commit, a crash inside recovery and a finished recovery each have their all-or-nothing meaning. |
| `LogRuns.RunMeaning` | p4-student/xv6-public/log.c:69-122 | Every life of the disk, of any number of commits, crashes and recoveries, has the meaning of its events; while the machine is up the home blocks themselves hold it. |
| `LogRuns.CrashAtomicity` | p4-student/xv6-public/log.c:177-202 | A commit cut after any write, any number of recoveries cut short, one that finishes: the home blocks are all as before the transaction, or all as after it, decided by whether the header write happened. |
| `LogDevice.Log.LogWrite` | p4-student/xv6-public/log.c:213-233 | Panics exactly if the list is full or no operation is open; otherwise the cached value becomes current, and the block is listed once (absorption). |
| `LogDevice.Log.WriteLog` | p4-student/xv6-public/log.c:177-190 | The disk goes through the copies of the modified blocks, in list order. |
| `LogDevice.Log.WriteHead` | p4-student/xv6-public/log.c:101-113 | One block write, of the in-memory list over the old header. |
| `LogDevice.Log.InstallTrans` | p4-student/xv6-public/log.c:69-82 | Installs the logged blocks in order and leaves no dirty block. |
| `LogDevice.Log.ReadHead` | p4-student/xv6-public/log.c:84-96 | The in-memory list becomes the one on disk. |
| `LogDevice.Log.WriteAhead` | p4-student/xv6-public/log.c:195-197 | Up to the header write: the disk then lists exactly the modified blocks. |
| `LogDevice.Log.WriteTransaction` | p4-student/xv6-public/log.c:195-201 | The trail of disks of a non-empty commit. |
| `LogDevice.Log.Commit` | p4-student/xv6-public/log.c:192-202 | The disk passes through exactly the states of `CommitAt`; afterwards the home blocks are what readers of the cache saw before. |
| `LogDevice.Log.RecoverFromLog` | p4-student/xv6-public/log.c:115-122 | The disk passes through exactly the states of `RecoverAt` and ends holding what it said. |
| `LogOps.StepKeeps` | p4-student/xv6-public/log.c:125-174 | Operations keep to a limit in blocks and may log a block as often as they like. Each step of begin_op, log_write or end_op, in any interleaving and on a log area of any size, keeps logged blocks plus the blocks open operations may still log within the header, and commit without open operations; the only panic a step can reach is "too big a transaction", and that only if operations log again once at their limit or the log area has fewer than LOGSIZE + 1 blocks. |
| `LogOps.Reservation` | p4-student/xv6-public/log.c:125-174 | The same for every reachable state, whatever the sizes; "log.committing" and "log_write outside of trans" are never reached, and whoever sleeps in begin_op still has to. |
| `LogOps.TestKeeps` | p4-student/xv6-public/log.c:218-221 | The tests of log_write, three separate reads without the lock: the list is never full for an operation below its limit, an operation is open, and otherwise only the size of the log area can fail. |
| `LogOps.AppendKeeps` | p4-student/xv6-public/log.c:223-232 | Putting a block in the list, unless it is there, keeps the reservation, whatever other operations logged since the tests. |
| `LogOps.EndKeeps` | p4-student/xv6-public/log.c:145-163 | end_op never finds a commit under way, and keeps the reservation. |
| `LogOps.TooBigReachable` | p4-student/xv6-public/log.c:218-219 | "too big a transaction" can be reached if and only if operations call log_write again once at their limit or the log area has fewer than LOGSIZE + 1 blocks. |
| `LogOps.TooBigReached` | p4-student/xv6-public/mkfs.c:25 | With the size mkfs gives the log, a run of operations within their limits reaches the panic, whether or not they log again. |
| `LogOps.TooBigAgain` | p4-student/xv6-public/log.c:218-227 | On a log area of any larger size: the list is full, an operation logs again a block that is in it, and log_write panics, because it tests before it looks. |
| `Ring.Removed` | p4-student/xv6-public/bio.c:132-133 | Bypassing a node leaves the ring of the others, in order. |
| `Ring.Inserted` | p4-student/xv6-public/bio.c:134-137 | A node linked in behind the head comes first, and the order of the others is kept. |
| `BufferCache.QuietMeansWritten` | p4-student/xv6-public/bio.c:107-116 | When nobody holds a buffer and none is dirty, the disk holds what was last put in each block. |
| `BufferCache.Bcache.constructor` | p4-student/xv6-public/bio.c:38-56 | The ring holds every buffer once, last one first. |
| `BufferCache.Bcache.Bget` | p4-student/xv6-public/bio.c:58-93 | A cached block gets another reference to its one buffer; otherwise the buffer recycled is unreferenced, clean, unlocked, and the one of those nearest the tail; no block ever has two buffers. "bget: no buffers" is reached if and only if the block is not cached and every buffer is pinned or referenced. |
| `BufferCache.Bcache.FindCached` | p4-student/xv6-public/bio.c:68-76 | The forward scan finds the buffer of the block, or there is none. |
| `BufferCache.Bcache.FindIdle` | p4-student/xv6-public/bio.c:78-92 | The backward scan finds the idle buffer nearest the tail, or there is none. |
| `BufferCache.Bcache.Acquire` | p4-student/xv6-public/bio.c:73 | The lock is taken exactly if it is free, by one who has a reference. |
| `BufferCache.Bcache.Iderw` | p4-student/xv6-public/memide.c:38-60 | Panics exactly without the lock, with nothing to do, off the root device or out of range (the last two never happen to a holder); otherwise a dirty buffer is written and becomes clean, and an invalid one is filled with what was last put in the block. |
| `BufferCache.Bcache.Load` | p4-student/xv6-public/bio.c:95-106 | After bread the holder sees what was last put in the block. |
| `BufferCache.Bcache.Modify` | p4-student/xv6-public/log.c:204-212 | Only the holder of a valid buffer changes what is in its block, and of no other. |
| `BufferCache.Bcache.Pin` | p4-student/xv6-public/log.c:231 | A pinned buffer is dirty and so not recycled. |
| `BufferCache.Bcache.Bwrite` | p4-student/xv6-public/bio.c:108-116 | Panics exactly without the lock; otherwise the disk holds what was last put in the block and the buffer is clean. |
| `BufferCache.Bcache.Unlock` | p4-student/xv6-public/bio.c:120-126 | Panics exactly without the lock; what was changed must have been logged or written. |
| `BufferCache.Bcache.Unref` | p4-student/xv6-public/bio.c:128-140 | The last reference moves the buffer to the front; the order of the others is kept. |
| `BufferCache.RecycleKeeps` | p4-student/xv6-public/bio.c:81-91 | An idle buffer holds nothing that is not on the disk, so recycling it loses nothing. |
| `BufferCache.ModifyKeeps` | p4-student/xv6-public/log.c:204-212 | A holder's change keeps: one buffer a block, valid buffers hold the last contents, clean unlocked ones agree with the disk. |
| `BufferCache.IdleLeft` | p4-student/xv6-public/bio.c:81-92 | A buffer is left to recycle exactly if fewer are pinned or referenced than there are. |
| `BufferCache.PinAll` | p4-student/xv6-public/param.h:11-12 | When as many blocks have been logged as there are buffers, the next read of another block, as write_log makes of the log, reaches "bget: no buffers". |
| `Inodes.WordSet` | p4-student/xv6-public/fs.c:389-393 | Storing a 32-bit word in an indirect block stores that word and no other. |
| `Inodes.AllocKeeps` | p4-student/xv6-public/fs.c:65-73 | Marking and zeroing a free block keeps the ownership invariant and every file byte for byte. |
| `Inodes.FreeKeeps` | p4-student/xv6-public/fs.c:87-94 | A block in hand is marked; clearing its bit keeps the invariant and every file. |
| `Inodes.WriteKeeps` | p4-student/xv6-public/fs.c:499-503 | Overwriting a data block changes that block's bytes of that file only. |
| `Inodes.LinkDirect` | p4-student/xv6-public/fs.c:378-382 | Appending a direct block keeps one owner a block and the file's earlier bytes. |
| `Inodes.LinkIndirect` | p4-student/xv6-public/fs.c:386-388 | A zeroed indirect block adds no data block. |
| `Inodes.LinkWord` | p4-student/xv6-public/fs.c:389-396 | Appending through the indirect block keeps one owner a block and the file's earlier bytes. |
| `Inodes.DetachKeeps` | p4-student/xv6-public/fs.c:407-435 | The blocks of a file, and only they, come into hand when it leaves the account. |
| `FileSystem.HeldNext` | p4-student/xv6-public/fs.c:414-431 | The next block to be freed is marked in the bitmap, and freeing it leaves exactly the rest in hand. |
| `FileSystem.FileSystem.Balloc` | p4-student/xv6-public/fs.c:55-78 | The first free block is marked, zeroed and in hand, all files kept; it panics only if every block is in use. |
| `FileSystem.FileSystem.Bfree` | p4-student/xv6-public/fs.c:80-95 | Clears the bit, and panics exactly if it was clear. |
| `FileSystem.FileSystem.Bmap` | p4-student/xv6-public/fs.c:372-400 | An existing block is returned and nothing changes; the next block is appended and owned by the file, others untouched. Other operations may hold blocks, and other files may be half written or half linked. |
| `FileSystem.FileSystem.Itrunc` | p4-student/xv6-public/fs.c:407-435 | "freeing free block" cannot happen, even for a file left in the middle of an append; exactly the file's data and indirect blocks become free, the file is empty and all others are kept, in whatever state they are. |
| `FileSystem.FileSystem.Readi` | p4-student/xv6-public/fs.c:452-476 | Returns exactly the bytes asked for that the file has, refuses exactly as the source does (with 32-bit wrap), and never allocates or changes anything. Other files may be half written. |
| `FileSystem.WriteOn` | p4-student/xv6-public/fs.c:498-504 | One turn of writei's loop extends the written stretch and changes no other byte. |
| `FileSystem.WrittenStable` | p4-student/xv6-public/fs.c:498-504 | Whatever others do between two turns of the loop that leaves this file alone, the stretch written so far stays written. |
| `FileSystem.FileSystem.Writei` | p4-student/xv6-public/fs.c:481-511 | Refuses exactly the offsets and lengths the source refuses, with nothing changed; otherwise the contents become the old contents with the bytes spliced in, all other files are kept, half written or not, the inode on disk agrees with memory, and the ownership invariant holds. It panics only when every block is in use. |
| `FileSystem.FileSystem.AllReady` | p4-student/xv6-public/fs.c:505-510 | When every file is between operations and no block is in hand, sizes fit the blocks and the inodes on disk are those in memory. |
| `LinkCounts.InitOk` | p4-student/xv6-public/mkfs.c:117-128 | A new file system, of a root directory alone, has right link counts. |
| `LinkCounts.CreateKeeps` | p4-student/xv6-public/sysfile.c:241-283 | create keeps: nlink of each allocated inode is the number of entries other than "." that name it in directories with links, plus links in progress; directories with links form a tree. |
| `LinkCounts.CreateKeepsIff` | p4-student/xv6-public/sysfile.c:260-280 | Adding an entry keeps the counts if and only if the directory has links itself. |
| `LinkCounts.UnlinkReady` | p4-student/xv6-public/sysfile.c:207-216 | An entry that is found belongs to a directory with links and names an inode with links; an empty directory has exactly that one. |
| `LinkCounts.UnlinkKeeps` | p4-student/xv6-public/sysfile.c:218-229 | unlink keeps the counts and the tree, for files and for directories (whose ".." stops counting). |
| `LinkCounts.LinkBegunKeeps` | p4-student/xv6-public/sysfile.c:140-142 | The raised count of a link in progress is accounted for. |
| `LinkCounts.LinkDoneIff` | p4-student/xv6-public/sysfile.c:144-151 | Making the new entry keeps the counts if and only if its directory has links. |
| `LinkCounts.LinkUndoneKeeps` | p4-student/xv6-public/sysfile.c:158-164 | Undoing a link restores the counts. |
| `LinkCounts.ReleaseKeeps` | p4-student/xv6-public/fs.c:331-346 | An inode with nlink 0 has no entry and no link in progress, and freeing it keeps the counts. |
| `Directories.Directories.Dirlookup` | p4-student/xv6-public/fs.c:524-548 | The first entry in use with the name, or none has it. |
| `Directories.Directories.Dirlink` | p4-student/xv6-public/fs.c:550-578 | Refuses exactly a name in use; otherwise the first free slot, or a new one at the end, gets the entry and nothing else changes. |
| `Directories.Directories.Isdirempty` | p4-student/xv6-public/sysfile.c:167-181 | True exactly if every entry from the third on is free. |
| `Directories.Directories.Create` | p4-student/xv6-public/sysfile.c:241-283 | A new inode and its entries; the panics of the dot entries and of dirlink on a free name are unreachable, and the link-count invariant holds afterwards if and only if the directory had links. |
| `Directories.EntryInRemovedDirectory` | p4-student/xv6-public/sysfile.c:241-283 | On a new file system: make a directory, remove it while somebody is in it, make a file in it. The file has nlink 1 and no entry that counts. |
| `Directories.Directories.Unlink` | p4-student/xv6-public/sysfile.c:184-239 | Removes the entry and a link, or refuses "." and "..", unknown names and directories that are not empty, changing nothing; "unlink: nlink < 1" is unreachable. |
| `Directories.Directories.LinkBegin` | p4-student/xv6-public/sysfile.c:133-142 | Refuses directories; otherwise raises nlink. |
| `Directories.Directories.LinkEnd` | p4-student/xv6-public/sysfile.c:144-151 | Makes the entry, or leaves everything to be undone. |
| `Directories.Directories.LinkUndo` | p4-student/xv6-public/sysfile.c:158-164 | Takes the raised count back. |
| `Directories.LinkInRemovedDirectory` | p4-student/xv6-public/sysfile.c:118-156 | The same with a link made in the removed directory: the file has nlink 2 and one entry that counts. |
| `Directories.Directories.Iput` | p4-student/xv6-public/fs.c:331-352 | Frees an inode only if nothing links to it, no link is in progress and this is its last reference. |
| `FreeList.InsertGaps` | p4-student/xv6-public/umalloc.c:24-44 | Inserting a block apart from all free ones keeps the list in address order with no two free blocks touching. |
| `FreeList.InsertUnits` | p4-student/xv6-public/umalloc.c:24-44 | The units of the list after an insertion are those before and those of the block, whether or not it was merged. |
| `FreeList.InsertIsSplice` | p4-student/xv6-public/umalloc.c:33-42 | Merging with the left, right, both or neither neighbour is one splice of the list. |
| `FreeList.RelinkInserts` | p4-student/xv6-public/umalloc.c:33-43 | The pointer and size writes of free build the circular list with the block inserted, for each of the four merges. |
| `FreeList.TakeUnits` | p4-student/xv6-public/umalloc.c:75-83 | Taking `n` units from the tail of a free block removes exactly those units. |
| `FreeList.UnlinkTakes` | p4-student/xv6-public/umalloc.c:75-77 | Unlinking a block of the exact size leaves the circular list without it. |
| `FreeList.CarveTakes` | p4-student/xv6-public/umalloc.c:78-83 | Cutting the tail off a larger block leaves the circular list with it shortened. |
| `Umalloc.StopsOnce` | p4-student/xv6-public/umalloc.c:29-32 | The two exit tests of the search in free hold at exactly one node of the ring: the last one below the block. |
| `Umalloc.FullTurn` | p4-student/xv6-public/umalloc.c:73-88 | A search of malloc that has gone all the way round has shown that no block fits. |
| `Umalloc.FreeBalances` | p4-student/xv6-public/umalloc.c:24-44 | Free and live units stay the units obtained; blocks stay apart. |
| `Umalloc.GrowBalances` | p4-student/xv6-public/umalloc.c:46-61 | A fresh region joins the account as one live block. |
| `Umalloc.TakeBalances` | p4-student/xv6-public/umalloc.c:74-86 | The block handed out is apart from every other, and the account still balances. |
| `Umalloc.Heap.Search` | p4-student/xv6-public/umalloc.c:29-32 | Terminates, at the last node below the block. |
| `Umalloc.Heap.Splice` | p4-student/xv6-public/umalloc.c:33-43 | Writes exactly the headers of the merge. |
| `Umalloc.Heap.Free` | p4-student/xv6-public/umalloc.c:24-44 | The list becomes the old one with the block inserted and merged; the invariant of the whole heap is kept. |
| `Umalloc.Heap.Morecore` | p4-student/xv6-public/umalloc.c:46-61 | Asks for at least 4096 units; on refusal nothing has changed, otherwise the region is on the list. |
| `Umalloc.Heap.Cut` | p4-student/xv6-public/umalloc.c:74-86 | The block returned comes from the chosen one and is new to the live blocks. |
| `Umalloc.Heap.Malloc` | p4-student/xv6-public/umalloc.c:63-90 | Terminates; returns 0 exactly when no block fits and sbrk refuses, with the heap as it was; otherwise first fit from where the last search ended, after asking sbrk only if nothing fitted. Order, separation, no touching free blocks and conservation of units are kept. |
| `Umalloc.Heap.Store` | p4-student/xv6-public/umalloc.c:24-90 | A program writing inside its live block damages no header. |
| `Frames.Isolation` | p4-student/xv6-public/vm.c:81-98 | In every state kept below, two user pages never share a frame, and no user page lies on the free list, in a directory or in a page table. |
| `Frames.TakeKeeps` | p4-student/xv6-public/kalloc.c:82-95 | Popping the free list keeps it threaded through the free frames and every page table as it was. |
| `Frames.GivePool` | p4-student/xv6-public/kalloc.c:59-77 | Pushing a frame that is not free keeps the list. |
| `Frames.NewTable` | p4-student/xv6-public/vm.c:44-53 | A new page table changes no entry. |
| `Frames.EntrySet` | p4-student/xv6-public/vm.c:69-73 | Writing an absent entry changes that one only, and the frame has one owner. |
| `Frames.EntryCleared` | p4-student/xv6-public/vm.c:269-276 | Freeing a page and zeroing its entry changes that entry only. |
| `Frames.Dismantle` | p4-student/xv6-public/vm.c:290-297 | A directory without user pages comes apart without touching any other. |
| `Vm.ClearTable` | p4-student/xv6-public/vm.c:266-268 | The jump over an absent page table equals passing its pages one by one. |
| `Vm.NoRemap` | p4-student/xv6-public/vm.c:129-134 | The kernel's regions do not meet pages already mapped. |
| `Vm.Vm.Kalloc` | p4-student/xv6-public/kalloc.c:82-95 | 0 exactly if no frame is free; otherwise a frame that was free and is in use by nobody else. |
| `Vm.Vm.Kfree` | p4-student/xv6-public/kalloc.c:59-77 | Panics exactly outside the range of frames; otherwise the frame is first on the list. |
| `Vm.Vm.Freerange` | p4-student/xv6-public/kalloc.c:46-53 | Exactly the frames of the range, in the kernel's hands before, join the free list. |
| `Vm.Vm.Walkpgdir` | p4-student/xv6-public/vm.c:35-55 | The table of the page, added if asked for and affordable; no entry changes. |
| `Vm.Vm.Mappages` | p4-student/xv6-public/vm.c:60-80 | The pages map to consecutive frames in order, up to page `k` where it stops: the pages before were not mapped, and it stops with "remap" if page `k` was, and otherwise because no frame is left for its table. |
| `Vm.Vm.Setupkvm` | p4-student/xv6-public/vm.c:117-136 | A fresh directory whose entries are exactly the kernel's, or every frame as it was. |
| `Vm.Vm.Allocuvm` | p4-student/xv6-public/vm.c:221-249 | Success adds exactly the pages asked for, zeroed, on frames that were free; failure unmaps exactly those added, leaving at most new page tables. |
| `Vm.Vm.Deallocuvm` | p4-student/xv6-public/vm.c:255-279 | Exactly the present pages of the range are unmapped and their frames freed; nothing else changes. |
| `Vm.Vm.Freevm` | p4-student/xv6-public/vm.c:283-298 | Exactly the directory, its tables and its user pages become free. |
| `Vm.CopyMap` | p4-student/xv6-public/vm.c:330-335 | A mapped copy has the contents and flags of the original on a frame that was free. |
| `Vm.Vm.Copyuvm` | p4-student/xv6-public/vm.c:315-345 | Success gives every page below `sz` equal contents and flags on fresh frames, and no other user page; failure restores the free frames exactly. Frames in use before are untouched either way. |
| `SleepWakeup.StepKeeps` | p4-student/xv6-public/proc.c:418-475 | Each step of sleepers and wakers, with kills at any time (a killed waiter gives up, as in pipe.c:86 and 107), keeps: a true condition with a sleeper means a waker is still on its way. |
| `SleepWakeup.NoLostWakeup` | p4-student/xv6-public/proc.c:418-475 | In every run, whenever the caller's lock is free no process is asleep, or about to be, on a true condition. |
| `SleepWakeup.TableHolderProceeds` | p4-student/xv6-public/proc.c:429-453 | The holder of the table lock can always take its next step. |
| `ProcTable.ExitFamily` | p4-student/xv6-public/proc.c:251-266 | After exit every started process but init still has a parent that is neither unused nor a zombie. |
| `ProcTable.ExitNoneMissed` | p4-student/xv6-public/proc.c:251-266 | After exit no process asleep in wait has a zombie child: the parent and, if needed, init have been woken. |
| `ProcTable.ExitPids` | p4-student/xv6-public/proc.c:251-266 | Exit leaves pids distinct from each other and from those reaped. |
| `ProcTable.Table.constructor` | p4-student/xv6-public/proc.c:121-157 | The first process is in the first slot, runnable, and the others are unused. |
| `ProcTable.Table.Wakeup1` | p4-student/xv6-public/proc.c:458-466 | Exactly the sleepers on the channel become runnable. |
| `ProcTable.Table.Wakeup` | p4-student/xv6-public/proc.c:469-475 | The same under the table lock, with the family and wait invariants kept. |
| `ProcTable.Table.Allocproc` | p4-student/xv6-public/proc.c:74-93 | Takes the first unused slot with the next pid, or nothing if there is none; keeps the invariants. |
| `ProcTable.Table.AbandonFork` | p4-student/xv6-public/proc.c:95-99 | A fork that fails gives its slot back. |
| `ProcTable.Table.SetParent` | p4-student/xv6-public/proc.c:201 | The parent is named before the child can run. |
| `ProcTable.Table.FinishFork` | p4-student/xv6-public/proc.c:216-220 | The child becomes runnable with a live parent. |
| `ProcTable.Table.Exit` | p4-student/xv6-public/proc.c:228-269 | Panics exactly for init; otherwise the table afterwards is stated slot by slot, and the invariants are kept. |
| `ProcTable.Table.Reparent` | p4-student/xv6-public/proc.c:256-263 | Exactly the caller's children are handed to init, which is woken if one is a zombie. |
| `ProcTable.Table.Wait` | p4-student/xv6-public/proc.c:273-313 | Reaps exactly if there is a zombie child, and then a pid never reaped before; gives up exactly if killed or childless; otherwise sleeps. |
| `ProcTable.Table.Kill` | p4-student/xv6-public/proc.c:480-498 | Marks the first slot with the pid, waking it if asleep, or finds none. |
| `ProcTable.Table.Dispatch` | p4-student/xv6-public/proc.c:439-443 | Running, yielding and sleeping on anything but a process keep the invariants. |
| `TicketLock.FewOutstanding` | p4-student/xv6-public/proc.c:656-675 | Outstanding tickets are fewer than the word counts. |
| `TicketLock.SpinEnds` | p4-student/xv6-public/proc.c:662-663 | The words agree exactly when the ticket is the next one, in spite of wrapping. |
| `TicketLock.StepKeeps` | p4-student/xv6-public/proc.c:643-675 | Every shared access by any thread keeps the invariant and reaches no panic. |
| `TicketLock.MutualExclusion` | p4-student/xv6-public/proc.c:643-675 | In every run of fewer threads than the word counts: no panic, at most one thread in its critical section, entries in ticket order. |
| `TicketLock.Overtaking` | p4-student/xv6-public/proc.c:656-665 | Between drawing a ticket and entering, a thread is overtaken by exactly the holders of the tickets then outstanding, in order. |
| `Words.SameWord` | p4-student/xv6-public/pipe.c:85 | Counters less than a word apart are equal exactly if their words are. |
| `Words.RingIndex` | p4-student/xv6-public/pipe.c:93 | A wrapped counter indexes the same slot because the ring size divides the word. |
| `Pipe.PipeState.FullTest` | p4-student/xv6-public/pipe.c:85 | The test on the words holds exactly if PIPESIZE bytes are in flight. |
| `Pipe.PipeState.EmptyTest` | p4-student/xv6-public/pipe.c:106 | The test on the words holds exactly if nothing is in flight. |
| `Pipe.PipeState.constructor` | p4-student/xv6-public/pipe.c:22-57 | A new pipe is empty and open at both ends, with nobody asleep. |
| `Pipe.PipeState.PutByte` | p4-student/xv6-public/pipe.c:93 | One byte joins the stream and overwrites none in flight. |
| `Pipe.PipeState.GetByte` | p4-student/xv6-public/pipe.c:116 | The byte read is the next of the stream. |
| `Pipe.PipeState.Write` | p4-student/xv6-public/pipe.c:78-99 | From any state of the pipe: what is written extends the stream, and the writer sleeps or fails only on a full ring. If nobody slept without need before, somebody does afterwards if and only if the writer was killed, a reader slept, and more bytes were to be written than the ring holds. |
| `Pipe.PipeState.ReadBytes` | p4-student/xv6-public/pipe.c:100-121 | From any state of the pipe: a reader returns exactly if there is data or the write end is closed, with the next part of the stream, as much as is there; if nobody slept without need before, nobody does after. |
| `Pipe.PipeState.Close` | p4-student/xv6-public/pipe.c:59-76 | Closing an end wakes the other side and keeps the stream. |
| `Pipe.PipeState.Kill` | p4-student/xv6-public/proc.c:480-498 | Waking a killed process keeps the stream and wakes no other. |
| `Pipe.LostWakeup` | p4-student/xv6-public/pipe.c:85-92 | A reader sleeps on an empty pipe and a killed process writes more than fits: the reader sleeps on a full ring. |
| `BoundedBuffer.Buffer.Append` | p3-student/src/BoundedBuffer.cpp:24-36 | Stores the item and signals one consumer, or joins the queue exactly if the buffer is full; a consumer waits only while every item present has a woken consumer coming, and dually. |
| `BoundedBuffer.Buffer.Store` | p3-student/src/BoundedBuffer.cpp:31-33 | The item becomes the newest and overwrites none. |
| `BoundedBuffer.Buffer.Remove` | p3-student/src/BoundedBuffer.cpp:38-52 | Returns the oldest item, in append order, and signals one producer, or joins the queue exactly if the buffer is empty. |
| `BoundedBuffer.Buffer.SpuriousWakeup` | p3-student/src/BoundedBuffer.cpp:27-30 | Spurious wake-ups keep the invariants. |
| `BoundedBuffer.Buffer.StuckMeansBlocked` | p3-student/src/BoundedBuffer.cpp:24-52 | With nobody woken or running, waiting consumers mean an empty buffer and waiting producers a full one. |
| `Schedules.GreedyFinishesMost` | p2-student/src/scheduling.cpp:150-208 | Against any schedule of the same length, one that always runs a job of least remaining time has finished at least as many. |
| `Schedules.Dominance` | p2-student/src/scheduling.cpp:150-208 | The same at every instant. |
| `Schedules.GreedyTurnaroundLeast` | p2-student/src/scheduling.cpp:150-208 | Its total turnaround is least among all schedules that finish every job, preemptive ones included. |
| `Processes.GreedyOutcomeLeast` | p2-student/src/scheduling.cpp:264-277 | A returned list of such a schedule has the least total turnaround. |
| `Processes.ReadWorkload` | p2-student/src/scheduling.cpp:11-29 | One fresh process for each row. |
| `Stcf.Tick` | p2-student/src/scheduling.cpp:166-175 | The running process is charged for the slot it had; when nothing remains it is returned with this completion time. |
| `Stcf.Stcf` | p2-student/src/scheduling.cpp:150-208 | Terminates; returns every process exactly once, with its first run and completion in the schedule followed; each busy tick runs a process of least remaining time among those arrived; at every instant it has finished at least as many as any schedule, so total turnaround is least. |
| `Stcf.Optimal` | p2-student/src/scheduling.cpp:150-208 | Dominance and least turnaround for the list returned. |
| `Batch.Sjf` | p2-student/src/scheduling.cpp:103-148 | Each process starts as soon as it has arrived and the CPU is free, and is a shortest of those waiting; with equal arrivals total turnaround is least among all schedules. |
| `Batch.ShortestFirstOptimal` | p2-student/src/scheduling.cpp:103-148 | A shortest-first list of jobs that arrive together has least total turnaround, against preemptive schedules too. |
| `Batch.Fifo` | p2-student/src/scheduling.cpp:56-101 | Processes complete in arrival order, each at max(arrival, previous completion) + duration. |
| `Batch.PromptRecurrence` | p2-student/src/scheduling.cpp:56-101 | Prompt starts are exactly that recurrence. |
| `ShellRoundTrip.RoundTrip` | p4-student/xv6-public/sh.c:327-446 | Parsing the printed form of a well-formed command tree gives the tree back. |
| `ShellRoundTrip.LineOk` | p4-student/xv6-public/sh.c:344-372 | The same for a line inside a longer one. |
| `ShellRoundTrip.OperandOk` | p4-student/xv6-public/sh.c:399-446 | A simple command or a block in parentheses, with a redirection behind it, reads back. |
| `ShellRoundTrip.ArgsOk` | p4-student/xv6-public/sh.c:430-443 | The argument loop returns exactly the words printed. |
| `ShellRoundTrip.LineAfterSkip` | p4-student/xv6-public/sh.c:310-321 | parseline does not care about white space before its first token. |
| `ShellRoundTrip.PipeAfterSkip` | p4-student/xv6-public/sh.c:310-321 | Nor does parsepipe. |
| `ShellRoundTrip.ExecAfterSkip` | p4-student/xv6-public/sh.c:310-321 | Nor does parseexec. |
| `ShellLine.NextToken` | p4-student/xv6-public/sh.c:265-308 | Scans the token that `GetToken` describes, on every line and position. |
| `ShellLine.LineCmd` | p4-student/xv6-public/sh.c:344-359 | The loop over & and the step over ; parse what `ParseLine` describes. |
| `ShellLine.PipeCmd` | p4-student/xv6-public/sh.c:361-372 | Parses what `ParsePipe` describes. |
| `ShellLine.Redirections` | p4-student/xv6-public/sh.c:374-397 | Parses what `ParseRedirs` describes. |
| `ShellLine.BlockCmd` | p4-student/xv6-public/sh.c:399-413 | Parses what `ParseBlock` describes. |
| `ShellLine.ExecCmd` | p4-student/xv6-public/sh.c:415-446 | Parses what `ParseExec` describes, with its limit of arguments. |
| `ShellLine.LineSpans` | p4-student/xv6-public/sh.c:265-446 | Every word of a parsed line is a maximal run of word characters within the line. |
| `ShellLine.NulTerminate` | p4-student/xv6-public/sh.c:449-493 | Writes a NUL behind every word of the command and nowhere else. |
| `ShellLine.WordReads` | p4-student/xv6-public/sh.c:449-493 | No NUL falls inside a word, so each reads back from the buffer as its token. |
| `ShellLine.ParseCmdInPlace` | p4-student/xv6-public/sh.c:327-342 | The whole of parsecmd on its buffer: every argument and file name then reads as exactly its token; on an error the buffer is as it was. |
| `Matcher.MatchStar` | p4-student/xv6-public/grep.c:98-106 | True exactly if some run of the character is followed by a match. |
| `Matcher.MatchHere` | p4-student/xv6-public/grep.c:84-96 | True exactly if a prefix of the text (all of it under $) is in the language of the pattern. |
| `Matcher.Match` | p4-student/xv6-public/grep.c:72-82 | True exactly if the line matches: a prefix under ^, otherwise from some position. |
| `Matcher.UnanchoredIsSubstring` | p4-student/xv6-public/grep.c:72-96 | Without anchors a line matches exactly if some substring is in the language. |
| `Matcher.DollarIsSuffix` | p4-student/xv6-public/grep.c:91-92 | With $ only, exactly if some suffix is. |
| `Matcher.AnchoredByDollar` | p4-student/xv6-public/grep.c:84-96 | A pattern is anchored at the end exactly if its last character is $. |
| `Matcher.PrefixStar` | p4-student/xv6-public/grep.c:98-106 | Matching a starred item is matching the rest after some run. |
| `ToyFs.SomeFree` | p6-student/src/fs.cpp:29-36 | Fewer marks than blocks mean a free block, so the allocation loop finds one. |
| `ToyFs.FormattedOk` | p6-student/src/create_fs.cpp:29-43 | A formatted disk is consistent. |
| `ToyFs.CreateOk` | p6-student/src/fs.cpp:44-82 | A created file owns blocks that were free; a block is marked if and only if it is block 0 or appears once in exactly one used inode; every other file is kept, and a file of the same name is hidden exactly if its inode comes later. |
| `ToyFs.DeleteOk` | p6-student/src/fs.cpp:116-139 | Deleting a file unmarks exactly its blocks and keeps the others; its name means nothing afterwards unless another inode has it. |
| `ToyFs.WriteOk` | p6-student/src/fs.cpp:246-250 | Writing a block changes that block of that file only. |
| `ToyFs.FileSystem.CreateFile` | p6-student/src/fs.cpp:16-87 | Refuses exactly for lack of blocks or of inodes, changing nothing; otherwise the first free inode becomes a file of that size on the lowest free blocks, whatever the name, and all files are kept. |
| `ToyFs.FileSystem.Find` | p6-student/src/fs.cpp:99-111 | The first used inode with the name; past the sixteen inodes only the empty name can match, in a record that ends in block 1. |
| `ToyFs.FileSystem.DeleteFile` | p6-student/src/fs.cpp:89-144 | The first inode with the name is freed and every other file kept. If no file has the empty name, deleting it hits the last record exactly if bytes 12 to 15 of block 1 read as 1, and clears them. |
| `ToyFs.FileSystem.Read` | p6-student/src/fs.cpp:168-210 | Returns the block of the file, or fails for an unknown file or block. |
| `ToyFs.FileSystem.Write` | p6-student/src/fs.cpp:212-253 | The file's block becomes the buffer; no other file and not block 0 changes. |
| `ToyFs.DeleteNothing` | p6-student/src/fs.cpp:89-144 | A file whose first block, block 1, reads as a used inode from byte 12 on is changed by deleting a file that does not exist. |

## Left out

- LogDevice.Log.LogWrite: one process at a time; its three unlocked tests, interleaved with other operations, are in `LogOps`.
- LogOps.TooBigReachable: LOGSIZE is taken to be a whole number of operations' limits, as it is in the source, and the log area to have a header block.
- LogOps.Reservation: that each system call logs at most MAXOPBLOCKS blocks is its premise, as it is begin_op's.
- BufferCache.Bcache.Bget: root-device blocks only, and a process does not ask for a block it already holds (it would wait for itself).
- BufferCache.Bcache.Iderw: the in-memory disk; the IDE driver's queue and interrupts are not modelled.
- FileSystem.FileSystem.Balloc: the bitmap is a sequence of bits, not bytes of eight; reading and logging the bitmap block is not shown.
- FileSystem.FileSystem.Writei: device files and the byte layout of on-disk inodes; the caller's buffer is a value, so no aliasing with the cache.
- FileSystem.FileSystem.Itrunc: the type, device numbers and nlink of the inode, which it does not change.
- FileSystem.FileSystem.Bmap: starts with other files and blocks in any state between steps; steps of other processes inside the call are covered by the lemmas about single steps and `FileSystem.WrittenStable`, not interleaved in the method.
- Directories.Directories.Create: path walking (namex, skipelem) and open files; names are already cut to DIRSIZ; no crash between its steps, which the log rules out.
- Directories.Directories.Iput: sleep locks are taken for granted; whether the inode has been read is a parameter.
- LinkCounts.CreateKeeps: a directory's contents are a sequence of entries; their bytes in blocks are `FileSystem`.
- Umalloc.Heap.Malloc: addresses are counted in header units and are unbounded; sbrk returns regions above the static header that it has not returned before.
- Vm.Vm.Allocuvm: the pages to be added are not mapped before, as the kernel's process sizes ensure.
- Vm.Vm.Copyuvm: pages below the size are present, otherwise the source panics; P2V and V2P are the identity; accessed and dirty bits set by hardware are ignored.
- Vm.Vm.Setupkvm: the table of kernel regions is a parameter: above KERNBASE, page-aligned in physical memory, not overlapping.
- Vm.Vm.Mappages: each method is one step on the tables; other processes taking and freeing frames between its page steps are not interleaved.
- ProcTable.Table.Dispatch: clone and join are left out; their children share a page table and clone's early returns keep a slot allocated.
- ProcTable.Table.Exit: closing files and dropping the current directory come before the table lock and are not modelled.
- ProcTable.Table.Allocproc: pids are unbounded; that one differs from all before it holds until the source's int overflows.
- ProcTable.Table.Wait: the same for "never reaped before".
- Pipe.PipeState.Close: a process asleep in the pipe holds a file reference to its end, so that end is not being closed; freeing the page after both are closed is not modelled.
- TicketLock.MutualExclusion: threads match acquire and release and are fewer than the word counts; memory is sequentially consistent.
- BoundedBuffer.Buffer.Append: signals wake any one waiter; the destructor is not modelled.
- Stcf.Stcf: times are unbounded integers and durations at least 1; a process carries the number of its row, which the loop never reads, and equal keys are left open.
- Batch.Fifo: rows that arrive at the same time are taken shortest first, as the arrival queue orders them.
- ShellRoundTrip.RoundTrip: the printed form uses `<` and `>`; `>>` is parsed by the model but not printed.
- ShellLine.ParseCmdInPlace: tree nodes are values, so malloc of nodes and their layout are not shown; an error ends the parse instead of the process.
- ToyFs.FileSystem.CreateFile: names are compared whole, as they are up to 7 characters; a size above 8 writes past the inode's array, which the language leaves undefined; the records are values rather than bytes of the disk file.
- ToyFs.FileSystem.Read: a negative block number reads before the inode's array, which the language leaves undefined.
- ToyFs.FileSystem.Write: the same.
- Round robin: it decrements and requeues finished processes when the CPU has been idle.
- The line-reading loop of grep, the shell's runcmd and main, tsh and the small user programs.
- Inode cache slots (iget), ialloc's disk record, and stat copies.
- Segments, traps, interrupts, boot code, devices, the console and all output.
- The other allocators and stacks among the labs, the sorts and the inverted index.
