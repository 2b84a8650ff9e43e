# A verified model of the xv6 namespaces kernel

This project models the parts of xv6 for RISC-V, extended with nested pid namespaces, where an
invariant spans several functions, and proves what those parts are for.

- **Storage.** The redo log (`Journal` on the disk, `Log` in memory, `Reservation` under concurrency),
  the LRU buffer cache (`LruList`, `BufferCache`), inode content and block allocation (`FsState`,
  `FsSteps`, `FsTruncate`, `FileSystem`), the chunking of `filewrite` (`FileWrite`), and all of it
  against a crash (`CrashSafety`).  The disk is a sequence of blocks; a block write is atomic; a crash
  may come between any two of them, also during recovery.
- **Memory.** Sv39 page tables (section 4.4 of the RISC-V Privileged Architecture, version 1.12) and
  the page allocator (`PageTable`, `Vm`): the three-level tree against the flat map it stands for, and
  exactly how many free pages each operation needs.  The address spaces of all processes beside each
  other (`AddressSpaces`): every physical page has one owner, and no process sees what another does.
- **Processes.** Namespaces, pids and `ps_list` (`NamespaceState`, `Namespaces`); the scheduler with
  `sleep`, `wakeup`, `fork`, `exit` and `wait` as moves of any number of CPUs and processes, under
  every interleaving (`SchedulerState`, `Scheduler`, `WaitExit`).
- **Disk driver.** Driver, device and interrupt handler on a split virtqueue (sections 2.6 and 5.2 of
  VIRTIO 1.1), with completions in any order and 16-bit indices that wrap (`VirtqueueState`,
  `Virtqueue`).
- **User programs.** The allocator of section 8.7 of The C Programming Language, second edition
  (`HeapState`, `Umalloc`); the shell's parser against its grammar (`ShellGrammar`, `ShellParser`); the
  pattern matcher of `grep` against the language of its patterns (`Grep`).

State that the source updates in place is a class whose methods are proved against functions of the
old state; the protocols are step systems whose invariants are kept by every step.  `Blocks` has the
byte and word layout of a disk block, `Counting` facts about finite sets; `Common` and `ProcStates`
hold definitions that several modules share.  Environment that the model
does not contain enters as parameters: whether a user page can be written, whether memory can be had
for a new process, what `sbrk` answers, which status the disk reports.

Three properties one might expect do not hold of the code, and the model says exactly when they do:

- An operation within its block budget can still make `log_write` panic, because the test for a full
  log comes before absorption (kernel/log.c:220-221).  `Reservation.TooBigIsReachable` gives such a
  run.
- The buffer cache has as many buffers as a transaction may have blocks, so a commit of a full log
  finds no buffer for the log's own blocks and panics (kernel/bio.c:88).
  `Reservation.FullCommitIsReachable` gives such a run.  `Reservation.PanicExactly` says that after any
  run a step of the log panics if and only if the log is full and the step is a `log_write` or the
  commit.  `Log.Log.Commit` says the same of the code of `commit`, and also counts the buffers that
  readers outside of any operation have in use meanwhile: it succeeds if and only if there is nothing
  to commit, or these and the logged blocks are fewer than the buffers.
- A failed `mappages` does not undo the mappings it has made (kernel/vm.c:149-172).  It fails if and
  only if fewer pages are free than tables are missing on the way to its pages, and it leaves the map
  as it was if and only if there are too few for the first of them; in between it leaves all those
  mapped that there are tables for, as `Vm.Machine.Mappages` says.  `Vm.PartialMapIsReachable` is such
  a run from boot.

Where code and documentation differ the model follows the code: README.md of the repository describes
namespaces that are freed and orphans adopted by a live ancestor, but `head` and `used` of a namespace
are never cleared, and `wait` returns the global pid while `fork` and `clone` return the one of the
caller's namespace.

## Model

| member | source | states |
|---|---|---|
| `Journal.HeadRoundTrip` | kernel/log.c:86-114 | the header block read back after `write_head` gives the same block list |
| `Journal.RecoverInstalls` | kernel/log.c:116-123 | recovery installs exactly the transaction the log describes and leaves the log empty and recoverable |
| `Journal.RecoverAfterCrash` | kernel/log.c:68-83 | a recovery cut after any number of its writes and started again ends with the same home blocks |
| `Journal.RebootRecovers` | kernel/log.c:116-123 | the same for any number of crashes during recovery, one after the other |
| `Journal.CommitPrefix` | kernel/log.c:193-203 | a commit cut before the header write recovers to the disk as it was |
| `Journal.CommitPoint` | kernel/log.c:102-114 | after the header write the log describes the transaction, and what is left of the commit is a recovery |
| `Journal.CommitSuffix` | kernel/log.c:193-203 | a commit cut after the header write recovers to the disk with the whole transaction installed |
| `Journal.CrashAtomicity` | kernel/log.c:193-203 | for a cut after any write of `commit`, and any crashes of the recoveries that follow, the home blocks are those before the transaction or those with all of it, the latter exactly if the header write was done |
| `Journal.CommitInstalls` | kernel/log.c:193-203 | a commit that is not cut installs the transaction and empties the log |
| `Journal.HistoryIsSerial` | kernel/log.c:116-203 | over any history of commits, crashes and reboots the disk holds exactly the transactions whose header write was done, in their order |
| `Reservation.StepKeepsInv` | kernel/log.c:126-175 | every `begin_op`, `log_write`, `end_op` and end of a commit keeps: logged blocks plus the unused budgets of running operations fit in the log, and no operation runs during a commit |
| `Reservation.NobodyCommitting` | kernel/log.c:146-175 | while a commit runs no process is inside an operation |
| `Reservation.RunKeepsInv` | kernel/log.c:126-235 | the reservation invariant holds after every interleaving of processes |
| `Reservation.PanicExactly` | kernel/log.c:146-235 | in every reachable state a step panics if and only if the log is full and it is a `log_write` or the commit; such a `log_write` repeats a block that its own operation, with its budget used up, had logged |
| `Reservation.TooBigIsReachable` | kernel/log.c:220-221 | a run within all budgets that ends in a `log_write` that panics |
| `Reservation.FullCommitIsReachable` | kernel/bio.c:63-89 | a run within all budgets that ends in a commit that panics, for want of a buffer |
| `Log.Log.constructor` | kernel/log.c:54-66 | an empty log on a cache without logged blocks is valid |
| `Log.Log.BeginOp` | kernel/log.c:126-142 | an operation is admitted if and only if no commit runs and ten blocks for it and every running one fit beside those logged |
| `Log.Log.EndOp` | kernel/log.c:146-175 | the last operation commits all that was logged, so the home blocks become the logical ones, while readers keep what they read; earlier ones change nothing; the panics, exactly |
| `Log.Log.LogWrite` | kernel/log.c:214-235 | the block becomes part of the transaction once, its buffer is pinned, the logical disk changes at that block only; the panics, exactly |
| `Log.Log.WriteLog` | kernel/log.c:178-191 | writes the logged contents, in order, to the log's blocks, through the cache; it fails if and only if every buffer is pinned or in use |
| `Log.Log.WriteHead` | kernel/log.c:102-114 | writes the header with the present block list, as one disk write, beside any readers |
| `Log.Log.ReadHead` | kernel/log.c:86-97 | the block list becomes the one in the header |
| `Log.Log.InstallTrans` | kernel/log.c:68-83 | copies the log's blocks to their homes, in order, and unpins each buffer unless recovering, beside any readers |
| `Log.Log.Commit` | kernel/log.c:193-203 | the disk writes are those of `Journal.CommitWrites`, in that order; afterwards the home blocks are the logical contents, nothing is pinned, and those who read meanwhile have what they had; it fails if and only if there are blocks to commit and every buffer is pinned or in use |
| `Log.Log.RecoverFromLog` | kernel/log.c:116-123 | the disk writes are those of `Journal.RecoverWrites`, and the disk is the recovered one |
| `Log.CommittedIsLogical` | kernel/log.c:193-203 | what a commit installs is what the cache shows to readers |
| `LruList.UnlinkKeepsRing` | kernel/bio.c:127-128 | unlinking a buffer leaves one circular doubly linked list of the others, in the same order |
| `LruList.PushFrontKeepsRing` | kernel/bio.c:129-132 | linking a buffer after the head gives one ring with it in front |
| `LruList.OrderComplete` | kernel/bio.c:36-53 | a ring of as many distinct buffers as there are holds each of them |
| `BufferCache.Cache.constructor` | kernel/bio.c:36-53 | all buffers are in the ring, unreferenced, and readers see the disk |
| `BufferCache.Cache.FindCached` | kernel/bio.c:67-74 | finds the buffer of a block, or there is none |
| `BufferCache.Cache.FindFree` | kernel/bio.c:78-86 | finds, of the unreferenced buffers, the one released longest ago, or there is none |
| `BufferCache.Cache.Bget` | kernel/bio.c:58-89 | one buffer per block: a hit references it, a miss recycles the unreferenced buffer released longest ago; it fails if and only if all are referenced |
| `BufferCache.Cache.Bread` | kernel/bio.c:92-103 | the buffer holds the block's logical content, locked, and readers elsewhere see no change |
| `BufferCache.Cache.Bwrite` | kernel/bio.c:106-112 | one disk write of the buffer, and the logical disk changes at that block only |
| `BufferCache.Cache.Brelse` | kernel/bio.c:116-137 | gives up one reference; a buffer released by its last user goes to the front of the ring; readers see no change |
| `BufferCache.Cache.Bpin` | kernel/bio.c:139-144 | from here on readers see the buffer's content, whether or not it is on disk |
| `BufferCache.Cache.Bunpin` | kernel/bio.c:146-151 | after the content is on disk, unpinning changes nothing for readers |
| `BufferCache.RecycleKeeps` | kernel/bio.c:78-86 | recycling an unreferenced buffer loses no logged content and keeps one buffer per block |
| `BufferCache.ReleaseKeeps` | kernel/bio.c:116-137 | a release keeps the ring, the order by last release, and the logical disk |
| `BufferCache.UnpinKeeps` | kernel/bio.c:146-151 | unpinning keeps reference counts equal to users and pins |
| `BufferCache.OldestFree` | kernel/bio.c:78-86 | the last unreferenced buffer from the ring's end is the one released longest ago |
| `BufferCache.Room` | kernel/bio.c:78-88 | with fewer blocks pinned than buffers and none in use, a read always finds a buffer |
| `FsState.InodeRoundTrip` | kernel/fs.c:225-241 | an inode written to its block reads back, and its neighbours in the block are as they were |
| `FsSteps.AllocKeeps` | kernel/fs.c:65-88 | marking a free block keeps: every block referred to is marked, referred to once, and every marked data block has its one owner or is pending |
| `FsSteps.FreeKeeps` | kernel/fs.c:91-105 | clearing the bit of a block nobody refers to keeps the same |
| `FsSteps.AttachKeeps` | kernel/fs.c:387-396 | entering a new block in a direct slot, or as the indirect block, keeps ownership and content |
| `FsSteps.AttachIndirectKeeps` | kernel/fs.c:399-417 | entering a new block in the indirect block keeps ownership and content |
| `FsSteps.WroteContent` | kernel/fs.c:514-529 | bytes written block by block make up the splice of the file's content |
| `FsSteps.FinishWrite` | kernel/fs.c:531-538 | setting the size and writing the inode completes it |
| `FileSystem.FileSystem.Balloc` | kernel/fs.c:65-88 | the lowest block that was free, now marked and zeroed; 0 if and only if the disk is full, with nothing changed |
| `FileSystem.FileSystem.Bfree` | kernel/fs.c:91-105 | frees just that block, and no file changes |
| `FileSystem.FileSystem.Iupdate` | kernel/fs.c:225-241 | the inode on disk is the one in memory; other inodes and files are as they were |
| `FileSystem.FileSystem.Bmap` | kernel/fs.c:382-421 | the block of that number, which is allocated if it was missing; content, other files and blocks in place do not change; what may be logged |
| `FileSystem.FileSystem.Readi` | kernel/fs.c:471-496 | the bytes of the file's content from the offset, cut at its end; the rejected ranges; a failing copy |
| `FileSystem.FileSystem.Writei` | kernel/fs.c:505-539 | the content is spliced with the bytes copied, up to the count returned; other files and inodes do not change; unless the disk is full the count is all that can be read, up to the last block boundary; a chunk logs at most ten blocks and never exceeds its budget on the way |
| `FileSystem.FileSystem.Itrunc` | kernel/fs.c:425-453 | the file is empty, exactly the blocks it owned are free again, other files do not change |
| `FileSystem.Budget` | kernel/file.c:149-155 | why a chunk's data, map, indirect and inode blocks are at most ten |
| `FileWrite.File.Write` | kernel/file.c:134-181 | the content is spliced with the bytes written, the offset moves by their number, the result is `n` exactly if all were written, and how many are on a disk with room, exactly; it is a series of transactions of at most ten blocks, between any two of which a first part of the bytes has been written |
| `FileWrite.File.WriteChunk` | kernel/file.c:158-172 | one transaction of at most ten blocks, which changes no block it does not log; -1 exactly for a range that `writei` rejects, and otherwise the bytes it wrote, on a disk with room all that can be read up to the last block boundary |
| `FileWrite.SeriesHolds` | kernel/file.c:157-174 | from a disk that holds the file system before a `write`, each of its commits finds on the disk what the transactions before it made |
| `FileWrite.WriteSurvivesCrash` | kernel/file.c:157-174 | from a disk that holds the file system before a `write`: after a crash at any write of any of its commits, and any crashes of the recoveries, booting finds the file with its old content and a first part of the new bytes over it, up to the last transaction whose header was written, and every other file as it was |
| `FileWrite.SpliceMore` | kernel/file.c:157-174 | splicing chunk after chunk is splicing all of it |
| `CrashSafety.MountedFile` | kernel/fs.c:292-317 | a disk that holds a consistent state gives every file back, inode and content, when read afresh |
| `CrashSafety.InstalledIs` | kernel/log.c:68-83 | installing what an operation logged, in whatever order, gives the blocks it left in memory |
| `CrashSafety.CommitHolds` | kernel/log.c:193-203 | a commit that is not cut takes the disk from the state before an operation to the state after it |
| `CrashSafety.OperationIsAtomic` | kernel/log.c:193-203 | a crash during the commit of an operation leaves, after recovery, the blocks before the operation or those after it |
| `CrashSafety.FilesAfterCrash` | kernel/log.c:193-203 | so all files have their content from before the operation, or all from after it |
| `PageTable.PteRoundTrip` | kernel/riscv.h:347-352 | an entry gives back its page and flags, is valid, and is a leaf exactly if it grants access |
| `PageTable.PxOfPage` | kernel/riscv.h:354-357 | the three indices of an address are the digits of its page number |
| `PageTable.VpnInjective` | kernel/riscv.h:354-363 | different pages below MAXVA have different places in the tree |
| `PageTable.SetLeaf` | kernel/vm.c:149-172 | writing a leaf entry changes the flat map at that page only |
| `PageTable.AddTable` | kernel/vm.c:97-107 | a zeroed table added to the tree leaves the flat map as it was |
| `Vm.Machine.constructor` | kernel/kalloc.c:26-40 | exactly the pages of the range are free, each once, and how many they are |
| `Vm.Machine.Kfree` | kernel/kalloc.c:46-63 | the page is free, and no other memory is written |
| `Vm.Machine.Kalloc` | kernel/kalloc.c:68-82 | takes the page last freed; 0 if and only if none is free |
| `Vm.Machine.Walk` | kernel/vm.c:92-110 | the place of the entry for an address; with `alloc` just the missing tables are added out of as many free pages and the flat map stays; it fails if and only if fewer pages are free than tables are missing |
| `Vm.Machine.Mappages` | kernel/vm.c:149-172 | the flat map gains the range, page by page; it fails if and only if fewer pages are free than tables are missing for the range, and then exactly the pages are mapped, from the first on, that there are tables for; the map is unchanged if and only if there are none for the first |
| `Vm.PartialMapIsReachable` | kernel/vm.c:149-172 | a run from boot in which `mappages` fails and leaves a page mapped |
| `Vm.Machine.Uvmunmap` | kernel/vm.c:177-199 | the flat map loses exactly the range, and exactly its pages are free again if asked for |
| `Vm.Machine.Uvmdealloc` | kernel/vm.c:267-279 | the pages above the new size, and no others, are unmapped and freed |
| `Vm.Machine.Uvmalloc` | kernel/vm.c:232-261 | it succeeds if and only if pages are free for the new pages and the tables they lack; then these are mapped, zeroed, distinct and were free; on failure the flat map is as before and no page is lost |
| `Vm.Machine.Freewalk` | kernel/vm.c:283-299 | every table below, and nothing else, is free again |
| `Vm.Machine.Uvmfree` | kernel/vm.c:303-309 | all pages and tables of the address space are free again |
| `Vm.Machine.ProcFreepagetable` | kernel/proc.c:342-348 | the same for a process, whose trampoline and trapframe pages stay |
| `Vm.Machine.Uvmcopy` | kernel/vm.c:317-345 | it succeeds if and only if pages are free for the copies and the tables they lack; then the child has its own pages with the parent's contents and flags; the parent is as it was; on failure the child is as before and no page is lost |
| `Vm.Machine.Uvmcreate` | kernel/vm.c:203-212 | a page table that maps nothing, out of one free page; 0 if and only if there is none |
| `Vm.Machine.ProcPagetable` | kernel/proc.c:308-338 | a page table with the trampoline and the trapframe and nothing else, as `ProcFreepagetable` asks for, if and only if three pages are free; otherwise exactly the pages free before are free again |
| `AddressSpaces.UserKept` | kernel/vm.c:177-345 | a process whose pages are neither freed nor written, except for its saved registers, sees what it saw and owns what it owned |
| `AddressSpaces.WorldStep` | kernel/vm.c:177-345 | an operation that moves pages only between one process and the free list, and writes to no others, keeps every page with one owner and is not seen by any other process |
| `AddressSpaces.GrowUser` | kernel/vm.c:232-261 | a process that has got fresh pages owns them, its old ones and its tables, and nothing is lost |
| `AddressSpaces.ShrinkUser` | kernel/vm.c:267-279 | a process that has given pages back owns and sees the others as before, and nothing is lost |
| `AddressSpaces.Processes.constructor` | kernel/proc.c:54-62 | before the first process every page is free or the kernel's |
| `AddressSpaces.Processes.Allocproc` | kernel/proc.c:210-223 | a new process has a trapframe page and an empty page table if and only if four pages are free; otherwise exactly the pages free before are free again; no other process sees it |
| `AddressSpaces.Processes.Grow` | kernel/proc.c:412-415 | zeroed pages are added to what the process sees if and only if pages are free for them and their tables; otherwise it sees what it saw; no other process sees it and no page is lost |
| `AddressSpaces.Processes.Shrink` | kernel/proc.c:416-418 | the process keeps its first pages as they were and the others are free; a size below zero wraps around and changes nothing; no other process sees it |
| `AddressSpaces.Processes.Growproc` | kernel/proc.c:405-421 | both together: result, size and what the process sees, exactly |
| `AddressSpaces.Processes.CopyMemory` | kernel/proc.c:437-443 | the child sees in pages of its own what the parent sees, or nothing; the parent and all others see no change |
| `AddressSpaces.Processes.CopyTrapframe` | kernel/proc.c:445-449 | the child has the parent's saved registers, but 0 for the result; nothing else changes |
| `AddressSpaces.Processes.Fork` | kernel/proc.c:426-449 | with enough free pages, and how many that is, a child with a copy of what the parent sees and of its registers; otherwise nothing has changed and every page taken is free again; no process sees it |
| `AddressSpaces.Processes.Freeproc` | kernel/proc.c:271-280 | all that the process owned, and nothing else, is free; no other process sees it |
| `NamespaceState.ChainFacts` | kernel/proc.c:485-497 | from the namespace of a live process `depth` parent links lead, one level at a time, to the initial namespace; depth is below MAXDEPTH |
| `NamespaceState.UpUnique` | kernel/proc.c:196-208 | a namespace has one ancestor at each depth |
| `NamespaceState.PidsDiffer` | kernel/proc.c:194-208 | two live processes with the same ancestor namespace at depth d have different pids at depth d |
| `NamespaceState.AllocKeeps` | kernel/proc.c:165-208 | a new process keeps the tree, and pids distinct and below the counters in every namespace above it |
| `NamespaceState.HangKeeps` | kernel/proc.c:492-497 | a new namespace below one that is not too deep keeps the same and has no process yet |
| `NamespaceState.TameKeeps` | kernel/proc.c:271-304 | freeing, ending or reparenting processes keeps the same |
| `Namespaces.Table.constructor` | kernel/proc.c:55-102 | both tables empty |
| `Namespaces.Table.Userinit` | kernel/proc.c:364-401 | the first process heads the initial namespace and has pid 1 there |
| `Namespaces.Table.AssignPids` | kernel/proc.c:194-208 | the process has the next pid of every namespace from its own up, each of whose counters goes up by one |
| `Namespaces.Table.Allocproc` | kernel/proc.c:165-232 | the first free slot; when memory fails the slot is free again but the pids are used up |
| `Namespaces.Table.Allocnamespace` | kernel/proc.c:236-265 | the first namespace not in use; none if and only if all are |
| `Namespaces.Table.Fork` | kernel/proc.c:425-481 | one process more, a child in the caller's namespace, and the pid it has there; -1 if and only if there is no slot or no memory, with the same processes as before |
| `Namespaces.Table.Clone` | kernel/proc.c:485-550 | one process more, alone in and head of a new namespace one level down, with pid 1 there; the result is its pid in the caller's namespace; -1 exactly when a table is full, memory fails or the limit of depth is reached |
| `Namespaces.Table.CompareNs` | kernel/proc.c:553-561 | whether the second namespace is the first or above it |
| `Namespaces.Table.GetNsHead` | kernel/proc.c:563-572 | the head of the nearest namespace on the way up that has one |
| `Namespaces.Table.Getpid` | kernel/sysproc.c:18-23 | the pid in the process's own namespace |
| `Namespaces.Table.Reparent` | kernel/proc.c:576-588 | exactly the children of the process get the head of their namespace as parent |
| `Namespaces.Table.Exit` | kernel/proc.c:593-640 | after that the process is a zombie; the first process may not exit |
| `Namespaces.Table.Wait` | kernel/proc.c:644-689 | frees the first child that is a zombie and returns its global pid; otherwise fails without children or when killed, or sleeps |
| `Namespaces.Table.PsList` | kernel/proc.c:960-993 | the number of processes seen from the caller's namespace, and the pids of the first of them, as many as the limit and the caller's array admit |
| `Namespaces.ListedExactly` | kernel/proc.c:973-976 | exactly the live processes whose namespace is or descends from the caller's, each once |
| `Namespaces.ShownDistinct` | kernel/proc.c:978-989 | the pids written out are all different, local or global |
| `Namespaces.ShownExactly` | kernel/proc.c:960-993 | with room for all, a number is written out if and only if it is the pid, at the caller's depth, of a process the caller's namespace sees |
| `SchedulerState.RunningOnce` | kernel/proc.c:709-731 | a RUNNING process is current on some CPU, except in the instant before its scheduler has set it |
| `SchedulerState.CurrentOnce` | kernel/proc.c:698-732 | no process is current on two CPUs, nor chosen by one and current on another |
| `SchedulerState.ResumesSaved` | kernel/proc.c:715-723 | the context a scheduler is about to resume is a saved one, of a process that runs on no CPU |
| `Scheduler.ThreadsKept` | kernel/proc.c:698-853 | every move of every CPU and process keeps locks, states, saved contexts and current processes consistent |
| `WaitExit.WaitsKept` | kernel/proc.c:576-689 | every move keeps: a dozing parent of a zombie is about to be woken by the holder of `wait_lock` |
| `WaitExit.NoLostWakeup` | kernel/proc.c:615-635 | while `wait_lock` is free no process asleep in `wait` has a ZOMBIE child |
| `WaitExit.RunKeeps` | kernel/proc.c:576-853 | both invariants hold after every run from boot |
| `WaitExit.ResumedOnce` | kernel/proc.c:715-760 | in every run a context is resumed only if it was saved since it was last resumed |
| `WaitExit.SleepsSafely` | kernel/proc.c:644-689 | in every run no parent sleeps in `wait` on a zombie child while `wait_lock` is free |
| `WaitExit.ZombieIsOff` | kernel/proc.c:657-676 | a zombie whose lock is free runs on no CPU, so freeing it is safe |
| `WaitExit.SchedChecks` | kernel/proc.c:741-760 | `sched` is always entered with the process lock held, `wait_lock` not held, and a state other than RUNNING |
| `VirtqueueState.Partition` | kernel/virtio_disk.c:156-213 | each descriptor is free or in the chain of one request, and each request has exactly three |
| `VirtqueueState.PushRing` | kernel/virtio_disk.c:271-277 | adding a ring entry overwrites no live one, also when the 16-bit index wraps |
| `VirtqueueState.SubmitKeeps` | kernel/virtio_disk.c:226-281 | submitting keeps chains, buffers and rings consistent |
| `VirtqueueState.CompleteKeeps` | kernel/virtio_disk.c:309-314 | so does a completion of any request the device has taken |
| `VirtqueueState.ConsumeKeeps` | kernel/virtio_disk.c:312-324 | so does the handler's turn, which releases the buffer of the request at the front and no other |
| `VirtqueueState.ReleaseKeeps` | kernel/virtio_disk.c:288-289 | so does freeing the chain of a request that was seen |
| `VirtqueueState.RunKeeps` | kernel/virtio_disk.c:156-327 | all of it holds after every run of driver, device and handler |
| `VirtqueueState.FreedAfterSeen` | kernel/virtio_disk.c:283-289 | in every run a chain is freed only after the handler saw its completion |
| `VirtqueueState.EnabledCanStep` | kernel/virtio_disk.c:312-319 | an index that differs means there is an entry, and it is a request in flight |
| `Virtqueue.Driver.constructor` | kernel/virtio_disk.c:61-64 | all descriptors free and the rings empty |
| `Virtqueue.Driver.AllocDesc` | kernel/virtio_disk.c:156-166 | the first free descriptor, or -1 if and only if there is none |
| `Virtqueue.Driver.FreeDesc` | kernel/virtio_disk.c:169-182 | frees and clears a descriptor; the two panics, exactly |
| `Virtqueue.Driver.FreeChain` | kernel/virtio_disk.c:185-197 | frees and clears every descriptor of a chain of any length, and no other |
| `Virtqueue.Driver.Alloc3Desc` | kernel/virtio_disk.c:201-213 | three different descriptors if and only if three are free; otherwise nothing changes |
| `Virtqueue.Driver.Submit` | kernel/virtio_disk.c:215-281 | a request in three free descriptors, published to the device; if they are lacking nothing changes |
| `Virtqueue.Driver.Pop` | kernel/virtio_disk.c:271-281 | the device takes the oldest request published |
| `Virtqueue.Driver.Perform` | kernel/virtio_disk.c:235-265 | following the descriptors the device moves data between exactly the buffer and the sector of the request |
| `Virtqueue.Driver.Intr` | kernel/virtio_disk.c:294-327 | all completions are seen in order, up to the first that failed |
| `Virtqueue.ConsumedExactly` | kernel/virtio_disk.c:312-324 | exactly the requests seen are done and exactly their buffers are released |
| `Virtqueue.Driver.Finish` | kernel/virtio_disk.c:283-291 | frees the request's own three descriptors if and only if its completion was seen; otherwise nothing changes |
| `HeapState.LiveDisjoint` | user/umalloc.c:63-90 | blocks in use do not overlap |
| `HeapState.InsertKeeps` | user/umalloc.c:33-42 | a freed block joins the circular list in address order, every unit still in one block |
| `HeapState.MergeKeeps` | user/umalloc.c:33-42 | two free blocks that touch become one |
| `HeapState.TakeKeeps` | user/umalloc.c:76-77 | taking a whole free block keeps list and ownership |
| `HeapState.SplitKeeps` | user/umalloc.c:78-82 | so does taking the end of one |
| `HeapState.AddCoreKeeps` | user/umalloc.c:54-58 | so does memory from `sbrk` |
| `Umalloc.CoalescedKeeps` | user/umalloc.c:33-42 | after `free` no two free blocks touch, and the block was freed and nothing else |
| `Umalloc.Heap.constructor` | user/umalloc.c:21-22 | an unused heap |
| `Umalloc.Heap.Free` | user/umalloc.c:24-44 | exactly that block becomes free; blocks in use keep their units and their contents; the next search starts after the node before the block |
| `Umalloc.Heap.Morecore` | user/umalloc.c:46-61 | the heap grows by at least 4096 units, after which the request fits, or is unchanged |
| `Umalloc.Heap.Malloc` | user/umalloc.c:63-90 | a block of enough units that were free, the end of the first free block after `freep` that is large enough; blocks in use are disjoint from it and keep their contents; null if and only if nothing fits and `sbrk` fails |
| `Umalloc.Heap.Search` | user/umalloc.c:74-89 | the walk round the list ends, and asks for memory at most once and only if no free block fits |
| `Umalloc.Heap.Carve` | user/umalloc.c:75-84 | the block taken is the end of a free one, or all of it |
| `Umalloc.RunFits` | user/umalloc.c:33-42 | consecutive free units are in one free block |
| `Umalloc.FreeListDetermined` | user/umalloc.c:24-44 | two heaps with the same free units have the same free list, block for block |
| `Umalloc.FreeUndoesMalloc` | user/umalloc.c:24-90 | freeing what was just allocated gives the free list back, block for block |
| `ShellGrammar.ParsesGrammar` | user/sh.c:378-480 | the parser gives a command for a token sequence if and only if the grammar derives it, with that meaning |
| `ShellGrammar.LineComplete` | user/sh.c:378-393 | every derivation is found, with its meaning |
| `ShellGrammar.LineSound` | user/sh.c:378-393 | whatever is accepted has a derivation |
| `ShellGrammar.WordsKept` | user/sh.c:449-480 | a command holds exactly the words of its line, each once |
| `ShellParser.GetToken` | user/sh.c:299-342 | the next token of the line, and the rest of its tokens |
| `ShellParser.Peek` | user/sh.c:344-354 | skips white space and looks at the next character |
| `ShellParser.ParseRedirs` | user/sh.c:408-431 | on characters what the grammar's parser does on tokens, and so for the next five |
| `ShellParser.ParseArgs` | user/sh.c:463-479 | words with redirections among them, up to nine |
| `ShellParser.ParseExec` | user/sh.c:449-480 | a block or a simple command |
| `ShellParser.ParseBlock` | user/sh.c:433-447 | a line in parentheses, with redirections |
| `ShellParser.ParsePipe` | user/sh.c:395-406 | commands joined by bars |
| `ShellParser.ParseLine` | user/sh.c:378-393 | pipelines with ampersands and semicolons |
| `ShellParser.ParseCmd` | user/sh.c:361-376 | a command if and only if the grammar derives one from the whole line; its words are not empty, free of white space and symbols, do not overlap, are all the words of the line, and are afterwards the NUL-terminated strings at their places |
| `ShellParser.WordsOfLine` | user/sh.c:299-342 | the words of a line are maximal, plain, and one after the other |
| `ShellParser.SpansOk` | user/sh.c:408-480 | so the words of a command do not overlap |
| `ShellParser.Nulterminate` | user/sh.c:483-527 | a NUL after every word of the command, and nothing else changes |
| `ShellParser.StringsAreWords` | user/sh.c:483-527 | the string at each word is then the word |
| `Grep.MatchHere` | user/grep.c:84-95 | true if and only if some prefix of the text is in the language of the pattern |
| `Grep.MatchStar` | user/grep.c:98-105 | the same after any number of the starred character |
| `Grep.Match` | user/grep.c:71-81 | true if and only if that is so at some suffix of the text, or at its start for `^` |
| `Grep.JoinPiece` | user/grep.c:84-95 | a piece and a match of the rest make a match |
| `Grep.SplitPiece` | user/grep.c:84-95 | a match is a piece and a match of the rest |

## Left out

- Boot, traps, assembly, control registers, the interrupt controller and the UART: no logic of their own to state.
- Spinlocks, sleep locks and memory fences: acquiring and releasing are atomic steps.
- Directories, path names, link counts and the inode cache: maps on top of the inode layer, easier than what is below them.
- Pipes, the console, `exec`, `copyin` and `copyout`, system-call arguments, accounting fields of a process, and the remaining user programs.
- The inode layer calls the log through a model of the running transaction: `FileSystem` works on the blocks as `Log` and `BufferCache` show them to readers, and `CrashSafety` and `Journal` say what becomes of the blocks it logs.
- Log.Log.Commit: the buffers that readers have in use do not change while it runs, and are not of the blocks it writes; where they are, the source waits for the reader first.
- Log.Log.EndOp: the same, for the operation that commits.
- Log.Log.WriteLog: the same.
- Log.Log.WriteHead: the same.
- Log.Log.InstallTrans: the same.
- Reservation.PanicExactly: does not count buffers that readers have in use; `Log.Log.Commit` does.
- Log.Log.RecoverFromLog: for a log whose header counts no more blocks than the log has and lists blocks outside it, as every commit and recovery leaves it.
- A copy from user memory that fails part of the way: it writes either all or none of a block's bytes.
- BufferCache.Cache.Brelse: for a buffer whose content is the block's or the logged one; releasing one that a failed copy has changed in part is not modelled.
- Vm.Machine.Kfree: for a page that is not free; the source does not notice one freed twice, and makes a cycle of the free list.
- Kernel panics other than those in the table are preconditions: remapping a page, unmapping one that is not mapped, freeing a page twice.
- `sched`, `yield`, `sleep`, `wakeup`, `fork`, `exit` and `wait` are moves of a step system, not methods; a critical section under one process lock is one move unless it crosses a context switch.
- WaitExit.SchedChecks: the nesting depth of disabled interrupts, and whether they are enabled, are not part of the state.
- SchedulerState.RunningOnce: allows for the instant between setting the state and setting the CPU's current process, in which the scheduler holds the process lock.
- Counters of pids and namespaces do not wrap, and `num_proc` is not modelled: nothing reads it.
- Namespaces.Table.Reparent: does not claim that the new parent is alive, since the head of a namespace is never cleared.
- Namespaces.Table.Fork: memory of parent and child is not part of it; `AddressSpaces.Processes.Fork` states the copy.
- AddressSpaces.Processes.Allocproc: the slot is given; `Namespaces.Table.Allocproc` states which it is.
- AddressSpaces.Processes.Growproc: for physical memory that ends at PHYSTOP or below, which keeps the size of a process far from the trapframe.
- The device keeps to the virtqueue protocol; its failures are those it reports as a status.
- Umalloc.Heap.Malloc: requests for which the size passed to `sbrk` does not fit a 32-bit int, and programs that call `sbrk` to shrink, are not covered.
- ShellParser.ParseExec: the command is a value, built when its words are known, where the source fills in the words of a node that redirections already point to.
- Running a parsed command, and the shell's main loop.
