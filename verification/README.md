# A verified model of xv6-docker

Dafny models of the parts of this xv6 kernel and its user library that keep state or run concurrently, with
proofs of what they keep over whole runs. `dafny verify dfyconfig.toml` checks everything.

- **Redo log** (`RedoLog`, `LogProtocol`, `LogDurability`, `Log`). The disk is a sequence of blocks that changes one
  block per write and may crash between any two. `LogProtocol` interleaves operations, commits, crashes and
  recoveries; `LogDurability` says that what has ended is committed; `Log` is log.c running on the buffer cache, with
  every disk image recorded, while other processes hold buffers.
- **Buffer cache** (`BufferCache`, `CacheProtocol`). bio.c with its doubly linked list, and the same cache used by
  many processes at once, over the memory disk of memide.c.
- **Log on cache** (`CachedLog`, `LogOverCache`). `CachedLog` is log.c and bio.c together, step by step, with any
  number of processes reading, logging, committing and crashing; it refines `LogProtocol`. `LogOverCache` goes the
  other way and says when there are buffers enough.
- **Files** (`FsFormat`, `BlockMap`, `FileWrites`, `FileSystem`). Bitmap, on-disk inodes, direct and indirect
  blocks, and each file as a flat byte sequence. `blocks` is the latest content of each block, which is what the
  cache refines.
- **Directories and paths** (`Directory`, `DirectoryFile`, `Paths`, `InodeCache`).
- **Pages** (`PageTable`, `AddressSpace`, `VirtualMemory`). kalloc.c and vm.c. Frames are numbered by physical address
  / 4096; `use` says what each frame is for, and the free list's links are kept apart from the tables' contents.
- **Scheduler queue** (`RunQueue`, `ProcessQueue`, on `LinkedLists` and `Sequences`). `ProcessQueue` follows the
  queue's pointers through fork, exit, wait, the scheduler and prio_set, one critical section at a time.
- **Sleeping** (`SleepWakeup`, `SleepLock`, `LogWaits`, `PipeProtocol`, `PipeCalls`). sleep, wakeup and wakeup1 as
  steps that take and release the caller's spin lock and ptable.lock one at a time; spin locks themselves are atomic.
  `LogWaits` is begin_op and end_op, and `PipeCalls` is about whole calls of pipewrite, piperead and pipeclose.
- **User heap** (`UserHeap`, `UserMalloc`).
- **JSON tokens** (`Jsmn`, `JsmnParser`, `JsmnCoverage`, `JsonText`, `JsmnErrors`). The tokenizer and its code; that it
  leaves nothing out; what it makes of JSON; and what its error codes mean.
- **Shell parser** (`Shell`, `ShellParser`, `ShellGrammar`). The parser, its code, and the grammar it is.

## Where the code does not do what it is meant to

Each of these is stated by a lemma or a contract, with the exact condition under which the expected property holds.

- prio_set drops the queue's lock between its search, removal and enqueue, and takes zombies. It can put a process
  into the queue that is listed, exiting or freed; wait then frees the slot in place and the next fork links it
  to itself (`ProcessQueue.StepKeepsExactly`, `ProcessQueue.PrioSetExactly`, `ProcessQueue.TwoCallsDamage`,
  `ProcessQueue.ZombieLoop`, `ProcessQueue.FreeSlotQueued`).
- sys_prio_set fetches its first argument twice (sysproc.c:240-241), so it can only give a process its own pid as its
  priority (`RunQueue.PrioQueue.SysPrioSet`), where test1.c:17 asks for 7.
- remove_node does not test the priority it indexes the queue with, and its system call takes pid and priority from the
  caller's memory (sysproc.c:245-251). Within the queue, and at the -1 that wait stores, it does no harm; anywhere else
  it takes some other word for a list (`ProcessQueue.StepKeepsExactly`, `ProcessQueue.AstrayReached`).
- log_write tests for a full log before it looks for the block in the header. A log area of any size has a run in
  which a write within its reservation panics (`LogProtocol.AdmittedWriteCanPanic`,
  `LogProtocol.AdmittedWritePanics`); with the area mkfs.c:25 makes, LOGSIZE blocks including the header, that can be
  an append (`LogProtocol.ReservationsHonoured`).
- NBUF equals LOGSIZE (param.h:11-12). A commit that has the cache to itself finds buffers exactly when the log area
  has no more than LOGSIZE blocks (`LogOverCache.CommitFindsBuffers`), and mkfs stays within that. fileread takes no
  transaction (file.c:95-106): with as many blocks logged or being read as there are buffers, commit panics
  (`Log.BgetFinds`, `Log.Log.Commit`); for the log of mkfs one reader is enough (`LogOverCache.ReadersStarveCommit`).
- MAXFILE is twice what bmap can address (fs.h:26); writei lets such a range pass and bmap panics
  (`FileSystem.FileSystem.Writei`).
- ".." of a removed directory that is still in use may lead to a parent that was freed; a path through it panics in
  ilock (`InodeCache.FreedInodePanics`, `InodeCache.RemovedParentPanics`).
- A killed writer that gives up on a full pipe does not wake the readers (`PipeProtocol.LostExactlyWhenLossy`,
  `PipeProtocol.KilledWriterStrandsReader`).
- kill wakes a process that sleeps, but one that has tested `killed` and is about to sleep on a pipe sleeps all the same
  (`PipeCalls.KilledSleepsOnlyIfMissed`, `PipeCalls.KillMissed`).
- malloc's rounding wraps for requests within 7 bytes of 2^32 (`UserMalloc.LargeEnough`). Its sbrk argument is
  negative from 2^31 - 15 bytes on and 0 for 2^32 - 15 to 2^32 - 8 (`UserMalloc.SbrkArgumentSign`).
- dirlink keeps 16 bits of the inode number (`Directory.LinkAddsEntry`), which takes a larger image than mkfs makes,
  with its 200 inodes.
- The shell reads `>>` but opens the file as for `>`, which does not truncate it (`ShellParser.AppendOpensAsWrite`).

## Model

| member | source | states |
|---|---|---|
| RedoLog.HeaderRoundTrip | log.c:84-112 | what write_head stores, read_head reads back |
| RedoLog.RecoveredAt | log.c:68-81 | recovery gives a home block the content of the last log slot naming it, and leaves the others alone |
| RedoLog.LogBlockWriteInvisible | log.c:175-188 | with an empty header no write to a log slot changes what recovery yields |
| RedoLog.HeaderWriteCommits | log.c:97-112 | the one header write moves what recovery yields from the old home blocks to the logged ones |
| RedoLog.InstallInvisible | log.c:68-81 | recovery interrupted after any install write yields the same when run again |
| RedoLog.ClearInvisible | log.c:114-121 | clearing the header after a full install changes nothing recovery yields |
| LogProtocol.StepKeepsInv | log.c:124-228 | every step of begin_op, log_write, end_op, commit, recovery and every crash keeps the log's invariant |
| LogProtocol.CrashAtomicity | log.c:68-200 | at any moment of any run with any crashes, recovery yields the initial home blocks with exactly the committed transactions' writes applied in order |
| LogProtocol.OperationAllOrNothing | log.c:124-172 | each begin_op/end_op operation survives with all the log_writes it made in the run, in order, or with none, and none while it is still open |
| LogProtocol.CommittedOnlyGrows | log.c:190-200 | only the header write of a full log commits anything, and nothing committed is lost |
| LogProtocol.HomeWritesAreCommitted | log.c:190-200 | a home block on disk changes only during install or replay and only to its committed content |
| LogProtocol.QuiescentDiskIsDurable | log.c:114-121 | with an empty header the home blocks on disk are the committed contents |
| LogProtocol.ReplayFinishes | log.c:114-121 | recovery left alone ends with the log empty and the home blocks equal to the committed contents |
| LogProtocol.LogSpace | log.c:124-172 | logged blocks plus unused reservations stay within LOGSIZE, no block is logged twice, and commit runs with no operation open |
| LogProtocol.AdmittedWritePanics | log.c:216-223 | in every run a log_write within its operation's reservation panics if and only if the header is full; in an area with room for LOGSIZE blocks only when the block is already logged and every reservation is used up |
| LogProtocol.AdmittedWriteCanPanic | log.c:216-223 | a log area of any size has a run ending in such a panic, an append in a small one, an absorbed write in a large one |
| LogProtocol.ReservationsHonoured | log.c:216-223 | appends alone: none within its reservation ever panics if and only if the log area exceeds LOGSIZE blocks |
| LogDurability.IdleLogIsEmpty | log.c:143-172 | in every run a log with no operation open and no commit going on has nothing left to commit; until a commit the header names exactly the blocks written since the last one; a commit is started only for a log that is not empty |
| LogDurability.LastEndCommits | log.c:143-200 | the last end_op, left alone, makes the transaction the last committed one and puts it in place, in 2 n + 2 disk writes for n blocks and none for an empty log, before it can set committing to 0 |
| LogDurability.EndedOperationSurvives | log.c:124-200 | once an operation has ended and the log has settled without a crash, all its log_writes survive any later run with any crashes |
| Log.BgetFinds | bio.c:61-93 | whoever uses the cache, bget finds a buffer if and only if the block is pinned or in use or fewer than NBUF blocks are |
| Log.Log.LogWrite | log.c:211-228 | panics exactly on a full log or outside a transaction; otherwise absorbs or appends the block, pins its buffer and makes the data the latest content |
| Log.Log.WriteLog | log.c:175-188 | every logged block reaches its slot, and a crash at any of these writes recovers to the state before; panics, before any write, exactly when the blocks logged and those others read fill the cache |
| Log.Log.WriteHead | log.c:100-112 | exactly one disk write, after which the disk header is the in-memory one |
| Log.Log.ReadHead | log.c:84-95 | the in-memory header becomes the one on disk |
| Log.Log.InstallTrans | log.c:68-81 | home blocks get their slots' contents one write at a time, every pin is released, and buffers others hold are untouched |
| Log.Log.Commit | log.c:190-200 | a crash before the header write recovers to the old home blocks, from it on to the logged ones; at the end the log is empty, nothing is pinned and the buffers other processes hold are untouched; panics exactly when the blocks logged and those others read fill the cache |
| Log.Log.RecoverFromLog | log.c:114-121 | the disk becomes its recovered form, and a crash at any write on the way recovers to the same |
| BufferCache.Cache.constructor | bio.c:38-56 | the list is a well-formed circular permutation of all buffers, most recently linked first |
| BufferCache.Cache.FindCached | bio.c:68-76 | the forward walk finds the buffer that caches the block or none does |
| BufferCache.Cache.FindUnused | bio.c:78-91 | the backward walk finds the least recently used buffer that is neither referenced nor dirty |
| BufferCache.Cache.Bget | bio.c:61-93 | takes a reference on the block's own buffer, else recycles the victim, else panics; no block ever has two buffers |
| BufferCache.Cache.Bread | bio.c:95-106 | the buffer comes back locked, valid and with the latest content of the block, or, if another process has its lock, referenced and waiting |
| BufferCache.Cache.LockAndFill | bio.c:95-106 | once the lock is free, the rest of bread: locked, valid and with the latest content |
| BufferCache.Cache.Bwrite | bio.c:108-115 | one block of the disk changes at once and the buffer is clean |
| BufferCache.Cache.Brelse | bio.c:117-139 | lock and reference are dropped; at the last reference the buffer becomes the first of the list and every two others keep their order; the links stay a permutation |
| BufferCache.SomeBufferFree | bio.c:78-92 | bget cannot panic while the buffers in use or pinned hold fewer than NBUF blocks |
| BufferCache.PinKeepsCoherent | log.c:224-226 | log_write changes only the latest content, not the disk |
| BufferCache.WriteKeepsCoherent | memide.c:39-56 | bwrite changes disk and latest content together |
| CacheProtocol.StepKeepsInv | bio.c:61-139 | every step of any process keeps references, locks, uniqueness and coherence |
| CacheProtocol.CacheRefinesBlockStore | bio.c:61-139 | in every run a locked, unmodified buffer shows the content last logged or written for its block, blocks without a dirty buffer have it on disk, the list is a permutation and no block has two buffers |
| CacheProtocol.OneHolderPerBlock | bio.c:61-93 | two processes never hold buffers of the same block |
| CacheProtocol.DirtyStaysUntilWritten | bio.c:78-91 | a dirty buffer is never recycled before bwrite, and only bwrite changes the disk, at that block alone |
| CacheProtocol.OrderByRelease | bio.c:128-136 | in every run the list has one buffer before another exactly when its last user left later; those never released stay behind, in their old order |
| CacheProtocol.RecyclesLeastRecent | bio.c:78-91 | for a block that is not cached bget takes, of all buffers neither referenced nor dirty, the one whose last user left longest ago, or one never used |
| CachedLog.StepRefines | log.c:68-228 | every step of any process on log.c and bio.c together keeps their joint invariant and is a step of the log protocol, over the cache's disk and contents, or none; the committing process writes exactly what the protocol writes, though it copies from buffers |
| CachedLog.CachedCrashAtomicity | log.c:68-228 | at any moment of any such run, with readers of any blocks and any crashes, recovery yields the initial home blocks with exactly the committed transactions' writes applied in order |
| CachedLog.CachedReads | bio.c:95-106 | at any moment between recoveries, who has a home block locked and unchanged sees the initial content with the committed and the logged writes applied |
| CachedLog.CachedIdle | log.c:143-200 | with no operation open and no commit or recovery going on, no buffer is dirty and the home blocks on disk are the committed contents |
| LogOverCache.LogRunsOnCache | log.c:68-228 | conversely every run of the log protocol, crashes included, is a run of the buffer cache with the same disk and block contents, pinning exactly the blocks logged and not yet installed |
| LogOverCache.ReadersStarveCommit | log.c:175-188 | a log area of any size has a run up to a commit of a full log for which bget finds no buffer, the unpinned ones being held by readers of other blocks |
| LogOverCache.CommitFindsBuffers | log.c:175-188 | in every run a commit with the cache to itself finds a buffer for the log if and only if the log area has at most LOGSIZE blocks |
| FsFormat.DinodeRoundTrip | fs.c:219-235 | an inode stored by iupdate reads back the same and the seven others in its block are untouched |
| FsFormat.DinodeLayout | fs.h:29-36 | every field of the inode is the little-endian number at its offset in the C struct |
| FsFormat.BitIs | fs.c:66-68 | the bit tested and set is the one of weight 2^k |
| FsFormat.MarkAt | fs.c:56-95 | setting or clearing one block's bit leaves every other block's bit alone |
| FileSystem.FileSystem.Balloc | fs.c:56-78 | returns the lowest free block, now marked and zeroed, or panics exactly when every block is marked |
| FileSystem.FileSystem.Bfree | fs.c:81-95 | clears exactly that bit, and panics exactly when it was clear |
| FileSystem.FileSystem.Bmap | fs.c:367-393 | maps the block with ownership kept and no byte of any file changed; changes nothing when it was mapped; panics exactly out of range or with fewer blocks free than it has to allocate |
| BlockMap.FileLayout | fs.c:361-393 | file block bn below 12 is addrs[bn], any other the entry bn - 12 of the block addrs[12] |
| BlockMap.AddSlotKeepsOwn | fs.c:367-393 | a free block given to one slot keeps all reachable blocks non-zero, distinct and marked |
| BlockMap.FreeAndOwned | fs.c:56-95 | the free blocks and the blocks of files together are the data blocks |
| FileSystem.FileSystem.Iupdate | fs.c:219-235 | the inode's disk copy becomes the in-memory one |
| FileSystem.FileSystem.Writei | fs.c:470-497 | the file becomes its old bytes with src spliced in at off, every other file is untouched, and every disk inode equals its in-memory copy though iupdate runs only on growth; states exactly which ranges are refused; panics exactly beyond what bmap reaches or when the file's growth, indirect block included, exceeds the blocks free before the call, and else takes just that many |
| FileWrites.GrowAndStore | fs.c:492-495 | a new mapping forces growth, so storing the grown inode restores write-through for all inodes |
| FileSystem.FileSystem.Readi | fs.c:444-465 | returns exactly the requested slice of the file clipped at its end, allocating nothing and never panicking |
| FileSystem.FileSystem.Itrunc | fs.c:400-427 | frees exactly the inode's blocks, each once, never hits the freeing-free-block panic, and leaves other files alone |
| Directory.Namecmp | fs.c:502-506 | equal exactly when the names agree up to NUL or 14 bytes |
| Directory.CopyName | string.c:79-90 | the name field holds the bytes that count, NUL-padded, and compares equal to the name |
| Directory.Dirlookup | fs.c:510-530 | finds the entry the directory, as a finite map on cut names, has for the name, and its slot; none when there is none |
| Directory.PositionIsMap | fs.c:518-527 | the first matching live slot is the map's entry |
| DirectoryFile.Dirlink | fs.c:533-557 | on the directory's file: refused exactly when the name is present; panics exactly when bmap cannot reach the slot or too few blocks are free for it; otherwise the first empty slot is used, or a new one at the end, and no other file changes |
| Directory.LinkAddsEntry | fs.c:546-555 | the map gains exactly that entry if and only if the inode number is non-zero and fits 16 bits; names stay unique; the directory grows only when no slot is empty |
| DirectoryFile.Unlink | sysfile.c:205-208 | the write of zeros never fails, the directory as a map loses exactly that name, and no other file changes |
| Directory.UnlinkUndoesLink | sysfile.c:205-208 | linking a name and clearing it gives the old map back |
| DirectoryFile.WriteIsPut | fs.c:552-554 | writing a 16-byte entry at its offset of the directory file changes that slot alone |
| Paths.Skipelem | fs.c:574-593 | splits off the first component of the path as splitting at slashes and cutting to 14 bytes gives it; none left exactly when there are no components; the rest is empty exactly after the last |
| Paths.ComponentsJoin | fs.c:574-593 | the components of "q/p" are those of q and then those of p; an element without slashes is one component, nothing is none |
| InodeCache.Cache.Iget | fs.c:240-270 | one more reference to that inode and no other count changes; one live entry per inode; panics exactly when all entries are in use by others |
| InodeCache.Cache.Ilock | fs.c:283-308 | the inode is read in; panics exactly when it is free on disk |
| InodeCache.Cache.Iput | fs.c:326-347 | one reference less; the inode is freed on disk exactly when it was read in, this was the last reference and there are no links |
| InodeCache.Cache.Namex | fs.c:599-632 | the result is the walk of the components through the directories, from the root's inode for a path that starts with a slash and from the current directory's for any other; reference counts end unchanged but for one more on the inode returned; no inode is freed on the way; panics only at a free inode with components left, or at an inode on the way that has no entry while all entries are in use |
| InodeCache.ResolveLast | fs.c:599-632 | the walk from its other end: the last name is looked up where the names before it lead, and for the parent it stops there |
| InodeCache.AbsolutePath | fs.c:604-605 | an absolute path leads to the same inode from every current directory |
| InodeCache.LookupComposes | fs.c:599-632 | changing to the directory q and looking up the relative path p is looking up "q/p", also for the parent |
| InodeCache.FreedInodePanics | fs.c:599-632 | the walk ends in ilock's panic if and only if a proper prefix of the components leads to a free inode |
| InodeCache.RemovedParentPanics | fs.c:599-632 | such a disk and path: a removed directory in use whose parent has been freed, and "../x" |
| PageTable.SetPteChangesOne | vm.c:64-81 | storing one entry changes the mapping of that page alone |
| PageTable.NewTableChangesNone | vm.c:49-57 | a fresh zeroed page table changes no mapping |
| VirtualMemory.Vm.Kalloc | kalloc.c:79-89 | pops the head of the free list, or reports it empty |
| VirtualMemory.Vm.Kfree | kalloc.c:59-74 | the frame becomes the head of the free list, which stays a chain of exactly the free frames |
| VirtualMemory.Vm.FreeRange | kalloc.c:46-52 | exactly the whole frames between the addresses become free |
| VirtualMemory.Vm.Walk | vm.c:40-59 | finds the table or adds a zeroed one; fails exactly when there is none and no frame is free |
| VirtualMemory.Vm.MapPages | vm.c:64-81 | maps the range page by page with 32-bit addresses, ending also at the top of the address space |
| AddressSpace.MapRangeEffect | vm.c:64-81 | success maps exactly the range to consecutive frames; the panic comes at the first page that was present; other pages and frames stay as they were but for new tables |
| VirtualMemory.Vm.AllocUvm | vm.c:211-237 | the loop, its two failure exits and their clean-up, and its panic, tied to page-by-page growth |
| AddressSpace.GrowRemaps | vm.c:211-237 | with a page present in the range, growth panics if and only if more frames are free than the pages before it need |
| AddressSpace.GrowIsSound | vm.c:211-237 | whatever is mapped in the range, growth leaves a sound address space and the frame it could not map unmapped |
| AddressSpace.GrowthIsAllOrNothing | vm.c:211-237 | growth succeeds if and only if the free frames cover the pages and the missing tables; then exactly the new pages are mapped to fresh distinct frames; otherwise every mapping is as before and only page tables were taken |
| VirtualMemory.Vm.DeallocUvm | vm.c:243-274 | equals visiting every page of the range although the loop jumps over absent tables |
| AddressSpace.UnmappedEffect | vm.c:243-274 | the range is cleared, its own frames are freed once each, shared ones are kept, and nothing else changes |
| VirtualMemory.Vm.FreeVm | vm.c:278-301 | all user frames, page tables and the directory are free again, and nothing else |
| LinkedLists.Unlinked | proc.c:885-898 | unlinking a node keeps the chain of the others |
| RunQueue.PrioQueue.Enqueue | proc.c:912-931 | a process in no bucket becomes the head of its own and the lists stay well formed, though next is not cleared for an empty bucket; a process in a bucket leaves no lists at all |
| RunQueue.PrioQueue.Dequeue | proc.c:864-910 | returns the first RUNNABLE process of the lowest-numbered bucket that has one and only moves it to that bucket's tail; nothing changes when there is none |
| RunQueue.PrioQueue.RemoveNode | proc.c:700-725 | the process leaves its bucket and its next is null; nothing happens to one that is in no bucket |
| RunQueue.PrioQueue.PrioCheck | proc.c:645-688 | under the lock: finds the target exactly for a priority in range, not above the caller's, and a target that is the caller or a descendant |
| RunQueue.PrioQueue.SysPrioSet | sysproc.c:236-243 | the call goes through exactly when its first argument is such a pid and such a priority at once, and the target's pid is the priority it gets |
| ProcessQueue.StepKeepsExactly | proc.c:106-931 | a step of fork, exit, wait, the scheduler or the system calls keeps the lists intact if and only if it is neither a remove_node system call for a priority outside -1..9 nor a step of prio_set that reassigns a listed process or enqueues one that is listed, not live or reassigned meanwhile |
| ProcessQueue.IntactThroughout | proc.c:106-931 | the lists are intact throughout a run if and only if it has no such step |
| ProcessQueue.FreeSlotsUnlisted | proc.c:383-433 | while they are, a slot that is free, being forked or exiting is in no list and its next is null |
| ProcessQueue.PrioSetExactly | proc.c:645-698 | run alone, prio_set keeps the lists intact if and only if its target has been enqueued by fork and not yet removed by exit; then the target alone moves, to the head of its new list |
| ProcessQueue.PrioSetOnListed | proc.c:645-698 | where remove_node was not called from user code, if and only if its target is listed |
| ProcessQueue.TwoCallsDamage | proc.c:683-697 | two calls that both removed the same process, for whatever priorities, do not both keep the lists intact |
| ProcessQueue.ZombieLoop | proc.c:645-698 | a reachable state in which a list is a cycle, by prio_set(5, 5) on a zombie, wait and fork |
| ProcessQueue.FreeSlotQueued | proc.c:690-694 | a reachable state with a free slot at the head of a list, by a wait between prio_set's search and its removal |
| ProcessQueue.AstrayReached | sysproc.c:245-251 | for every priority outside -1..9 a reachable remove_node system call that leaves the queue |
| RunQueue.BoundedBypass | proc.c:864-931 | a process RUNNABLE at position k with no RUNNABLE one in a lower bucket is returned within k+1+j dequeues, j being the enqueues to its bucket |
| SleepWakeup.MoveKeepsLocks | proc.c:539-594 | each of the two spin locks is held by exactly the process whose step says so |
| SleepWakeup.AllBlocked | proc.c:539-594 | if every process is blocked both spin locks are free |
| SleepLock.StepKeepsInv | sleeplock.c:22-42 | every step of acquiresleep, releasesleep, sleep, wakeup and kill keeps the lock's invariant |
| SleepLock.CallReturns | sleeplock.c:22-42 | acquiresleep returns with the lock taken in the caller's name, and releasesleep without it |
| SleepLock.MutualExclusion | sleeplock.c:22-42 | of all processes that have returned from acquiresleep at most one has not called releasesleep, and the lock has its name |
| SleepLock.NoLostWakeup | sleeplock.c:22-42 | a process asleep on the lock faces a taken lock or a releaser that has yet to wake it; with the spin lock free another process is inside |
| SleepLock.NoDeadlock | sleeplock.c:22-42 | if no process can step, the sleepers wait for one that is inside and outside the lock's code |
| LogWaits.StepKeepsInv | log.c:124-172 | every step of begin_op, log_write, end_op, sleep, wakeup and kill keeps the counters those of the processes and every sleeper waiting for a reason |
| LogWaits.NoPanicInEnd | log.c:149-151 | in every run end_op finds no commit going on, so that its panic does not happen |
| LogWaits.NoLostWakeup | log.c:124-172 | whenever the log's lock is free a process asleep in begin_op has to wait, and there is an operation or a commit it waits for |
| LogWaits.NoDeadlock | log.c:124-172 | if no process can step, the sleepers wait for one that is in its operation or in commit |
| LogWaits.CallReturns | log.c:124-172 | begin_op returns into a counted operation with no commit going on; end_op leaves it, to commit only when no operation is left |
| PipeProtocol.Occupancy | pipe.c:80-101 | nwrite - nread modulo 2^32 is the number of bytes in the pipe, and the full and empty tests are exact |
| PipeProtocol.RingBuffer.CopyIn | pipe.c:79-89 | stores the bytes in order until done or full |
| PipeProtocol.RingBuffer.CopyOut | pipe.c:108-111 | hands out the oldest bytes in order, as many as asked for or as there are |
| PipeProtocol.StepKeepsSafe | pipe.c:54-115 | every step keeps locks, ring buffer and open ends consistent |
| PipeProtocol.StepKeepsChunks | pipe.c:108-111 | what one piperead returns is a contiguous piece of the stream |
| PipeProtocol.PipeIsFifo | pipe.c:54-115 | in every run bytes delivered are a prefix of bytes accepted and at most 512 are in the pipe, however the counters wrap |
| PipeProtocol.LostExactlyWhenLossy | pipe.c:80-87 | a step leaves a sleeper waiting in vain if and only if it is a killed writer giving up on a full pipe before a sleeping reader |
| PipeProtocol.NoLostWakeup | pipe.c:54-115 | without such a step, whenever the lock is free readers sleep only on an empty pipe open for writing and writers only on a full one open for reading |
| PipeProtocol.NoDeadlock | pipe.c:54-115 | without such a step, when nobody can go on all are outside or asleep rightly, never readers and writers both |
| PipeProtocol.KilledWriterStrandsReader | pipe.c:80-84 | a reachable state with the lock free, the pipe full and its reader asleep |
| PipeCalls.WriteCall | pipe.c:73-93 | in every run a pipewrite that returns its length has stored exactly its buffer; one that returns -1 a proper prefix, the pipe being full and its read end closed or the writer killed |
| PipeCalls.ReadCall | pipe.c:95-115 | in every run a piperead returns the number of bytes it took, fewer than asked for only from an empty pipe and none only with the write end closed too; or -1, with none taken, killed before an empty pipe |
| PipeCalls.OpenExactlyWhileReferred | pipe.c:54-71 | in every run, with nobody in pipeclose, an end of the pipe is open exactly while a descriptor refers to it |
| PipeCalls.KilledSleepsOnlyIfMissed | proc.c:599-615 | a killed process sleeps on a pipe only if the kill came between its test of killed and its sleep |
| PipeCalls.KillMissed | proc.c:599-615 | a reachable state: the lock free, the pipe empty and open, and a killed reader asleep |
| UserMalloc.LargeEnough | umalloc.c:66-66 | the block has room for the request if and only if the rounding does not wrap |
| UserMalloc.SbrkArgumentSign | umalloc.c:45-58 | for every request, when the argument of sbrk is the bytes of the block, when it is 0 and when it is negative |
| UserMalloc.WalkStops | umalloc.c:29-31 | the walk's two tests stop it exactly at the last free header below the block |
| UserMalloc.Allocator.Free | umalloc.c:24-43 | the block returns to the ring, merged with the neighbours it touches |
| UserMalloc.Allocator.Malloc | umalloc.c:60-86 | a new live block apart from all others, cut from the first fitting block after freep, or none, with the ring unchanged, if nothing fits and sbrk fails; sbrk is asked at most once and only after no free block fits, and then it is the first fitting block of the grown ring after the one below the new region |
| UserMalloc.Allocator.Morecore | umalloc.c:45-58 | the new region joins the ring, or nothing changes when sbrk fails |
| UserHeap.FreedKeepsInv | umalloc.c:24-43 | the ring stays circular, address-ordered, apart and fully coalesced, live blocks stay disjoint, and free plus live units are conserved |
| UserHeap.TakenKeepsInv | umalloc.c:70-82 | the same for malloc's cut, and what it returns was not live before |
| UserHeap.GrownKeepsInv | umalloc.c:45-58 | the same for a region from sbrk |
| Jsmn.ParseKeepsInv | jsmn.h:268-453 | whatever the call returns, tokens lie inside the input and nest, and toksuper stays in range |
| Jsmn.SuccessClosesAll | jsmn.h:440-453 | a successful call leaves no token open and returns their number |
| Jsmn.TokensNest | jsmn.h:268-453 | on success tokens are ordered by start, pairwise nested or disjoint, and containers run between matching brackets |
| Jsmn.Resume | jsmn.h:106-119 | after running out of tokens, calling again with a larger array gives what one call with it would have given |
| Jsmn.Sizing | jsmn.h:268-453 | an array of the size the null pass returns never runs out, and success returns that number |
| Jsmn.NullCounts | jsmn.h:268-453 | conversely, where the pass with tokens succeeds the null pass returns the same number |
| JsmnCoverage.NothingSkipped | jsmn.h:268-453 | every character passed is white space, a colon, a comma, a bracket or quote of a token, or inside a string or primitive token; success passes the whole text up to a NUL |
| JsmnCoverage.SizesCountChildren | jsmn.h:268-453 | the size of a token is the number of tokens whose superior it is; the superior is the innermost container, or a token inside it with a colon in between |
| JsonText.ClosingQuote | jsmn.h:193-263 | a string ends at a quote if and only if what is before it is a sequence of plain characters, escapes and \uXXXX codes |
| JsonText.JsonIsTokenized | jsmn.h:268-453 | the text of any JSON value, with any white space, gives exactly the tokens of the value with the numbers of members, elements and values as sizes; the null pass counts them |
| JsmnErrors.ErrorsMean | jsmn.h:54-61 | for a text without NULs that there is room for, JSMN_ERROR_PART if and only if it is not accepted but can be continued to one that is, JSMN_ERROR_INVAL if and only if it cannot |
| JsmnParser.Parser.Run | jsmn.h:268-453 | the loop over the token array computes the specified call, error codes and restored positions included |
| JsmnParser.Parser.RunNull | jsmn.h:268-453 | the same with a null array |
| JsmnParser.ScanPrimitive | jsmn.h:135-188 | the end of the primitive, or the error for a character outside printable ASCII |
| JsmnParser.ScanQuoted | jsmn.h:193-263 | the closing quote, or which of the two errors |
| Shell.RoundTrip | sh.c:264-432 | parsing the parenthesised printing of any valid command tree gives the tree back |
| ShellGrammar.TokenIs | sh.c:264-302 | the token found is the one there is: behind white space a whole word, `>>`, or one symbol |
| ShellGrammar.ParserIsGrammar | sh.c:320-432 | a line is accepted and gives a command if and only if the grammar derives its tokens with that command as the meaning: words and redirections in any order, the first redirection innermost, pipes, `&`, `;` and parentheses, fewer than 10 arguments |
| ShellParser.Gettoken | sh.c:264-302 | the token, its span and the position after it |
| ShellParser.Parseline | sh.c:337-352 | the loops and recursions of the parser compute the grammar's functions and end on every input |
| ShellParser.Canonical | sh.c:320-432 | every command parsed refers to whole words of the input, and printing and parsing it again gives it back |
| ShellParser.NulTerminate | sh.c:435-477 | a NUL is stored at each word's end and nowhere else |
| ShellParser.WordsBecomeStrings | sh.c:435-477 | afterwards every argument and file name is a C string of exactly its characters |
| ShellParser.Parsecmd | sh.c:320-335 | the whole line is parsed and its words terminated, or the shell panics and the buffer is as it was |
| ShellParser.AppendOpensAsWrite | sh.c:380-385 | `>>` gives the same redirections as `>` |

## Left out

- Log.Log.Commit: no other process holds a logged block or a block of the log area, for which the code would wait; CachedLog has all those interleavings, one step at a time.
- Log.Log.WriteLog: the same.
- Log.Log.InstallTrans: the same.
- InodeCache.Cache.Namex: one process walks, and an inode without links that it comes to is free on disk or has a reference.
- DirectoryFile.Dirlink: the inode is a directory of whole entries, as dirlookup's caller has tested and every write to it keeps.
- UserMalloc.Allocator.Malloc: the region sbrk returns is as large as the block and used by nobody, which UserMalloc.SbrkArgumentSign shows sbrk is asked for only up to 2^31 - 16 bytes or when the rounding wraps.
- VirtualMemory.Vm.MapPages: takes a non-empty range that does not wrap around and a page-aligned pa, as every caller passes.
- VirtualMemory.Vm.DeallocUvm: oldsz is at most KERNBASE, as every caller passes.
- ProcessQueue: context switches, and the order in which the scheduler and the system calls get their locks, which is any; what lies beyond the queue in memory, of which it says only that remove_node took it for a list.
- LogProtocol: begin_op's sleep is a step that is not enabled yet; sleeping and waking are in LogWaits, with the blocks of the header as a number.
- PipeProtocol: the pipe's page is not freed after both ends are closed; pipealloc and the file table are not modelled.
- VirtualMemory: contents of user pages, inituvm, loaduvm, copyuvm, setupkvm and the kernel's own mappings.
- Files of type T_DEV end in the device's own routines, which are not modelled.
- jsmn.h is modelled as compiled without JSMN_STRICT and JSMN_PARENT_LINKS, for inputs shorter than 2^31.
- The shell's runcmd and the string it reads from the console; command lines contain no NUL.
- More than one disk device; balloc and the inode table of the root device only.
- exec, the scheduler's context switch and the timer; of fork, exit and wait only what they do to the process table's links.
- User mutexes and condition variables, shared memory, containers and the container manager.
- Boot, interrupts, console, keyboard, IDE ports, spin lock internals and memory ordering.
