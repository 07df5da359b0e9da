# RX-OS: a verification model in Dafny

RX-OS is an xv6-style kernel in Rust with C user programs and an image builder. This project
models the parts of it whose correctness is hardest to see and proves what they are for.

| part | files |
|---|---|
| write-ahead log, buffer cache, LRU list | LogFormat, LogRuns, BufLru, BufferCache, WriteAheadLog, LogSessions, LogAdmission |
| page tables, frame counts, fork, faults, heap size, user copies | PageTableEntry, RadixTree, Paging, CowFork, UserMemory, PageFault, AddressSpace, UserCopy |
| sleep lock, sleeping and waking, scheduler | SleepLock, SleepLockSteps, SleepLockRuns, SleepLockHandover |
| pipes | PipeRing |
| image builder and block bitmap | ByteCodec, MkfsImage, Mkfs, Bitmap |
| shell parser | ShellGrammar, ShellLexer, ShellParser |
| grep | Grep |
| malloc | Umalloc |
| shared facts about sets and sequences | Collections |

`dafny verify dfyconfig.toml` checks the whole project.

Code that works in place is a class or a method with the source's loops, proved against a
specification on values; the specification is where runs, crashes and interleavings are
reasoned about. Where the source panics, the model returns a value saying so. Processes and
CPUs that interleave are transition systems, quantified over every run. Disk block writes are
atomic; memory is sequentially consistent.

How the pieces meet: the log's class produces a trace of block writes, and its contracts say
that trace is one event of the crash theory; any sequence of operations on it is a run there. The page-table methods produce runs of the
copy-on-write machine, whose runs refine a machine in which every fork copies. The bitmap mkfs
writes is the one the kernel's allocator starts from. The shell's methods agree with a parser
on tokens, which accepts exactly the language of a grammar and is inverted by a printer.

## What the code does that a reader may not expect

- `Log::write` panics one block earlier than `begin_op` reserves for (SpacePanicReachable).
- `ucopy_nocopy` and `ucopy` end only at a size that is a multiple of the page size; `sbrk` can
  make a process whose size is not, and forking it panics (UcopyNocopy).
- `grow_proc` by less than minus the size computes a huge unsigned size, so it changes nothing
  and succeeds (GrowProc).
- `copy_in_str` panics when there is no NUL within the buffer, unless the buffer ends exactly
  with a page (CopyInStr).
- `map_with_huge` gives other translations than `map` when va and pa differ modulo 2 MiB and a
  whole 2 MiB step lies in the range (HugeTransparent).
- mkfs does not test inode numbers against the inode blocks (Ialloc, TooManyInodes), and its rounding of the
  root directory adds a block it does not have when the size is a multiple already (FixRoot, FullRoot).
- `BitMap::free` always works in the first bitmap block, so it is right for images of at most
  8192 blocks (FreeExact).
- The two ends of a pipe have a mutex each, so reader and writer can miss each other's wakeup,
  also both at once (MissedWakeup, MissedRoom, Deadlock; ReaderMissesIff and WriterMissesIff say when).
- A writer asleep on a full pipe goes back to sleep when it is killed with the read end open, and when the
  read end is closed without its being killed; only both together end `write` (KilledWriter, ReaderCloses).
- The test for "not a leaf" in `uunmap` negates bits, not truth, and never fires (LeafTestNeverFires).
- A shell word runs to the next blank, through symbols: `a;b` is one word (OneWord).
- grep stops at the first line of 1023 characters or more, and never prints an unterminated last line.

## Model

| member | source | states |
|---|---|---|
| LogRuns.CrashAtomicity | rx-kernel/src/bin/kernel/fs/log.rs:56-153 | over every run of commits, crashes between any two block writes of a commit, recoveries and crashes in recoveries: home blocks always recover to the state after some prefix of the group commits, the last one counted exactly when its header write landed |
| LogRuns.CommitAtomic | rx-kernel/src/bin/kernel/fs/log.rs:114-153 | a commit cut off after any number of block writes recovers to all of its group or none, by whether the header write landed |
| LogRuns.HomeIff | rx-kernel/src/bin/kernel/fs/log.rs:141-153 | home blocks are exactly those no commit writes its header or copies to |
| LogRuns.CommitComplete | rx-kernel/src/bin/kernel/fs/log.rs:114-153 | a commit run to its end leaves the group installed and the log empty and sound |
| LogRuns.RecoveryCrash | rx-kernel/src/bin/kernel/fs/log.rs:56-112 | a recovery cut off anywhere recovers to the same home blocks as one that was not |
| LogRuns.CommitTailIsRecovery | rx-kernel/src/bin/kernel/fs/log.rs:56-139 | the writes of a commit after its header are those of a recovery |
| LogRuns.CutRun | rx-kernel/src/bin/kernel/fs/log.rs:56-153 | a run of any events, cut off after any number of its block writes, leaves the disk of another run, with the first few of its groups landed |
| LogRuns.PowerFails | rx-kernel/src/bin/kernel/fs/log.rs:56-153 | so wherever the power fails in a run, recovery leaves the first few of its groups, whole and in order |
| WriteAheadLog.Log.WriteLog | rx-kernel/src/bin/kernel/fs/log.rs:141-153 | the block writes of the loop are, in order, the transaction as readers see it, copied to the log blocks; it cannot fail while slots remain |
| WriteAheadLog.Log.InstallTrans | rx-kernel/src/bin/kernel/fs/log.rs:93-112 | the loop writes every logged block home, in order, and a commit unpins each once, leaving nothing pinned or pending |
| WriteAheadLog.Log.WriteHead | rx-kernel/src/bin/kernel/fs/log.rs:75-81 | one block write: the header block with the in-memory header in its first words |
| WriteAheadLog.Log.EmptyHead | rx-kernel/src/bin/kernel/fs/log.rs:83-91 | one block write: the header block with length zero, the rest of it kept |
| WriteAheadLog.Log.Recover | rx-kernel/src/bin/kernel/fs/log.rs:56-73 | run to its end the disk is the recovered one and the writes are those of the crash theory |
| WriteAheadLog.Log.Commit | rx-kernel/src/bin/kernel/fs/log.rs:114-139 | its block writes are exactly one commit of the crash theory; afterwards every reader sees at every home block what it saw before, and nothing is pinned or pending; succeeds whenever blocks held and logged leave a slot to spare, and fails only outside a commit or with every slot referenced |
| WriteAheadLog.Log.LogWrite | rx-kernel/src/bin/kernel/fs/log.rs:176-208 | a block joins the transaction and is pinned once, or is absorbed and not pinned again; the two space panics |
| WriteAheadLog.Log.TryBegin | rx-kernel/src/bin/kernel/fs/log.rs:155-174 | one pass of the admission loop: admitted, with `outstanding` raised, exactly when no commit runs and the reserve fits |
| WriteAheadLog.Log.EndOp | rx-kernel/src/bin/kernel/fs/log.rs:214-241 | the last operation out commits: disk and trace are those of one commit; any other changes nothing but the count; in both cases readers see at home blocks what they saw before; panics when a commit runs, else only for the last one out and with every slot referenced |
| WriteAheadLog.OpenGroupOk | rx-kernel/src/bin/kernel/fs/log.rs:141-153 | the open transaction is a group the crash theory accepts, and its header is the one written |
| WriteAheadLog.RoomToRecycle | rx-kernel/src/bin/kernel/fs/log.rs:141-153 | when every slot is referenced, blocks logged and slots held by handles are together at least as many as the slots |
| WriteAheadLog.SeesCommitted | rx-kernel/src/bin/kernel/fs/log.rs:93-153 | what a reader sees through the cache before a commit is on disk after it |
| LogSessions.Serve | rx-kernel/src/bin/kernel/fs/log.rs:155-241 | any sequence of operations begun, blocks put and operations ended: the block writes made are those of a run of the crash theory, every home block reads as last put, and is so on disk when no operation is open; with a slot for every log block besides those held, how it ends is exactly what the counts of open operations and logged blocks say |
| LogSessions.Boot | rx-kernel/src/bin/kernel/fs/log.rs:56-241 | recovery at boot and then any such sequence is one run from the disk as it was found; every home block reads as last put, or as recovered |
| LogAdmission.Admission | rx-kernel/src/bin/kernel/fs/log.rs:155-241 | in every reachable state, with the operations open, the blocks each has logged, the commit and the sleepers all read off the events of the run: a commit excludes operations; log length and unspent budgets stay within LOGSIZE-1; whoever sleeps on the log channel would still be refused; the first space panic is out of reach and the second is met exactly at length LOGSIZE-2 |
| LogAdmission.Possible | rx-kernel/src/bin/kernel/fs/log.rs:155-241 | after every run, from its events alone: an operation can begin exactly when no commit runs and ten blocks for it and for each one open fit in 29 with those logged, and sleeps exactly when not; an open one can always absorb and end, and can log a new block exactly while it has spent fewer than ten and the log holds fewer than 28 |
| LogAdmission.SpacePanicReachable | rx-kernel/src/bin/kernel/fs/log.rs:155-208 | three operations within their budgets reach the space panic: the test in `write` is one slot tighter than the one in `begin_op` |
| Lru.BufLru.constructor | rx-kernel/src/bin/kernel/fs/bio.rs:161-173 | the links start as one cycle through all slots |
| Lru.BufLru.FindCached | rx-kernel/src/bin/kernel/fs/bio.rs:176-189 | finds the slot of a block exactly when one holds it, visiting each slot at most once, and takes one reference |
| Lru.BufLru.Recycle | rx-kernel/src/bin/kernel/fs/bio.rs:191-206 | finds a slot exactly when one is unreferenced, and of those takes the one released to zero longest ago |
| Lru.BufLru.MoveIfNoRef | rx-kernel/src/bin/kernel/fs/bio.rs:208-229 | drops one reference; a slot released to zero becomes the most recent; the links stay one cycle in recency order |
| Lru.MovedRing | rx-kernel/src/bin/kernel/fs/bio.rs:213-227 | the six link updates are a move to the front of the cyclic order |
| Lru.BufLru.DecRef | rx-kernel/src/bin/kernel/fs/bio.rs:136-144 | panics exactly when the count is at most one |
| Lru.BufLru.IncRef | rx-kernel/src/bin/kernel/fs/bio.rs:127-134 | one more reference, order unchanged |
| BufferCache.RecycleCoherent | rx-kernel/src/bin/kernel/fs/bio.rs:47-72 | renaming an unreferenced slot keeps one slot per block, counts exact and all unwritten contents held |
| BufferCache.UnpinCoherent | rx-kernel/src/bin/kernel/fs/bio.rs:136-144 | with a live handle on a logged block the count is above one, so `unpin` does not panic |
| BufferCache.BCache.Get | rx-kernel/src/bin/kernel/fs/bio.rs:47-72 | a handle on the one slot of the block, recycling one if need be; panics only when every slot is referenced |
| BufferCache.BCache.Read | rx-kernel/src/bin/kernel/fs/bio.rs:74-82 | the handle holds the disk overlaid with changes not yet written, whatever was cached or recycled before; other handles are undisturbed |
| BufferCache.BCache.SetData | rx-kernel/src/bin/kernel/fs/bio.rs:120-125 | a change through a handle is what every later reader sees |
| BufferCache.BCache.Write | rx-kernel/src/bin/kernel/fs/bio.rs:112-114 | the block on disk becomes the buffer, one write in the trace, nothing pending for it |
| BufferCache.BCache.Pin | rx-kernel/src/bin/kernel/fs/bio.rs:127-134 | the block joins the transaction: one count more |
| BufferCache.BCache.Unpin | rx-kernel/src/bin/kernel/fs/bio.rs:136-144 | the block leaves the transaction: one count less, no panic |
| BufferCache.BCache.Release | rx-kernel/src/bin/kernel/fs/bio.rs:84-87 | a dropped handle loses no contents |
| BufferCache.BCache.CopyAndWrite | rx-kernel/src/bin/kernel/fs/log.rs:93-112 | copying one held buffer over another and writing it out is one block write |
| PageTableEntry.WritePermFields | rx-kernel/src/bin/kernel/memory/mapping/pagetable_entry.rs:170-173 | an entry written with an address and flags reads back that frame number, those flags, and valid |
| PageTableEntry.Layout | rx-kernel/src/bin/kernel/memory/mapping/pagetable_entry.rs:22-33 | each flag read off an entry is the bit that section 4.4.1 of the RISC-V privileged architecture gives it, and the copy-on-write flag the first of the two left to software |
| PageTableEntry.WritePermAddress | rx-kernel/src/bin/kernel/memory/mapping/pagetable_entry.rs:143-158 | and gives the address back |
| PageTableEntry.ToCowPageFields | rx-kernel/src/bin/kernel/memory/mapping/pagetable_entry.rs:131-135 | clears write, sets the copy-on-write bit, and keeps frame, validity and every other flag, field by field |
| PageTableEntry.AddWriteBitFields | rx-kernel/src/bin/kernel/memory/mapping/pagetable_entry.rs:137-141 | sets write and keeps frame, validity and every other flag, field by field |
| PageTableEntry.IsLeafFields | rx-kernel/src/bin/kernel/memory/mapping/pagetable_entry.rs:108-112 | a leaf is an entry with read, write or execute |
| PageTableEntry.CopyFlags | rx-kernel/src/bin/kernel/memory/mapping/pagetable_entry.rs:160-163 | flags copied to another entry read the same there |
| PageTableEntry.LeafTestNeverFires | rx-kernel/src/bin/kernel/memory/mapping/pagetable.rs:509-511 | no entry at all meets the test by which `uunmap` means to refuse an entry that is no leaf |
| RadixTree.NodeUnique | rx-kernel/src/bin/kernel/memory/mapping/pagetable.rs:146-174 | in an unshared tree each table page lies on one path of one root |
| RadixTree.IndexDigits | rx-kernel/src/bin/kernel/memory/mapping/pagetable.rs:146-174 | the three table indexes of a page are its digits to base 512 |
| RadixTree.AddTableWalk | rx-kernel/src/bin/kernel/memory/mapping/pagetable.rs:146-174 | hanging an empty table into an invalid entry changes no hardware translation |
| RadixTree.SetPageWalk | rx-kernel/src/bin/kernel/memory/mapping/pagetable.rs:230-261 | writing a last-level entry changes the hardware translation of that page only: to the frame and flags written when the entry is valid and a legal leaf, else to none |
| RadixTree.SetHugeWalk | rx-kernel/src/bin/kernel/memory/mapping/pagetable.rs:268-320 | writing a middle-level leaf changes the translations of its 512 pages only: to consecutive frames with the flags written when it is valid, legal and aligned to 512 frames, else to none |
| Paging.PageRoundUp | rx-kernel/src/bin/kernel/memory/mapping/mod.rs:10-12 | the least page boundary at or above the address |
| Paging.PageRoundDown | rx-kernel/src/bin/kernel/memory/mapping/mod.rs:14-16 | the greatest page boundary at or below the address |
| Paging.Memory.constructor | rx-kernel/src/bin/kernel/memory/kalloc_rc/mod.rs:41-57 | the loop puts every frame of the heap on the free list once, the last one first, all counted zero |
| Paging.Memory.AllocPage | rx-kernel/src/bin/kernel/memory/kalloc_rc/mod.rs:59-73 | takes the head of the free list and counts it once; fails exactly when the list is empty |
| Paging.Memory.Dealloc | rx-kernel/src/bin/kernel/memory/kalloc_rc/mod.rs:75-90 | one reference less; at zero the frame is free again |
| Paging.Memory.AddCount | rx-kernel/src/bin/kernel/memory/kalloc_rc/mod.rs:94-97 | one reference more |
| Paging.Memory.Unew | rx-kernel/src/bin/kernel/memory/mapping/pagetable.rs:343-348 | a new root with no page in it; no translation of any other root changes; fails exactly when no frame is free |
| Paging.Memory.Translate | rx-kernel/src/bin/kernel/memory/mapping/pagetable.rs:146-174 | the entry the walk of the address ends at; creating tables changes no translation of any address space, and without `alloc` nothing changes |
| Paging.Memory.Map | rx-kernel/src/bin/kernel/memory/mapping/pagetable.rs:230-261 | exactly the pages of the range, of that root only, now have the entries written, and page v of it walks to frame pa/4096 + v - va/4096 with the given flags, or nowhere when the hardware forbids those flags; on refusal, remap or exhaustion that holds of exactly the pages before the one that stopped it |
| Paging.Memory.TranslateHuge | rx-kernel/src/bin/kernel/memory/mapping/pagetable.rs:180-207 | the middle-level entry of the address, with tables added only above it and only with `alloc`; nothing exactly past the last address or, without `alloc`, where the table is missing |
| Paging.Memory.MapWithHuge | rx-kernel/src/bin/kernel/memory/mapping/pagetable.rs:268-320 | every page v of the range walks, by the Sv39 rules, to frame pa/4096 + v - va/4096 with the given flags, and faults when the flags are illegal or v lies in a whole 2 MiB step while va and pa differ modulo 2 MiB; no other translation changes; on refusal, remap or exhaustion that holds of the pages before the one that stopped it; a remap means the entry it would write is valid, exhaustion that there were fewer than two free frames a page |
| Paging.HugeTransparent | rx-kernel/src/bin/kernel/memory/mapping/pagetable.rs:230-320 | for permissions a leaf may have, the tables of `map` and `map_with_huge` walk alike at every page exactly when no whole 2 MiB step lies in the range or va and pa agree modulo 2 MiB |
| CowFork.CowRefinesCopy | rx-kernel/src/bin/kernel/memory/mapping/pagetable.rs:535-644 | after every run of allocations, forks, stores, faults and unmaps each page of each process holds what it would had fork copied every page |
| CowFork.Isolated | rx-kernel/src/bin/kernel/memory/mapping/pagetable.rs:582-644 | a page changes only by steps on that page of that address space |
| CowFork.AccessKept | rx-kernel/src/bin/kernel/memory/mapping/pagetable.rs:535-644 | after every run the mapped pages are exactly those allocated or forked and not unmapped, each with the flags it was mapped with or inherited; only the write flag can be missing, and then the page is marked copy-on-write |
| CowFork.Accounting | rx-kernel/src/bin/kernel/memory/kalloc_rc/mod.rs:58-103 | from boot, in every reachable state: a data frame is counted once per leaf, a writable leaf has its frame to itself, and the free list holds exactly the frames counted zero, once each |
| CowFork.Conserved | rx-kernel/src/bin/kernel/memory/kalloc_rc/mod.rs:58-103 | over every run free frames and data frames together fall only by the frames the kernel takes for itself and rise only by those it gives back: sharing, copying, faulting and unmapping lose none |
| CowFork.StepRefines | rx-kernel/src/bin/kernel/memory/mapping/pagetable.rs:535-644 | each step keeps the counts and does to contents what the eager machine does |
| UserMemory.BootGood | rx-kernel/src/bin/kernel/memory/kalloc_rc/mod.rs:41-57 | just after boot, with no address space yet, the invariant of the copy-on-write machine holds |
| UserMemory.NewSpace | rx-kernel/src/bin/kernel/memory/mapping/pagetable.rs:343-348 | a new address space takes one frame and maps nothing; the pages of all others, and the invariant of the copy-on-write machine, are kept |
| UserMemory.Uunmap | rx-kernel/src/bin/kernel/memory/mapping/pagetable.rs:499-527 | the pages of the range are unmapped and their references dropped, up to the first page that is not mapped; for every root, every other page keeps its entry and its hardware translation, those of the range have none, and the roots are the same |
| UserMemory.UnmapRange | rx-kernel/src/bin/kernel/memory/mapping/pagetable.rs:499-527 | a run of unmaps leaves exactly the leaves outside the range |
| UserMemory.MarkPage | rx-kernel/src/bin/kernel/memory/mapping/pagetable.rs:594-603 | the parent entry keeps frame, validity and every flag but write, which is cleared, and the copy-on-write mark, which is set; the frame gains one reference; nothing else changes |
| UserMemory.SharePage | rx-kernel/src/bin/kernel/memory/mapping/pagetable.rs:593-617 | one round of fork is one share step of the copy-on-write machine: parent and child have the same entry, which is the old one of the parent read-only and marked, flag by flag; every other page keeps its entry; it panics exactly when the parent lacks the page, the child has it, or frames run out |
| UserMemory.UcopyNocopy | rx-kernel/src/bin/kernel/memory/mapping/pagetable.rs:582-622 | when it ends the loop is one share step per page, and on every page of the range parent and child have the old entry of the parent read-only and marked, flag by flag, with every other entry kept; a panic at a page-multiple size means a page the parent lacks or the child has, or an empty free list; with two free frames a page it ends if and only if the size is a multiple of the page size and no page is in the way |
| PageFault.UloadPage | rx-kernel/src/bin/kernel/memory/mapping/pagetable.rs:624-644 | on the real tables, the fault is exactly the load step: sole owner made writable, sharer given its own copy, every other flag of the entry and every other entry kept; for a mapped page it succeeds if and only if the frame is counted once or a frame is free |
| PageFault.Ucopy | rx-kernel/src/bin/kernel/memory/mapping/pagetable.rs:535-575 | when it ends the eager loop is one copy step per page, and on every page of the range the child has the flags of the parent on a frame of its own, with every other entry kept; with three free frames a page it ends if and only if the size is a multiple of the page size and no page is in the way |
| PageFault.ForkIsCopy | rx-kernel/src/bin/kernel/memory/mapping/pagetable.rs:535-622 | the lazy and the eager fork of the same pages leave every page of every process the same |
| PageFault.CopiedContents | rx-kernel/src/bin/kernel/memory/mapping/pagetable.rs:535-622 | after either loop each page of the child equals the parent page, and the parent is unchanged |
| AddressSpace.Ualloc | rx-kernel/src/bin/kernel/memory/mapping/pagetable.rs:383-410 | grows by exactly the pages between the two sizes, zeroed, owned once and open to the user for reading, writing and executing; past the last address it restores the mapped pages and every data frame; panics when a page between the sizes is mapped already, and otherwise only when three frames a page were not there |
| AddressSpace.Udealloc | rx-kernel/src/bin/kernel/memory/mapping/pagetable.rs:481-492 | removes exactly the pages between the two sizes; every other page of every root keeps its entry and its hardware translation |
| AddressSpace.Undone | rx-kernel/src/bin/kernel/memory/mapping/pagetable.rs:394-405 | allocating a range and unmapping it restores leaves and data frames alike |
| AddressSpace.GrowProc | rx-kernel/src/bin/kernel/process/process.rs:264-286 | the heap pages are exactly those the size covers, before and after; no other page of any process changes; a size below zero leaves the process as it is; growing into the stack panics, and any other panic means fewer free frames than three for each page to add; it never returns its error |
| AddressSpace.ResizeAll | rx-kernel/src/bin/kernel/process/process.rs:264-286 | over any sequence of `grow_proc`, `ualloc` and `udealloc`: the heap is exactly the pages the last size covers and no other page of any process has changed, or it stopped at a request that reaches the stack or lacked frames; with three free frames for each page added it ends if and only if no request reaches the stack |
| UserCopy.PgtTranslate | rx-kernel/src/bin/kernel/memory/mapping/pagetable.rs:210-225 | the frame of a page that is mapped and open to the user, else nothing |
| UserCopy.CopyOut | rx-kernel/src/bin/kernel/memory/mapping/pagetable.rs:661-686 | succeeds exactly when every touched page is open to the user; then, for distinct frames, exactly the bytes at the translations change, to the data |
| UserCopy.CopyIn | rx-kernel/src/bin/kernel/memory/mapping/pagetable.rs:692-717 | succeeds on the same condition and returns the bytes of the range |
| UserCopy.RoundTrip | rx-kernel/src/bin/kernel/memory/mapping/pagetable.rs:661-717 | what was copied out is what is copied in |
| UserCopy.Isolated | rx-kernel/src/bin/kernel/memory/mapping/pagetable.rs:661-686 | bytes copied out show on no other page if each touched frame is counted once |
| UserCopy.IsolatedIff | rx-kernel/src/bin/kernel/memory/mapping/pagetable.rs:661-686 | for distinct frames, bytes copied out show on a page outside the range if and only if they change a page whose frame is counted more than once |
| UserCopy.CopyInStr | rx-kernel/src/bin/kernel/memory/mapping/pagetable.rs:721-751 | succeeds exactly when the first NUL lies within the buffer, or there is none and the buffer ends with a page; copies through the NUL and no further |
| SleepLockRuns.SleepLockSafe | rx-kernel/src/bin/kernel/lock/sleep_mutex.rs:37-61 | every interleaving, any number of processes and CPUs, with the owners read off the run as those who returned from `lock` and have not cleared it in `unlock`: one owner at most, and `locked` exactly while there is one; no sleeper inside `lock` when the lock and its spinlock are free; no process claimed by two CPUs; the locks each CPU holds are known from where it is |
| SleepLockSteps.WakeStep | rx-kernel/src/bin/kernel/process/manager.rs:179-194 | no wakeup is missed: whoever waits has `locked` set or a waker that has not come to it yet |
| SleepLockSteps.PlacesStep | rx-kernel/src/bin/kernel/process/cpu.rs:137-179 | claiming, dispatching, switching and returning keep each process with one CPU at most and its meta spinlock with that CPU |
| SleepLockRuns.LocksOf | rx-kernel/src/bin/kernel/lock/mutex.rs:43-79 | no acquire finds the lock held by its own CPU, every release does, and a process switches away holding its meta spinlock only |
| SleepLockSteps.HoldersStep | rx-kernel/src/bin/kernel/lock/sleep_mutex.rs:37-56 | each step keeps it that `locked` is set exactly while one process holds the lock |
| SleepLockRuns.CallsStep | rx-kernel/src/bin/kernel/lock/sleep_mutex.rs:37-56 | the owners read off the steps taken are, after each step, the holders the state records, and whoever is between call and return is where its place in the code says |
| SleepLockHandover.HandOver | rx-kernel/src/bin/kernel/lock/sleep_mutex.rs:37-61 | from any quiet state with one process in possession and another asking there is a run in which the second sleeps, the first unlocks and wakes it, and it returns from `lock` as the one owner |
| SleepLockHandover.StrayWakeup | rx-kernel/src/bin/kernel/process/manager.rs:288-302 | a wake-up not meant for the lock brings a waiter back to its test, and a run from there ends in the very same state |
| SleepLockHandover.Preempted | rx-kernel/src/bin/kernel/process/process.rs:291-298 | a process taken off its CPU by a timer can be dispatched again to the very same state |
| SleepLockHandover.SleptElsewhere | rx-kernel/src/bin/kernel/process/process.rs:303-316 | so can one that slept on another channel and was woken |
| SleepLockHandover.Lifecycle | rx-kernel/src/bin/kernel/process/manager.rs:100-286 | a process can be made, started, dispatched, ended and reaped, which leaves everything as it was |
| ShellGrammar.ParsePrint | rx-user/xv6-user/sh.c:346-446 | parsing the printed tokens of any command tree with at most nine words a command gives the tree back |
| ShellGrammar.Parses | rx-user/xv6-user/sh.c:346-446 | the trees the parser can build are exactly those with at most nine words a command |
| ShellGrammar.ExecItems | rx-user/xv6-user/sh.c:417-446 | any interleaving of at most nine words with redirections, before a token that ends a command, gives all the words in order under all the redirections in order |
| ShellGrammar.Language | rx-user/xv6-user/sh.c:346-446 | a token list is accepted with a tree exactly when the grammar derives it and that is the tree of a derivation: the parser recognises the language, and nothing else |
| ShellLexer.LexSpell | rx-user/xv6-user/sh.c:267-309 | spelled tokens are cut into the same tokens |
| ShellLexer.LexIff | rx-user/xv6-user/sh.c:267-309 | the tokens of a line are exactly those it spells: words up to the next blank, symbols, and `>>` before `>` |
| ShellLexer.OneWord | rx-user/xv6-user/sh.c:267-309 | text without blanks is one word exactly when it does not start with a symbol |
| ShellLexer.SemicolonInWord | rx-user/xv6-user/sh.c:267-309 | `a;b` is one word |
| ShellLexer.RoundTrip | rx-user/xv6-user/sh.c:267-446 | cutting and parsing a printed command line gives the command back |
| ShellParser.Parser.GetToken | rx-user/xv6-user/sh.c:267-309 | returns the code and extent of the first token ahead and moves past it and the blanks after it |
| ShellParser.Parser.Peek | rx-user/xv6-user/sh.c:312-321 | tells whether the next token starts with one of the characters, and consumes blanks only |
| ShellParser.Parser.ParseRedirs | rx-user/xv6-user/sh.c:376-398 | the loop reads the redirections the grammar has there, or dies where it does |
| ShellParser.Parser.ParseExec | rx-user/xv6-user/sh.c:417-446 | the loop reads the simple command or block the grammar has there, words and redirections in any order (ExecItems), or dies |
| ShellParser.Parser.ParseBlock | rx-user/xv6-user/sh.c:401-414 | reads a parenthesised line and its redirections, or dies |
| ShellParser.Parser.ParsePipe | rx-user/xv6-user/sh.c:363-373 | reads a pipeline, grouping to the right, or dies |
| ShellParser.Parser.ParseLine | rx-user/xv6-user/sh.c:346-360 | reads a list with its background marks, grouping to the right, or dies; the mutual recursion ends |
| ShellParser.Parser.NulTerminate | rx-user/xv6-user/sh.c:451-494 | writes a NUL after every word of the tree and nowhere else |
| ShellParser.CStrings | rx-user/xv6-user/sh.c:451-494 | then every argv and file pointer is a C string equal to its token |
| ShellParser.Parser.ParseCmd | rx-user/xv6-user/sh.c:329-343 | the whole line: the tree of the grammar (Language) with its words as C strings in the buffer, or death exactly when the grammar rejects or tokens are left over |
| Grep.MatchHere | rx-user/xv6-user/grep.c:85-96 | true exactly when the text from there can be divided among the items of the pattern |
| Grep.MatchStar | rx-user/xv6-user/grep.c:99-106 | true exactly when some number of hits can be followed by the rest of the pattern |
| Grep.Match | rx-user/xv6-user/grep.c:73-82 | true exactly when the pattern matches at the start after a leading ^, anywhere otherwise |
| Grep.Run | rx-user/xv6-user/grep.c:12-35 | for every way `read` cuts NUL-free input up, the output is the matching terminated lines up to the first of 1023 characters or more |
| Grep.PrintedLines | rx-user/xv6-user/grep.c:12-35 | for lines under 1023 characters that is every matching newline-terminated line, and not the unterminated rest |
| MkfsImage.WordSet | rx-user/xv6-mkfs/mkfs.c:57-67 | a word stored byte by byte reads back, and no other word of the sector changes |
| MkfsImage.RecPut | rx-user/xv6-mkfs/mkfs.c:190-214 | a written inode record reads back, and no other record of its block changes |
| MkfsImage.Disjoint | rx-user/xv6-mkfs/mkfs.c:258-299 | no two blocks of any files, data or indirect, are the same block, nor are two indirect blocks |
| MkfsImage.AppendedInv | rx-user/xv6-mkfs/mkfs.c:285-292 | a chunk put in the last block lengthens that file by the chunk and changes no other file |
| Mkfs.Builder.constructor | rx-user/xv6-mkfs/mkfs.c:90-118 | the empty image: the super block with its eight words in block 1, everything else blank, no files |
| Mkfs.SuperLayout | rx-user/xv6-mkfs/mkfs.c:90-118 | the words of the super block give magic number and sizes, and lay log, inodes, bitmap and data out one after another to the last block |
| Mkfs.Builder.Ialloc | rx-user/xv6-mkfs/mkfs.c:226-237 | a new empty file with the next number; every other file and record is as it was. The number is not tested: past the inode blocks the record lands in the bitmap block or the data, and mkfs dies only past the disk |
| Mkfs.Builder.Iappend | rx-user/xv6-mkfs/mkfs.c:258-299 | the file read through its direct and indirect addresses is what it was with the data after it, no other file changes, and blocks are used exactly as the sizes need; aborts exactly when file or disk is too small |
| Mkfs.Builder.MapBlock | rx-user/xv6-mkfs/mkfs.c:270-284 | maps the next block of the file, its indirect block first when needed, and disturbs nothing mapped |
| Mkfs.Builder.Balloc | rx-user/xv6-mkfs/mkfs.c:240-253 | on any image, the bitmap block gets exactly the bits of the blocks below `freeblock` and nothing else changes; aborts exactly when they do not fit one block; a sound image stays sound |
| Mkfs.Builder.FixRoot | rx-user/xv6-mkfs/mkfs.c:168-173 | the rounding up of the root directory leaves the image sound if and only if its size was no multiple of the block size; otherwise the size covers a block the directory does not have |
| Mkfs.FullRoot | rx-user/xv6-mkfs/mkfs.c:120-175 | 64 directory entries make a root that the rounding spoils: its size covers two blocks and it has one |
| Mkfs.TooManyInodes | rx-user/xv6-mkfs/mkfs.c:226-237 | the 208th inode record lands in the bitmap block |
| Mkfs.UsedExactly | rx-user/xv6-mkfs/mkfs.c:258-299 | below `freeblock` lie the metadata and the blocks of files, and nothing else |
| Mkfs.HandedOver | rx-kernel/src/bin/kernel/fs/bitmap.rs:33-55 | the kernel finds in use exactly the blocks mkfs handed out |
| Mkfs.KernelRuns | rx-kernel/src/bin/kernel/fs/bitmap.rs:12-55 | from the bitmap mkfs wrote, however the kernel calls `alloc` and `free`, no block of the metadata or of a file is handed out before a call has given it back |
| Bitmap.BitMap.Alloc | rx-kernel/src/bin/kernel/fs/bitmap.rs:33-55 | hands out the first block not in use and marks it alone; panics exactly when all are in use |
| Bitmap.BitMap.Free | rx-kernel/src/bin/kernel/fs/bitmap.rs:12-30 | clears one bit of the first bitmap block; panics exactly when it is clear |
| Bitmap.FreeExact | rx-kernel/src/bin/kernel/fs/bitmap.rs:12-30 | it frees the block it is given exactly when one bitmap block covers that block |
| Bitmap.BitMap.Serve | rx-kernel/src/bin/kernel/fs/bitmap.rs:12-55 | the answers `alloc` and `free` give over any sequence of calls are those the two lemmas below speak of |
| Bitmap.NeverTwice | rx-kernel/src/bin/kernel/fs/bitmap.rs:12-55 | for every sequence of calls on any bitmap: no block is handed out twice unless a free between cleared its bit |
| Bitmap.NotBeforeFreed | rx-kernel/src/bin/kernel/fs/bitmap.rs:12-55 | for every sequence of calls on any bitmap: a block marked at the start is not handed out before a free has cleared its bit |
| PipeRing.Fifo | rx-kernel/src/bin/kernel/fs/pipe.rs:70-156 | every interleaving of reader, writer, closing and killing: nread <= nwrite <= nread+512; the bytes copied out to the user are a prefix of the bytes copied in, those counted in and out are its first nwrite and nread, and at most one at each end is not counted yet |
| PipeRing.MissedWakeup | rx-kernel/src/bin/kernel/fs/pipe.rs:88-156 | a run leaves the reader asleep with a byte waiting and no writer to wake it |
| PipeRing.ReaderMissesIff | rx-kernel/src/bin/kernel/fs/pipe.rs:70-156 | in every reachable state a reader asleep that no writer is on its way to wake has something to read, or the end of the stream, exactly when that came between its last test for empty and its sleep |
| PipeRing.WriterMissesIff | rx-kernel/src/bin/kernel/fs/pipe.rs:70-156 | likewise a writer asleep: there is room exactly when a byte left between its last test for full and its sleep |
| PipeRing.MissedRoom | rx-kernel/src/bin/kernel/fs/pipe.rs:88-156 | a run leaves the writer asleep with room in the pipe and no reader to wake it |
| PipeRing.Deadlock | rx-kernel/src/bin/kernel/fs/pipe.rs:88-156 | a run leaves reader and writer asleep on a full pipe |
| PipeRing.KilledReader | rx-kernel/src/bin/kernel/fs/pipe.rs:123-156 | killing a sleeping reader wakes it, and it can leave `read` by its own steps alone |
| PipeRing.KilledWriter | rx-kernel/src/bin/kernel/fs/pipe.rs:88-121 | killing a writer asleep on a full pipe ends its call exactly when the read end is closed; with it open it goes back to sleep |
| PipeRing.WriterCloses | rx-kernel/src/bin/kernel/fs/pipe.rs:70-86 | closing the write end wakes a sleeping reader, and it can leave `read` with nothing |
| PipeRing.ReaderCloses | rx-kernel/src/bin/kernel/fs/pipe.rs:70-121 | closing the read end wakes a writer asleep on a full pipe, which leaves `write` when it has been killed and goes back to sleep when not |
| PipeRing.ClosedIff | rx-kernel/src/bin/kernel/fs/pipe.rs:70-86 | in every run each end is open exactly until it is closed |
| Umalloc.Allocator.Free | rx-user/xv6-user/umalloc.c:25-44 | the live blocks lose that one; the free list stays circular, sorted, coalesced and disjoint from live blocks; nothing inside a live block is written; the search ends |
| Umalloc.Allocator.Malloc | rx-user/xv6-user/umalloc.c:64-90 | the live blocks gain one of the size asked for, overlapping none; nothing inside a live block is written; the system is asked only when nothing fits, and null means it refused; the search ends, also after growing |
| Umalloc.Allocator.Morecore | rx-user/xv6-user/umalloc.c:47-61 | the arena grows by at least 4096 units, all of them free |
| Umalloc.FreedLive | rx-user/xv6-user/umalloc.c:30-43 | both joins leave the other live blocks alone |
| Umalloc.JoinUpLaid | rx-user/xv6-user/umalloc.c:33-37 | joining upwards keeps blocks disjoint, and free blocks apart save perhaps the freed one and the one below it |
| Umalloc.JoinUpUnits | rx-user/xv6-user/umalloc.c:33-37 | joining upwards conserves units |
| Umalloc.JoinDownLaid | rx-user/xv6-user/umalloc.c:38-42 | joining downwards leaves no two free blocks touching and conserves units |
| Umalloc.SplitLaid | rx-user/xv6-user/umalloc.c:79-83 | carving a block off the upper end keeps blocks disjoint and coalesced |

## Left out

- Directories and the kernel's inode layer (fs/inode.rs, syscall/file.rs): their code does not meet the contracts its names suggest.
- Disk driver, traps, ELF loading, boot, console: hardware and plumbing; a disk read or write of a block is one atomic step.
- `wait`, `exit` and reparenting: only their effect on a process's state is in SleepLock.
- `proc_pagetable`: mapping trampoline and trap frame above the data pages is two calls of `map`; only the empty table it starts from is modelled.
- Interrupt state across a switch, memory ordering and TLB flushing.
- Stack allocation (`ualloc_stack`), `uinit`, `uclear` and freeing of whole tables: easier repeats of `ualloc` and `uunmap`.
- `uunmap` without `free` leaves the entry in place and is not modelled.
- The copies of the log's group through `Buf` sleep locks: a handle is held by one operation at a time.
- LogSessions.Serve: operations run one after another, and one that would sleep in `begin_op` ends the sequence; interleaved callers are in LogAdmission. What is on disk after a panic is not stated.
- WriteAheadLog.Log.TryBegin: one pass of the `begin_op` loop; who sleeps and wakes is in LogAdmission.
- UserMemory.UcopyNocopy: the start address is page-aligned, as fork passes it; for a size that is no multiple of the page size, the parent has an unmapped page between the start and the trap frame. The source's error return is not reachable and not modelled.
- PageFault.Ucopy: likewise; the stack copy passes an aligned address and a page-multiple size.
- PageFault.UloadPage: the frame of an invalid entry is outside the allocator's range, so looking its count up is a panic.
- AddressSpace.GrowProc: the guard page below the stack is mapped and stands above the heap, as `ualloc_stack` leaves it.
- UserCopy.CopyOut: requires that every page open to the user has a data frame behind it.
- Umalloc.Allocator.Malloc: the region `sbrk` returns is a parameter, fresh and aligned; requests of 2 GiB and more, which `sbrk` would truncate, are not treated.
- Paging.Memory.MapWithHuge: the valid entry behind a remap is stated of the tables it leaves, which its own superpages are part of.
- Bitmap.BitMap.Alloc: reads and writes the bitmap blocks directly, not through the cache and the log.
- ShellParser.Parser.ParseExec: trees are values, so the exec node is completed before redirections wrap it instead of being filled in afterwards.
- Grep.Run: input without NUL bytes; a read that fails is not modelled.
- PipeRing.Fifo: counters do not wrap at 2^64, each end is used by one process at a time, and the page freed when both ends are closed is not in the model.
- SleepLockHandover.HandOver: one run that gets there; that every fair schedule does is not stated.
- SleepLockRuns.SleepLockSafe: a critical section of a process's own spinlock that touches nothing else is one step.
- The running of shell commands (`runcmd`), and user programs other than sh, grep and malloc.
