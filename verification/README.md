# A verified model of the xv6 RISC-V kernel's hard parts

This project models, in Dafny 4.11, the parts of xv6 whose correctness does not show in any
one function: the write-ahead log over the buffer cache, process exit and wait, the block
allocator and inodes, link counts, Sv39 page tables over the page allocator, the virtio disk
ring, pipes, the user-level allocator, the shell's parser, grep, and the random generator of
grind. `dafny verify dfyconfig.toml` checks all of it.

Each component has three layers. A specification states the data and either pure functions
or a machine whose steps are the sections that the kernel's locks make atomic. Lemmas prove
what holds of it: an invariant that every step keeps, theorems over every run, round trips,
refinements. A class or a set of methods follows the C code, with its loops, in-place updates
and counters of fixed width, and is proved against the specification.

| files | source | main results |
|---|---|---|
| Blocks, BufferCache | kernel/bio.c | one buffer per block, LRU order and eviction over all runs, linked list against sequence |
| LogAdmission | kernel/log.c | reservation and admission over all interleavings, and the exact condition under which log_write cannot panic |
| LogMachine, LogSafety, LogDevice | kernel/log.c, kernel/bio.c | crash atomicity, commit point, idempotent recovery, refinement of a flat block store, failure only for want of buffers |
| ProcMachine, ProcSafety, ProcTable, ProcKill | kernel/proc.c | no lost exit, live parents, each exit reaped once, no spurious wakeup, exactly when a killed process sleeps in wait |
| FsModel, FsSpace, FsOps, FsRuns | kernel/fs.c, kernel/file.c | block ownership, byte-exact reads and writes, exactly when blocks run out, files as byte strings over any sequence of calls, log budget per chunk with nothing left unlogged |
| LinkModel, LinkSafety, LinkOps, Dirents | kernel/sysfile.c, kernel/fs.c | link counts over runs, with the exact condition; entries as bytes |
| PageModel, PageFree, PageCount, PageTable | kernel/vm.c, kernel/kalloc.c | flat-map refinement, page conservation through failure paths, exactly how many pages an operation needs |
| VirtioModel, VirtioSafety, VirtioDisk | kernel/virtio_disk.c | descriptor partition, two in flight, no unread entry lost |
| HeapModel, Umalloc | user/umalloc.c | sorted coalesced ring, conserved units, disjoint blocks |
| ShellGrammar, ShellRoundTrip, ShellPrecedence, ShellParser | user/sh.c | parse of print is the identity, with all parentheses and with as few as the grammar allows; all or syntax error; words terminated in place |
| PipeModel, PipeBuffer | kernel/pipe.c | FIFO over runs, never both asleep |
| Regex, Grep | user/grep.c | matcher against meaning, output independent of read sizes |
| Schrage | user/grind.c | formula, ranges, permutation |

## Conventions

- A panic is a result value. Running out of blocks, inodes, buffers or memory is such a result:
  its row says when it comes, and nothing further is promised of the state behind it.
- The block device reads and writes single blocks atomically, and a crash loses all memory.
- Spinlocks and sleep locks give mutual exclusion, and a section under a lock is one step.
- Whether a copy to or from user memory succeeds is a parameter: how many bytes can be copied.
  A copy that fails has copied nothing of that piece.
- Ghost state beside the real fields records who owns a block, a page, a descriptor or a
  heap unit, what has been logged, and the full values of counters that wrap.

## Where the code falls short of a property

- `LogAdmission.PanicThreshold`: begin_op reserves against LOGSIZE blocks while log_write
  stops one block earlier on the layout of mkfs (kernel/log.c:133 and 220). The lemma gives
  the exact condition for every log size.
- `LinkSafety.CountedExactlyIfTidy`: create and link do not look at the link count of the
  directory they write to (kernel/sysfile.c:241-284 and 148). Counts are right after a step and
  can stay right if and only if the step makes no entry in an unlinked directory. A file's count
  is still right just after such a step; it is wrong once iput frees the directory.
  `LinkSafety.LostFileHappens` is a run from an empty file system that loses a file.
- `PipeModel.StrandsExactly`: a writer killed after it has stored a byte returns without waking
  readers (kernel/pipe.c:84-87). A sleeping reader then has bytes to read. The lemma gives the
  exact condition on the arguments of the call. Reader and writer are still never both asleep.
- `HeapModel.RequestExact`: from 2^31 - 31 bytes on, malloc passes sbrk a number that does not
  fit its int parameter (user/umalloc.c:52-54), and morecore claims memory it did not get. The
  lemma says for which requests and process sizes the heap survives. A request that a free block
  serves is not affected.
- `ProcKill.KilledSleeper`: wait reads p->killed before sleep takes p->lock
  (kernel/proc.c:420-426). A kill in between is not noticed, and the process sleeps until something
  else wakes it. The lemma says that this is the only way, and `ProcKill.KilledAsleep` is a run.
- `ProcKill.KilledIff`: kill of pid 0 finds an unused slot, and allocproc does not clear the mark
  (kernel/proc.c:583-590 and 104-145). The lemma says exactly when a slot is marked;
  `ProcKill.BornKilled` is a run in which a process is killed before it exists.


## Model

| member | source | states |
|---|---|---|
| `BufferCache.GetCorrect` | kernel/bio.c:58-89 | bget finds the one buffer of a cached block, or recycles an unreferenced one without creating a second buffer for any block of a real device; it has no buffer to give exactly when the block is absent and all are referenced |
| `BufferCache.MoveToFrontPermutes` | kernel/bio.c:125-134 | moving a released buffer to the head leaves the list a permutation of the buffers |
| `BufferCache.LruOverRuns` | kernel/bio.c:58-151 | in every state of every run from binit the list is a permutation of the buffers, ordered by last full release with the most recent first, and no block of a real device is cached twice |
| `BufferCache.EvictsOldest` | kernel/bio.c:76-87 | for a block that is not cached bget takes an unreferenced buffer whose last release lies back at least as far as that of every other unreferenced one, and fails exactly if all are referenced |
| `BufferCache.EvictsOldestOverRuns` | kernel/bio.c:76-87 | in every run the buffer that bget recycles was released longest ago of all that nobody references |
| `BufferCache.PushLinked` | kernel/bio.c:43-51 | inserting a node behind the head of the circular doubly linked list gives the list with that node first |
| `BufferCache.UnlinkLinked` | kernel/bio.c:128-129 | unlinking a node gives the list without it, next and prev pointers both |
| `BufferCache.Bcache.constructor` | kernel/bio.c:36-54 | binit builds a well-linked ring over all NBUF buffers, none referenced |
| `BufferCache.Bcache.FindCached` | kernel/bio.c:66-74 | the forward walk over next pointers finds the buffer of the block if there is one |
| `BufferCache.Bcache.FindUnused` | kernel/bio.c:76-87 | the backward walk over prev pointers finds the unreferenced buffer behind which no other in the list is unreferenced; it finds none exactly if all are referenced |
| `BufferCache.Bcache.Bget` | kernel/bio.c:58-89 | bget on the linked structure takes the cache to the state that the specification Get gives; no buffer is the panic |
| `BufferCache.Bcache.Brelse` | kernel/bio.c:116-137 | brelse takes the cache to the state that the specification Drop gives, relinking on the last release |
| `BufferCache.Bcache.Bpin` | kernel/bio.c:139-144 | one more reference, nothing else |
| `BufferCache.Bcache.Bunpin` | kernel/bio.c:146-151 | one reference less, nothing else |
| `LogAdmission.MovesKeepsCore` | kernel/log.c:126-235 | whether or not operations keep to their budgets, the list stays distinct and within LOGSIZE, committing implies that no operation is outstanding, an idle log is empty, and sleepers have someone to wake them |
| `LogAdmission.NextKeepsInv` | kernel/log.c:126-235 | every step of begin_op, end_op and log_write within budget keeps the reservation invariant |
| `LogAdmission.ReservationOverRuns` | kernel/log.c:126-235 | over all interleavings the logged blocks plus the unused budgets of outstanding operations are at most LOGSIZE, committing implies that none is outstanding, an idle log is empty, and a sleeper in begin_op has an operation or commit that will wake it |
| `LogAdmission.AdmissionOverRuns` | kernel/log.c:126-143 | in every interleaving begin_op makes an operation wait exactly during a commit, beside three operations, beside two if a block has been logged, or beside one if more than ten have; an idle log admits anyone, and there are never four operations |
| `LogAdmission.EndCannotPanic` | kernel/log.c:151-155 | the panic of end_op is unreachable |
| `LogAdmission.PanicThreshold` | kernel/log.c:214-223 | for every log size and every k: an operation with k unused blocks can never be stopped by the panic of log_write if and only if k is positive and LOGSIZE - k is below size - 1 |
| `LogAdmission.SafeBudgetOfMkfsLayout` | kernel/log.c:220-221 | with the layout of mkfs (size == LOGSIZE) two unused blocks are enough and one is not |
| `LogAdmission.Log.BeginOp` | kernel/log.c:126-143 | begin_op admits exactly if no commit is under way and the logged blocks and a full budget for each operation, this one included, fit the log; it leaves the state that the specification gives |
| `LogAdmission.Log.EndOp` | kernel/log.c:146-166 | end_op asks for a commit exactly when the last operation ends |
| `LogAdmission.Log.EndCommit` | kernel/log.c:168-174 | the log is open again and all sleepers are woken |
| `LogAdmission.Log.LogBlock` | kernel/log.c:214-235 | log_write, from any caller, panics exactly in the two listed cases and with the right one of the two, absorbs a block already in the log, and otherwise appends it |
| `LogMachine.Encode` | kernel/log.c:102-114 | the header that write_head writes reads back as the same list of block numbers |
| `LogSafety.NextKeepsInv` | kernel/log.c:68-235 | each of the twenty steps of buffers, operations, commit, crash and recovery keeps the invariant |
| `LogSafety.InvOverRuns` | kernel/log.c:68-235 | the invariant holds in every state of every run, through any number of crashes |
| `LogSafety.BootInv` | kernel/log.c:116-123 | a machine that boots from a recoverable disk satisfies the invariant |
| `LogSafety.RecoverCorrect` | kernel/log.c:116-123 | a finished recovery leaves exactly the durable contents in the home blocks and an empty log, and recovering again changes nothing |
| `LogSafety.HistoryIsFlat` | kernel/log.c:178-235 | the history that runs keep is the flat block store with commits, step by step |
| `LogSafety.CrashAtomicity` | kernel/log.c:68-123 | after a crash at any point of any run, also inside earlier recoveries, and whatever operations log as long as log_write does not panic, a finished recovery gives the home blocks exactly the contents logged up to the last commit point |
| `LogSafety.CommitPoint` | kernel/log.c:193-203 | what recovery would produce changes at the first write_head only, and there from all old to all new |
| `LogSafety.ReadsLatest` | kernel/bio.c:92-103 | a home block held in a running system has the latest logged contents of the flat store |
| `LogSafety.HomeWritesAreCommitted` | kernel/log.c:68-83 | a home location is only ever written with committed contents of a block listed in the header on disk |
| `LogSafety.OneBufferPerBlock` | kernel/bio.c:58-89 | in every state of every run a block of a real device has one buffer |
| `LogSafety.CopyKeeps` | kernel/log.c:178-190 | a copy of write_log keeps the invariant |
| `LogSafety.HeadKeeps` | kernel/log.c:102-114 | the header write that commits keeps the invariant, with the durable contents replaced by the store |
| `LogSafety.InstallKeeps` | kernel/log.c:68-83 | installing a block and unpinning its buffer keeps the invariant |
| `LogSafety.WriteKeeps` | kernel/log.c:214-235 | modifying a held buffer and passing it to log_write keeps the invariant |
| `LogSafety.ReplayKeeps` | kernel/log.c:68-83 | a replay step of recovery keeps the invariant |
| `LogDevice.Device.constructor` | kernel/log.c:54-65 | power on: the state the machine boots in |
| `LogDevice.SecondBuffer` | kernel/log.c:74-80 | with one buffer taken a second can be had, if two were unreferenced or a referenced one holds the block |
| `LogDevice.PinnedIsKept` | kernel/log.c:68-83 | a block that is still to be installed has its pinned buffer, so that reading it needs no other |
| `LogDevice.Device.Bread` | kernel/bio.c:92-103 | bread locks the buffer of the block with the disk contents; it has no buffer exactly if none holds the block and all are referenced |
| `LogDevice.Device.Brelse` | kernel/bio.c:116-137 | the buffer is unlocked and dropped, other buffers untouched |
| `LogDevice.Device.FillHeader` | kernel/log.c:107-111 | the loop of write_head encodes the block list |
| `LogDevice.Device.CopyEntries` | kernel/log.c:92-95 | the loop of read_head decodes the block list |
| `LogDevice.Device.WriteLog` | kernel/log.c:178-190 | every logged block has been copied to its log block, as steps of the machine; it fails only if every buffer is referenced at the start |
| `LogDevice.Device.WriteHead` | kernel/log.c:102-114 | after write_log the store becomes durable; otherwise the log is erased; it fails only if every buffer is referenced |
| `LogDevice.Device.InstallTrans` | kernel/log.c:68-83 | all logged blocks are installed, as steps of the machine; in a commit it fails only if every buffer is referenced, and in recovery only if at most one is not |
| `LogDevice.Device.Commit` | kernel/log.c:193-203 | on return the whole transaction is durable and in the home blocks, and the log on disk is empty; it fails only if every buffer is referenced at the start |
| `LogDevice.Device.ReadHead` | kernel/log.c:86-97 | the header on disk is in memory and replay can begin; it fails only if every buffer is referenced |
| `LogDevice.Device.RecoverFromLog` | kernel/log.c:116-123 | on return the home blocks hold the durable contents and the log on disk is empty; it fails only if at most one buffer is unreferenced at the start, and so never when none is referenced |
| `ProcSafety.NextKeepsInv` | kernel/proc.c:272-597 | every lock-protected section of fork, exit, reparent, wait, sleep, wakeup, kill and the scheduler keeps the invariant |
| `ProcSafety.InvOverRuns` | kernel/proc.c:272-597 | the invariant holds in every interleaving of these sections |
| `ProcSafety.NoLostExit` | kernel/proc.c:383-431 | whenever wait_lock is free, a process asleep in wait has children and none of them is a zombie |
| `ProcSafety.ParentsAlive` | kernel/proc.c:323-379 | every parent pointer names a process that is neither unused nor a zombie, and every live process but init has one |
| `ProcSafety.ReapedOnce` | kernel/proc.c:400-417 | a process that exited is a zombie or has been returned by exactly one wait, with its exit status |
| `ProcSafety.ZombieKeeps` | kernel/proc.c:362-374 | becoming a zombie after waking the parent keeps the invariant |
| `ProcSafety.ReparentKeeps` | kernel/proc.c:323-335 | a turn of reparent keeps the invariant |
| `ProcSafety.SleepKeeps` | kernel/proc.c:528-555 | sleeping in wait, once the scan has found children and no zombie among them, keeps the invariant |
| `ProcTable.Table.constructor` | kernel/proc.c:46-59 | the table with init alone, a start state of the machine |
| `ProcTable.Table.Wakeup` | kernel/proc.c:559-574 | every process asleep on the channel but the caller is runnable, and nothing else of any process changes |
| `ProcTable.Table.Reparent` | kernel/proc.c:323-335 | the children of the exiting process, and no others, are given to init |
| `ProcTable.Table.Exit` | kernel/proc.c:339-379 | the whole table after exit: the zombie, its children at init, init and the parent woken |
| `ProcTable.Table.WaitPass` | kernel/proc.c:383-431 | one pass of wait reaps the first zombie child, or finds no children, or sleeps |
| `ProcTable.Table.Reap` | kernel/proc.c:402-416 | the pid and status of the zombie are returned and its slot is blank in every field, or nothing changes if the status cannot be copied out |
| `ProcTable.Table.EndPass` | kernel/proc.c:421-429 | wait gives up exactly if there are no children or it was killed |
| `ProcTable.Table.Kill` | kernel/proc.c:578-597 | the first process with the pid is marked and runnable if it was asleep, its state otherwise and its channel, parent, pid and status are as before, and no other process changes; -1 exactly if no slot has the pid |
| `ProcSafety.ForkFailKeeps` | kernel/proc.c:284-288 | freeing the slot of a child for which there is no memory keeps the invariant |
| `ProcTable.Table.AllocProc` | kernel/proc.c:104-122 | the first unused slot is taken with a new pid; none exactly if all slots are in use |
| `ProcTable.Table.Fork` | kernel/proc.c:272-319 | the first unused slot becomes a runnable child of the caller with a new pid; without a slot nothing changes, and without memory the slot is blank again |
| `ProcKill.NoSpuriousWakeup` | kernel/proc.c:528-597 | in every run a sleeping process stays asleep on its channel until a kill of it or a wakeup on that channel, and is then runnable |
| `ProcKill.KillWakes` | kernel/proc.c:578-597 | in every run, right after a kill of q, q is marked and not asleep, its state is otherwise what it was, and nothing else has changed |
| `ProcKill.KilledIff` | kernel/proc.c:578-597 | in every run a slot is marked killed if and only if it has been killed since it was last freed |
| `ProcKill.BlankSlots` | kernel/proc.c:147-168 | in every run an unused slot has no pid, parent, channel or status, and exactly the slots in use have a pid |
| `ProcKill.KilledSleeper` | kernel/proc.c:420-429 | in every run a process sleeps in wait although it has been killed if and only if the kill came after it read p->killed and before it slept |
| `ProcKill.KilledAsleep` | kernel/proc.c:420-429 | a run that ends so: init forks, scans, finds its child alive, is killed, and sleeps |
| `ProcKill.BornKilled` | kernel/proc.c:578-597 | a run in which a process is killed before it exists: kill of pid 0 marks an unused slot, and fork does not clear the mark |
| `FsModel.EmptyVolume` | mkfs/mkfs.c:110-111 | a volume without files satisfies the ownership invariant if its free map marks the metadata blocks |
| `FsModel.WithBitChanges` | kernel/fs.c:73-79 | setting one free-map bit changes the bit of that block and of no other |
| `FsModel.AllocFresh` | kernel/fs.c:64-86 | a block that balloc takes is owned by nobody and is no metadata |
| `FsModel.AddSlot` | kernel/fs.c:377-405 | putting a fresh block in an empty slot keeps all slots different and in range |
| `FsModel.DirectMapped` | kernel/fs.c:383-387 | filling a direct slot keeps the invariant and maps exactly that block of that file |
| `FsModel.EntryMapped` | kernel/fs.c:396-400 | filling an entry of the indirect block keeps the invariant and maps exactly that block of that file |
| `FsModel.TruncatedInv` | kernel/fs.c:409-437 | after the blocks of a file are freed and its slots cleared the invariant holds again |
| `FsModel.TruncatedFiles` | kernel/fs.c:409-437 | itrunc leaves that file empty and every byte of every other file alone |
| `FsModel.PatchWritten` | kernel/fs.c:496-506 | copying the next stretch of the source into its block writes exactly that stretch of exactly that file |
| `FsModel.SizeWritten` | kernel/fs.c:508-517 | setting the size completes the splice, and every other file has the bytes it had |
| `FsModel.SpliceJoin` | kernel/file.c:157-174 | writing two adjacent chunks is writing them at once |
| `FsModel.FirstMapped` | kernel/fs.c:491-497 | a block that a write begins in the middle of is mapped already, since off <= size |
| `FsModel.TouchedBound` | kernel/fs.c:486-517 | the blocks a write logs are bounded by its data blocks, a free-map block for each newly mapped one, the indirect block with its free-map block, and the inode block |
| `FsModel.ChunkBudget` | kernel/file.c:155-160 | for every offset a chunk of filewrite stays within MAXOPBLOCKS |
| `FsModel.ChunkLogged` | kernel/file.c:155-169 | a write within a chunk logs every block and inode it changes, and at most MAXOPBLOCKS blocks |
| `FsSpace.OneSlotClear` | kernel/fs.c:377-405 | filling an empty slot takes exactly one block from those whose bit is clear |
| `FsSpace.NeedsBound` | kernel/fs.c:377-405 | mapping n blocks of a file takes at most n blocks and one for the indirect block |
| `FsSpace.ProvidedJoin` | kernel/fs.c:491-506 | mapping one stretch of a file and then an adjoining one takes exactly what mapping both takes |
| `FsSpace.StarvedJoin` | kernel/fs.c:491-506 | if the blocks left do not serve the second stretch then the blocks there were did not serve both |
| `FsSpace.SpaceBound` | kernel/fs.c:486-517 | a write has room if more bits are clear than there are blocks of the file that it writes to |
| `FsOps.FileSystem.constructor` | mkfs/mkfs.c:110-111 | a volume of zeroes with the metadata marked is in order and all its files are empty |
| `FsOps.FileSystem.MarkMetadata` | mkfs/mkfs.c:234-248 | the bits of the metadata blocks, and no others, are set |
| `FsOps.CopiedAt` | kernel/fs.c:496-506 | the loop of writei stops with exactly the whole pieces that can be copied in |
| `FsOps.FileSystem.Balloc` | kernel/fs.c:64-86 | the lowest block whose bit is clear, marked and zeroed, with both blocks logged; none exactly if all bits are set |
| `FsOps.FileSystem.Bfree` | kernel/fs.c:89-103 | the bit is cleared; the panic exactly if it was clear |
| `FsOps.FileSystem.Bmap` | kernel/fs.c:377-405 | the block is mapped, zeroed if new, nothing else is mapped or changed, ownership is kept, exactly the free blocks needed were taken, what was logged is bounded, and every block that changed was logged; within a file it fails only if every bit of the free map is set |
| `FsOps.FileSystem.BmapDirect` | kernel/fs.c:383-387 | the same for direct blocks, with the panic of balloc only if every bit of the free map is set |
| `FsOps.FileSystem.AddIndirect` | kernel/fs.c:391-393 | the file gets an indirect block and no file changes |
| `FsOps.FileSystem.BmapEntry` | kernel/fs.c:394-402 | the same for entries of the indirect block, which is logged when it changes |
| `FsOps.FileSystem.Itrunc` | kernel/fs.c:409-437 | the file is empty, exactly its blocks are free again, no other file changes, no call of bfree panics, and every block that changed and the inode block are logged |
| `FsOps.FileSystem.FreeIndirect` | kernel/fs.c:422-433 | the loop over the indirect block frees exactly its entries and then the block |
| `FsOps.FileSystem.Readi` | kernel/fs.c:455-477 | exactly the slice of the contents clipped to the size, with nothing allocated, logged or changed; -1 exactly if the destination is too small |
| `FsOps.FileSystem.ReadLoop` | kernel/fs.c:465-475 | the loop collects the slice block by block |
| `FsOps.FileSystem.Writei` | kernel/fs.c:486-517 | refused exactly for a bad offset or length; out of blocks exactly if fewer bits are clear than the blocks it has to map, and then all bits are set; otherwise the contents are the old ones with exactly the pieces that could be copied spliced in at off, every other file is unchanged, ownership is kept, the logged blocks are within the budget, and they include the inode block and every block that changed |
| `FsOps.FileSystem.WriteLoop` | kernel/fs.c:496-506 | what the loop keeps, turn by turn, for contents, ownership, free blocks and log |
| `FsOps.FileSystem.WriteTurn` | kernel/fs.c:497-505 | one turn writes one stretch, or stops with what was written before |
| `FsOps.FileSystem.FileWrite` | kernel/file.c:149-175 | the call is a sequence of operations, one per chunk, each of which logs every block it changes and at most MAXOPBLOCKS blocks; before chunk k exactly k chunks of the source are in the file; it returns n exactly if everything could be written; it runs out of blocks only if all bits are set and fewer were clear than the whole write needs |
| `FsOps.FileSystem.WriteChunks` | kernel/file.c:157-174 | the loop over the chunks, with the same account |
| `FsOps.FileSystem.WriteChunk` | kernel/file.c:157-174 | one chunk as one operation on the log |
| `FsRuns.Perform` | kernel/fs.c:409-517 | one call of readi, writei or itrunc changes the files as it changes a row of byte strings, and answers the same; it panics exactly if it is a write that needs more blocks than are free |
| `FsRuns.PerformAll` | kernel/fs.c:377-517 | over any sequence of such calls from any volume in order: every block stays owned by exactly one slot, the files are those of the row of byte strings, and so is every answer; blocks run out only if fewer are free at the start than one for each block written to and one for each write |
| `FsRuns.WrittenBytes` | kernel/fs.c:486-517 | a write changes exactly the bytes it copies, extends the file if they reach beyond it, and leaves every other file |
| `FsRuns.ReadBack` | kernel/fs.c:455-517 | a read of what has just been written returns it |
| `LinkModel.Lookup` | kernel/fs.c:529-553 | the first slot in use with the name |
| `LinkModel.EmptySlot` | kernel/fs.c:569-575 | the first slot not in use |
| `LinkSafety.CreateKeeps` | kernel/sysfile.c:241-284 | creating in a linked directory keeps the link counts and the tree |
| `LinkSafety.LinkKeeps` | kernel/sysfile.c:119-166 | entering a second name in a linked directory keeps them |
| `LinkSafety.UnlinkKeeps` | kernel/sysfile.c:184-239 | clearing a name keeps them, for files and for empty directories |
| `LinkSafety.FreeKeeps` | kernel/fs.c:332-358 | freeing an inode in iput keeps them |
| `LinkSafety.UnlinkFinds` | kernel/sysfile.c:201-211 | what sys_unlink finds is in use and has a link, so its panic cannot happen |
| `LinkSafety.LinkCountsOverRuns` | kernel/sysfile.c:119-284 | in every run that makes no entry inside an unlinked directory, every link count is the number of entries naming the inode, not counting "." and the ".." of unlinked directories |
| `LinkSafety.FreedIsUnnamed` | kernel/fs.c:332-358 | an inode that iput frees is named by no linked directory |
| `LinkSafety.NoDanglingEntry` | kernel/fs.c:288-313 | an entry of a linked directory never leads to a free inode |
| `LinkSafety.CountedExactlyIfTidy` | kernel/sysfile.c:241-284 | after a step every link count is right now and in every state of every further run without entries in unlinked directories, if and only if the step makes no entry inside a directory that is already unlinked |
| `LinkSafety.NamedInUnlinkedIsLost` | kernel/fs.c:332-358 | whatever an unlinked directory names, some run frees the directory and leaves the count of what it names too high |
| `LinkSafety.UntidyDirMiscounts` | kernel/sysfile.c:270-276 | making a directory inside an unlinked one makes the count of the inode behind its ".." wrong at once |
| `LinkSafety.LostFile` | kernel/sysfile.c:241-284 | the failure: a file created in an unlinked directory keeps link count 1 when the directory is freed, although nothing names it |
| `LinkSafety.LostFileHappens` | kernel/sysfile.c:241-284 | a run from an empty file system that ends with a lost file: mkdir d, enter it, remove it, create f in it, leave it |
| `Dirents.DirentRoundTrip` | kernel/fs.h:53-60 | an entry written as 16 bytes reads back as that entry |
| `Dirents.ReadsEntry` | kernel/fs.c:537-540 | reading 16 bytes at a multiple of 16 gives the entry there |
| `Dirents.DirlinkWrites` | kernel/fs.c:568-581 | writing the entry at the first free slot enters it where the model puts it, and leaves every other entry |
| `Dirents.UnlinkWrites` | kernel/sysfile.c:218-220 | writing a zeroed entry empties that slot and leaves every other entry |
| `LinkOps.Itable.Dirlookup` | kernel/fs.c:529-553 | the slot that Lookup gives |
| `LinkOps.Itable.Dirlink` | kernel/fs.c:556-583 | refused exactly if the name is present; the panic exactly if it is absent and no slot within the largest size is empty; otherwise entered in the first free slot |
| `LinkOps.Itable.IsDirEmpty` | kernel/sysfile.c:169-181 | exactly if every slot behind the dots is empty |
| `LinkOps.Itable.FindFree` | kernel/fs.c:195-216 | the first free inode, or the panic if there is none |
| `LinkOps.Itable.Iget` | kernel/fs.c:242-283 | one more reference |
| `LinkOps.Itable.Iput` | kernel/fs.c:332-358 | the last reference to an unlinked inode frees it; what is freed no linked directory names |
| `LinkOps.Itable.Create` | kernel/sysfile.c:241-284 | the inode of an existing name; the panic exactly if the name is absent and no inode is free or the directory is full; otherwise a new inode entered in dp, which keeps the invariant if dp is linked and after which counts cannot stay right if it is not; the panics for the dots and the name cannot happen |
| `LinkOps.Itable.Link` | kernel/sysfile.c:119-166 | a new name with a count, which keeps the invariant if dp is linked and spoils the counts if it is not; or, on every failing path, the table as it was; the panic exactly if the name is absent from a full directory |
| `LinkOps.Itable.Unlink` | kernel/sysfile.c:184-239 | removes exactly what may be removed, and keeps the invariant |
| `PageModel.PteRoundTrip` | kernel/riscv.h:338-352 | PA2PTE and PTE2PA undo each other and keep the flags apart |
| `PageModel.PxOfAddress` | kernel/riscv.h:354-357 | the indices of a page are the 9-bit fields of the address |
| `PageModel.PxInjective` | kernel/riscv.h:354-363 | below MAXVA the three indices determine the page |
| `PageModel.PoppedInv` | kernel/kalloc.c:68-82 | taking the head of the free list keeps the invariant and every table |
| `PageModel.PushedInv` | kernel/kalloc.c:46-65 | pushing a page keeps the invariant and every table |
| `PageModel.ExtendedInv` | kernel/vm.c:86-97 | a new table below an empty entry keeps the invariant |
| `PageModel.ExtendedFlat` | kernel/vm.c:86-97 | and changes no mapping of any address space |
| `PageModel.LeafSetInv` | kernel/vm.c:150-154 | writing a leaf entry changes the flat map at that page of that space and nowhere else |
| `PageModel.FreeListExact` | kernel/kalloc.c:46-82 | the free list holds every unused page once, and no page of it is a table or backs a mapping |
| `PageModel.GivenPrivate` | kernel/vm.c:220-328 | if every mapping of every address space has a page of its own, then so it is after uvmalloc or uvmcopy |
| `PageModel.NoSharedPages` | kernel/vm.c:220-328 | after uvmalloc or uvmcopy no two mappings, of one address space or of two, share a page |
| `PageModel.GivenBack` | kernel/vm.c:232-241 | the failure path returns every data page, leaves every mapping as it was, and keeps only tables |
| `PageFree.DroppedInv` | kernel/vm.c:266-282 | giving up an empty table keeps the invariant but for the entry above it |
| `PageFree.KidFreed` | kernel/vm.c:270-277 | after the recursive call and the clearing of its entry, everything below the first entries is free |
| `PageFree.TableFreed` | kernel/vm.c:281-282 | after the loop the table itself is free, and nothing outside its subtree has changed |
| `PageCount.EnoughForAll` | kernel/vm.c:80-100 | three free pages for each page to be mapped are always enough |
| `PageCount.ShortOrEnough` | kernel/vm.c:220-328 | a range is short of pages exactly if it does not have enough |
| `PageCount.UsedCost` | kernel/vm.c:86-97 | once all tables are there, the pages taken are exactly the tables that were missing and the data pages |
| `PageCount.TooFew` | kernel/vm.c:229-241 | if the next page cannot be given, then there were fewer free pages at the start than the whole range needs |
| `PageCount.SuppliedEnough` | kernel/vm.c:229-243 | a range that was given whole found the pages it needs at the start |
| `PageTable.Memory.constructor` | kernel/kalloc.c:26-40 | kinit puts every page of the range on the free list once |
| `PageTable.Memory.Kalloc` | kernel/kalloc.c:68-82 | the head of the list, filled with junk, or 0 exactly if the list is empty |
| `PageTable.Memory.Kfree` | kernel/kalloc.c:46-65 | the page is the new head; the panic exactly for a page outside the range |
| `PageTable.Memory.Down` | kernel/vm.c:86-97 | the table below, allocated if asked for and missing |
| `PageTable.Memory.Walk` | kernel/vm.c:80-100 | the leaf entry of the page; no mapping changes; without alloc nothing changes; 0 with alloc only when memory is out; pages are taken for missing tables of that address only |
| `PageTable.Memory.MapPage` | kernel/vm.c:147-159 | one page mapped, or a remap panic exactly if it was mapped |
| `PageTable.Memory.Mappages` | kernel/vm.c:137-160 | exactly the pages of the range are mapped to consecutive frames and no other mapping changes; on failure a prefix is; it fails for memory only if fewer pages are free than the tables that the range lacks, and succeeds only if as many are |
| `PageTable.Memory.UnmapPage` | kernel/vm.c:172-186 | one page unmapped and, if asked for, its frame freed |
| `PageTable.Memory.Uvmunmap` | kernel/vm.c:165-187 | exactly the pages of the range are unmapped and exactly their frames freed; it panics exactly if one is not mapped or va is not aligned |
| `PageTable.Memory.GivePage` | kernel/vm.c:229-242 | a new frame with given contents at a page; on failure nothing but tables is kept, and fewer pages were free than the frame and its missing tables |
| `PageTable.Memory.Uvmdealloc` | kernel/vm.c:250-262 | exactly the pages between the rounded sizes go |
| `PageTable.Memory.Uvmalloc` | kernel/vm.c:220-244 | zeroed user pages of their own at exactly the new range; on failure every mapping and every data page is as before; it fails only if fewer pages are free than the new pages and the tables that they lack, and succeeds only if as many are and none of the range was mapped |
| `PageTable.Memory.Uvmcreate` | kernel/vm.c:191-200 | a root that maps nothing, other spaces unchanged |
| `PageTable.Memory.CopyPage` | kernel/vm.c:308-322 | the page at v of the child has the contents and flags of the parent; it fails for memory only if fewer pages are free than the page and its missing tables |
| `PageTable.Memory.Uvmcopy` | kernel/vm.c:300-328 | the child has pages of its own with the contents and flags of the parent, all of which were mapped; on failure everything but tables is returned; it fails for memory only if fewer pages are free than the pages to copy and the tables that they lack, and succeeds only if as many are |
| `PageTable.Memory.Freewalk` | kernel/vm.c:266-282 | exactly the tables of the subtree are freed; the leaf panic cannot happen |
| `PageTable.Memory.Uvmfree` | kernel/vm.c:286-292 | panics exactly if a page below sz is not mapped; otherwise every page of the space is freed once and no other page changes hands |
| `VirtioSafety.TwoInFlight` | kernel/virtio_disk.c:190-201 | at most two requests are in flight |
| `VirtioSafety.StepKeeps` | kernel/virtio_disk.c:203-314 | every step of driver and device keeps the virtqueue invariant |
| `VirtioSafety.InvOverRuns` | kernel/virtio_disk.c:203-314 | it holds in every run, whatever the order of completions and however often the 16-bit indices wrap |
| `VirtioSafety.Partition` | kernel/virtio_disk.c:144-201 | free descriptors and the three-descriptor chains in flight partition the NUM descriptors |
| `VirtioSafety.NoUnreadOverwritten` | kernel/virtio_disk.c:253-261 | no avail or used entry is overwritten before the other side has read it |
| `VirtioSafety.FetchFinds` | kernel/virtio_disk.c:253-261 | what the device reads from the avail ring is a request it has not fetched before |
| `VirtioSafety.DeviceDoesRequest` | kernel/virtio_disk.c:222-251 | a device that goes by the descriptors alone carries out exactly the request, on its buffer, with its status byte |
| `VirtioSafety.SeeFinds` | kernel/virtio_disk.c:300-310 | what virtio_disk_intr finds is an answered request with status 0 and its own buffer, so the panic cannot happen |
| `VirtioSafety.ClearsOwnBuffer` | kernel/virtio_disk.c:307-310 | a completion clears the flag of its own buffer and of no other |
| `VirtioDisk.Disk.constructor` | kernel/virtio_disk.c:76-140 | the rings at start satisfy the invariant |
| `VirtioDisk.Disk.AllocDesc` | kernel/virtio_disk.c:144-154 | the lowest free descriptor, or none exactly if none is free |
| `VirtioDisk.Disk.FreeDesc` | kernel/virtio_disk.c:157-170 | cleared and free; the panics exactly for a bad or free index |
| `VirtioDisk.Disk.Alloc3Desc` | kernel/virtio_disk.c:190-201 | the three lowest free descriptors, or no change exactly if there are fewer |
| `VirtioDisk.Disk.Submit` | kernel/virtio_disk.c:203-265 | a submit step of the machine, or no change if descriptors are short |
| `VirtioDisk.Disk.FreeChain` | kernel/virtio_disk.c:173-186 | the loop over next flags frees exactly the three descriptors |
| `VirtioDisk.Disk.Finish` | kernel/virtio_disk.c:267-276 | a finish step of the machine |
| `VirtioDisk.Disk.Intr` | kernel/virtio_disk.c:282-314 | every returned request is answered, and only those |
| `HeapModel.BlocksDisjoint` | user/umalloc.c:24-90 | free and used blocks never overlap |
| `HeapModel.UnitsConserved` | user/umalloc.c:24-90 | a unit came from sbrk if and only if it lies in a block, and then in one only |
| `HeapModel.FreedInv` | user/umalloc.c:24-44 | free keeps the ring sorted, disjoint and fully coalesced, with the same units |
| `HeapModel.FreedFields` | user/umalloc.c:32-43 | the assignments of free carry out insertion and both merges |
| `HeapModel.RemovedInv` | user/umalloc.c:75-76 | handing out an exact fit keeps the invariant |
| `HeapModel.SplitInv` | user/umalloc.c:77-81 | handing out the tail of a block keeps the invariant |
| `HeapModel.ObtainedInv` | user/umalloc.c:46-61 | a new block from sbrk keeps the invariant |
| `HeapModel.ClaimExact` | user/umalloc.c:52-59 | for every movement of the end of memory, up or down: the heap is in order after morecore if and only if the new block begins at the old end and claims exactly what was added |
| `HeapModel.RequestExact` | user/umalloc.c:46-61 | with the 32-bit arithmetic of sbrk and growproc: the heap is in order after morecore if and only if the request is at most 2^31 - 32 bytes and the memory of the process ends below 2^31 |
| `HeapModel.GrownExact` | kernel/proc.c:253-268 | growproc adds the units asked for if and only if their number of bytes fits an int |
| `HeapModel.SearchStops` | user/umalloc.c:30-32 | the two tests of the search hold exactly at the place where the block belongs |
| `HeapModel.SbrkArgument` | user/umalloc.c:52-54 | the int passed to sbrk is the number of bytes accounted for if and only if the request is at most 2^31 - 32 bytes |
| `HeapModel.SbrkShrinks` | user/umalloc.c:52-54 | a request of 2^31 - 31 bytes, the first one too large, passes sbrk the number -2^31 |
| `Umalloc.Allocator.Search` | user/umalloc.c:30-32 | the search ends within one lap at the right place |
| `Umalloc.Allocator.Free` | user/umalloc.c:24-44 | the block is back in the ring, merged; all other used blocks and all units are as before; the next search begins where it was put |
| `Umalloc.Allocator.Morecore` | user/umalloc.c:46-61 | at least 4096 new units at the end of memory and a free block large enough, or no change |
| `Umalloc.Allocator.Scan` | user/umalloc.c:73-87 | one lap finds the first block behind freep that fits, or there is none |
| `Umalloc.Allocator.Malloc` | user/umalloc.c:63-90 | a block of exactly the units needed that was in no use before: without a call of morecore, the upper end of the first block behind freep that fits; other used blocks keep their sizes; morecore is called once if no free block fits and not at all if one does; fails exactly if it is called and there is no memory |
| `Umalloc.Allocator.Take` | user/umalloc.c:74-84 | the upper end of the block found becomes a used block of the size asked for, the rest stays free, and the next search begins behind its predecessor |
| `ShellGrammar.ParseCmd` | user/sh.c:327-342 | a tree only if the whole text has been consumed, and then a well-formed one |
| `ShellGrammar.ParseLine` | user/sh.c:344-359 | consumes text and gives well-formed trees only |
| `ShellGrammar.ParseArgs` | user/sh.c:428-446 | at most nine words, each a proper word, wrapped in the redirections met |
| `ShellRoundTrip.LineRoundTrip` | user/sh.c:344-446 | parsing a printed tree, in any place where it may stand, gives the tree and stops where the print ended |
| `ShellRoundTrip.RoundTrip` | user/sh.c:327-446 | parsecmd of the fully parenthesised print of a tree is the tree |
| `ShellRoundTrip.ParsesToGood` | user/sh.c:327-446 | the trees that some text parses to are exactly the well-formed ones |
| `ShellRoundTrip.ParsePrintParse` | user/sh.c:327-446 | printing what was parsed and parsing that changes nothing |
| `ShellPrecedence.Precedence` | user/sh.c:327-446 | every well-formed tree, printed with parentheses only where the grammar needs them, is what parsecmd makes of the text: redirections bind tighter than the pipe symbol, that tighter than the ampersand, that tighter than the semicolon, and they group to the left, right, left and right |
| `ShellPrecedence.LineParse` | user/sh.c:344-359 | the same for parseline in any place where a line may stand |
| `ShellPrecedence.PipeParse` | user/sh.c:361-372 | the same for parsepipe |
| `ShellPrecedence.ExecParse` | user/sh.c:399-446 | the same for parseexec and parseblock |
| `ShellPrecedence.BacksParse` | user/sh.c:350-353 | each ampersand puts one more background node around the command |
| `ShellPrecedence.FormsParse` | user/sh.c:374-397 | any sequence of redirections is read in order |
| `ShellPrecedence.WrapForms` | user/sh.c:374-397 | wrapping in order makes the first redirection the innermost |
| `ShellPrecedence.TwoRedirections` | user/sh.c:374-397 | of two redirections behind the words of a command the first is the inner one |
| `ShellPrecedence.BackList` | user/sh.c:344-359 | a command, an ampersand, a semicolon and a command parse to the list of the background command and the other |
| `ShellPrecedence.PipeBackList` | user/sh.c:344-372 | a pipeline, an ampersand, a semicolon and a command parse to the list of the background pipeline and the command |
| `ShellParser.Parser.Gettoken` | user/sh.c:265-308 | the token and the cursor of the grammar |
| `ShellParser.Parser.PeekAt` | user/sh.c:310-319 | the test and the cursor of the grammar |
| `ShellParser.Parser.Parseredirs` | user/sh.c:374-397 | the redirections of the grammar, or its syntax error |
| `ShellParser.Parser.Parseexec` | user/sh.c:415-446 | the command of the grammar, or its syntax error |
| `ShellParser.Parser.ParseWords` | user/sh.c:426-446 | the word loop of the grammar |
| `ShellParser.Parser.Parseblock` | user/sh.c:399-412 | the block of the grammar, or its syntax error |
| `ShellParser.Parser.Parsepipe` | user/sh.c:361-372 | the pipeline of the grammar, or its syntax error |
| `ShellParser.Parser.Parseline` | user/sh.c:344-359 | the line of the grammar, or its syntax error |
| `ShellParser.Parser.Parsecmd` | user/sh.c:327-342 | terminates with the tree of the whole text and the cursor at its end, or with a syntax error; afterwards every word of the tree is a C string of its own in the buffer |
| `ShellParser.Nulterminate` | user/sh.c:449-493 | the buffer has a NUL behind every word of the tree and is otherwise unchanged |
| `ShellParser.ReadBack` | user/sh.c:449-493 | no NUL falls inside a word and one falls right behind it, so each word reads back as it was parsed |
| `ShellParser.WrapValue` | user/sh.c:374-397 | wrapping the nodes wraps the command |
| `PipeModel.Counters` | kernel/pipe.c:87-115 | the 32-bit counters tell empty from full and pick the right slots |
| `PipeModel.StepKeeps` | kernel/pipe.c:58-130 | every section of pipewrite, piperead, pipeclose and kill keeps the invariant |
| `PipeModel.InvOverRuns` | kernel/pipe.c:58-130 | the invariant holds in every interleaving |
| `PipeModel.Fifo` | kernel/pipe.c:76-130 | in every run the bytes taken out are a prefix of the bytes put in, in order, with at most PIPESIZE between |
| `PipeModel.NeverBothAsleep` | kernel/pipe.c:76-130 | no reader and writer are ever asleep at the same time, killed writers or not |
| `PipeModel.NoSleepAfterCloseWrite` | kernel/pipe.c:58-74 | in every run, once the writing end is closed no reader sleeps and none goes to sleep again |
| `PipeModel.NothingAfterCloseRead` | kernel/pipe.c:58-74 | in every run, once the reading end is closed no writer sleeps, nothing more is written, and a write of any bytes returns -1 |
| `PipeModel.SleepersHaveCause` | kernel/pipe.c:76-130 | if no writer is killed mid-call, a sleeping reader has nothing to read and a sleeping writer has no room |
| `PipeModel.GoesOn` | kernel/pipe.c:83-97 | the tests of the loop of pipewrite, in their order, stop it exactly where Stop says and as EndOf says |
| `PipeModel.FailsMidWrite` | kernel/pipe.c:83-87 | pipewrite returns -1 with bytes left behind if and only if the pipe is open for reading, the kill comes after the first byte it stores and before its last one, and neither a full pipe nor a failing copyin comes first |
| `PipeModel.StrandsExactly` | kernel/pipe.c:83-102 | a step leaves a sleeping reader with bytes to read if and only if a reader sleeps and a writer is killed as just said |
| `PipeModel.KilledWriterStrandsReader` | kernel/pipe.c:84-87 | a reader goes to sleep, a writer of two bytes is killed after the first, and the reader is not told |
| `PipeBuffer.Buffer.constructor` | kernel/pipe.c:22-56 | an empty open pipe |
| `PipeBuffer.Buffer.Pipewrite` | kernel/pipe.c:76-103 | the write step of the machine for these arguments: how far it gets and how it ends are given exactly, it fails at once if the reading end is closed, and a reader is left asleep beside bytes if and only if one slept and the kill came in the middle |
| `PipeBuffer.Buffer.Fill` | kernel/pipe.c:83-98 | the loop stores exactly the bytes up to the first thing that stops it, and ends accordingly |
| `PipeBuffer.Buffer.Piperead` | kernel/pipe.c:105-130 | a sleep step exactly if the pipe is empty, open for writing and the reader is not killed, -1 exactly if it is empty, open and the reader killed, and otherwise a read step; 0 from an empty closed pipe; a byte whose copyout fails is consumed and not returned |
| `PipeBuffer.Buffer.CopyLoop` | kernel/pipe.c:119-125 | the bytes copied out are the oldest in the pipe, in order |
| `PipeBuffer.Buffer.Pipeclose` | kernel/pipe.c:58-74 | a close step of the machine |
| `Regex.MatchHereSound` | user/grep.c:83-104 | what matchhere accepts splits into pieces that fit the pattern |
| `Regex.MatchHereComplete` | user/grep.c:83-104 | what splits into such pieces is accepted |
| `Regex.MatchHereCorrect` | user/grep.c:83-104 | matchhere accepts exactly the texts that begin as the pattern means |
| `Regex.Matchhere` | user/grep.c:83-94 | the program computes that |
| `Regex.Matchstar` | user/grep.c:97-104 | the loop computes the meaning of a starred character before the rest |
| `Regex.Match` | user/grep.c:70-80 | match accepts exactly the texts in which the pattern occurs, at the start after ^ |
| `Grep.PrintsAllLines` | user/grep.c:10-34 | if every line fits in 1023 bytes with its newline, all matching lines are printed |
| `Grep.Reader.Read` | user/grep.c:17-18 | a read of any size from one byte to all that fits |
| `Grep.Reader.Strchr` | user/grep.c:21 | the next newline before the terminating NUL |
| `Grep.Reader.Lines` | user/grep.c:20-28 | the complete lines in the buffer are dealt with and a partial one is left |
| `Grep.Reader.MoveDown` | user/grep.c:29-32 | the partial line moves to the front of the buffer |
| `Grep.Reader.Grep` | user/grep.c:10-34 | the output is a function of pattern and input alone, whatever the sizes of the reads |
| `Schrage.Decomposed` | user/grind.c:28-35 | for every x in range the difference of the two small products, corrected once, is 16807 x modulo 2^31 - 1, and no intermediate leaves 32 bits |
| `Schrage.InverseOf` | user/grind.c:19-26 | 16807 and 1407677000 undo each other modulo 2^31 - 1 |
| `Schrage.StepUndone` | user/grind.c:16-40 | a step stays in [0, 0x7ffffffd] and can be taken back |
| `Schrage.UndoStepped` | user/grind.c:16-40 | every value of the range is a step of another |
| `Schrage.StepInjective` | user/grind.c:16-40 | the step is injective on the range |
| `Schrage.Random.DoRand` | user/grind.c:16-40 | for every 64-bit seed the result is 16807 ((ctx mod 0x7ffffffe) + 1) mod (2^31 - 1), minus 1, computed in a type whose values are within 2^31 - 1 of zero |

## Left out

- Assembly, boot, traps, device registers and the interrupt controller: hardware state.
- Spinlocks and sleep locks themselves, and memory ordering: mutual exclusion is assumed.
- exec, the system call argument code, path walking beyond one directory, console and UART.
- copyin, copyout and copyinstr of kernel/vm.c: their outcome is a parameter where they are used.
- proc_pagetable, growproc and the kernel page table of kernel/vm.c: callers of what is modelled.
- File descriptors and the open-file table of kernel/file.c: would only add easy members.
- mkfs: its layout enters as start states only.
- runcmd of user/sh.c: effects, not parsing.
- The on-disk copy of inodes (iupdate): inodes are fields.
- The table of in-memory inodes: every inode has a slot, so the search of iget and its panic are out.
- FsOps.FileSystem.Writei: a copyin that fails inside a piece is taken to have copied nothing of it.
- LinkOps.Itable.Create: device numbers, and the branch for an existing name after the lookup, are not modelled; the inode found is returned.
- LinkOps.Itable.Link: link counts are integers, not 16-bit numbers, and both paths lie on one device.
- PageTable.Memory.Mappages: permissions must include one of R, W and X, as every caller's do; addresses and sizes are numbers without 64-bit wrap-around.
- PageTable.Memory.Uvmalloc: sizes are numbers without 64-bit wrap-around.
- PageTable.Memory.Uvmfree: asks that mapped pages below sz are backed and that nothing is mapped above, as the caller proc_freepagetable arranges; so the panic of freewalk is out.
- VirtioDisk.Disk.Intr: the device adds no entry while it runs; the machine covers those interleavings.
- VirtioSafety.InvOverRuns: the device is taken to answer with status 0.
- Umalloc.Allocator.Malloc: a request that no free block fits is at most 2^31 - 32 bytes in a process that ends below 2^31; beyond that HeapModel.RequestExact says that the heap is lost. Base and all earlier blocks lie below the end of memory.
- Grep.Reader.Grep: the input is free of NUL bytes.
