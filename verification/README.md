# xv6 in Dafny

A model of the parts of xv6 for RISC-V whose correctness rests on invariants that no single function shows, with proofs
of these invariants. Code that updates state in place is modelled by classes and methods with loops. Each method is tied
to a function or a relation on states, and the properties are proved about those. Concurrency is modelled by step
machines: a run is any sequence of steps of any number of processes, and the theorems speak about every state of every
run.

| files | part of the system |
|---|---|
| `Common` | definitions that several parts share |
| `LogSpec`, `LogDevice`, `LogProtocol`, `LogLimits`, `SerialLog` | the redo log: commit, recovery, group commit, log space |
| `BlockMap`, `FileBytes`, `Truncate`, `Accounting`, `FileSteps`, `FileSystem` | block allocator, block maps, files as byte strings, and the blocks that each operation logs |
| `TightWrite`, `WriteCrash` | the transaction bound is reached; a chunked write through the log |
| `Mkfs`, `MkfsRoot` | the image that mkfs writes |
| `Ring`, `BufferCache` | the buffer cache and its list |
| `Directory`, `DirEntry`, `DirBytes`, `Links`, `LinkOps` | directories, path names, directories as bytes of a file, link counts |
| `FreeList`, `Heap` | the user level heap allocator |
| `PageTable`, `VmSpec`, `FreeTables`, `Vm` | page frames and Sv39 page tables |
| `PipeRing`, `PipeProtocol`, `PipeBytes` | pipes with sleep and wakeup, and the bytes that calls move |
| `VirtioRing`, `VirtioDisk` | the request ring of the disk driver |
| `Regex`, `Grep` | the matcher and the line loop of grep |
| `ShGrammar`, `ShText`, `ShNatural`, `ShLexer`, `Shell`, `NulTerminate` | the shell's parser |

## Where the code and its intent part

- `mkfs` makes a log area of LOGSIZE blocks, one too few. The check in `log_write` is made before the lock is taken, so
  two writers can pass it together, and the header can outgrow the area. No run does so if and only if the area has at
  least LOGSIZE + 1 blocks (`LogLimits.AreaNeverOverrunIff`). The theorems of `LogProtocol` hold for areas of any size
  up to the first state in which the list has outgrown the area.
- The guard of `log_write` does not ask whether the block is listed already. In an area of more than LOGSIZE blocks a
  step panics if and only if it logs a listed block while the list is full (`LogProtocol.RunPanicsIff`). Three operations
  within their budgets can reach it (`LogLimits.FullLogRejectsAbsorption`).
- `mkfs` gives the root directory one block too many if and only if its entries fill their blocks
  (`Mkfs.RootFitsIff`). Names that agree in their first 14 bytes make it no directory (`MkfsRoot.RootIsDirectoryIff`).
- A killed writer that finds the pipe full returns without waking a sleeping reader. A step loses a wakeup if and only if
  it is this one (`PipeProtocol.StepLosesWakeupIff`, with a run in `PipeProtocol.KilledWriterStrandsReader`).
- Shrinking a process unmaps a page that is still partly in use if and only if the new size is not a multiple of the page
  size (`Vm.PhysMem.UvmDealloc`).
- The comment on `uvmdealloc` allows an old size beyond the process. The code panics if and only if one of the pages in
  between is not mapped, and the model follows the code (`Vm.PhysMem.UvmDealloc`).
- The last byte of an empty range at 0 is the last of the address space. So `uvmfree` panics for size 0
  (`Vm.PhysMem.UvmFree`), and `uvmcopy` panics instead of failing if and only if memory does not suffice for its first
  page (`Vm.PhysMem.UvmCopy`).
- `grep` stops at the first line of more than 1022 bytes and reports nothing. It loses no line of any pattern if and only
  if there is no such line (`Grep.NoLineLostIff`, with an input in `Grep.MatchIsNotPrinted`).
- `create` and `link` do not ask whether the parent directory was removed meanwhile. A step keeps the tree and its link
  counts right if and only if it adds no name to a removed directory (`Links.StepKeepsIff`; for the counts alone
  `Links.CreateFileCountedIff`, `Links.CreateDirCountedIff` and `Links.LinkCountedIff`). A run reaches such a directory
  (`Links.RemovedTreeReached`), and three calls in it leave wrong counts (`Links.RemovedTreeBreaks`).

## What is assumed

- Log: one block write is atomic, and a crash falls between writes. An operation logs every block it modified before it
  ends, and lists at most ten new blocks; `WriteCrash` proves this of the chunks of `filewrite`. The reference counts of
  buffers during recovery are not modelled.
- Files: copies from and to user memory succeed. Running out of blocks, where the source panics, is a result. A bitmap is
  a sequence of bits, and a block is seen both as bytes and as block numbers.
- Chunked write through the log: one process writes at a time. How inodes, bits and data are laid out in blocks is a
  parameter, and the theorem holds for every layout.
- Heap: addresses count header units. What `sbrk` returns is a parameter and lies apart from all memory in use.
- Page tables: pages to be mapped are not mapped and lie below MAXVA, and mapped pages to be unmapped have frames of
  their own. A frame is a sequence of 512 words.
- Pipe: an end is closed once, when no call on it is running, because `fileclose` counts references.
- Disk ring: a submitter holds the lock of its buffer. The device fetches in ring order and completes in any order.
- Shell and grep: texts contain no NUL.
- Links: path lookup is a parameter and each system call is one step. The names "." and ".." are values of their own.
- mkfs: the image has room for its metadata, and there are at most as many files as inodes.

## Model

| member | source | states |
|---|---|---|
| LogSpec.InstallGives | kernel/log.c:69-82 | after installing, every listed home block holds its copy from the log |
| LogSpec.InstallKeeps | kernel/log.c:69-82 | installing changes no block that is not listed |
| LogSpec.InstallAbsorbs | kernel/log.c:69-82 | installing again over any partly installed disk gives the same result |
| LogSpec.RecoverAfterPartialInstall | kernel/log.c:115-122 | recovery from a disk on which recovery had stopped half way gives what it would have given |
| LogSpec.RecoverOfClear | kernel/log.c:115-122 | recovery with an empty header leaves the home blocks alone |
| LogSpec.CrashInWriteLog | kernel/log.c:178-190 | a crash while the log is written recovers to the old home blocks |
| LogSpec.HeadWriteCommits | kernel/log.c:102-113 | once the log is written, the header write reaches the start of installing and leaves cached and stored home blocks as they were; with CrashInWriteLog and CrashInInstall it is the commit point |
| LogSpec.CrashInInstall | kernel/log.c:69-82 | a crash at any point of installing recovers to the new home blocks |
| LogSpec.EraseEnds | kernel/log.c:199-200 | after the header is erased the home blocks are the new ones and nothing is left to install |
| LogDevice.Log.BWrite | kernel/bio.c:105-110 | one block reaches the disk, and the disk states are recorded in order |
| LogDevice.Log.BeginOp | kernel/log.c:126-141 | an operation is admitted exactly if no commit runs and its reservation fits |
| LogDevice.Log.LogWrite | kernel/log.c:214-235 | refused exactly if a guard fails; else the block is listed once and pinned if it is new |
| LogDevice.Log.EndOp | kernel/log.c:146-163 | the last operation and no other starts a commit |
| LogDevice.Log.WriteLog | kernel/log.c:178-190 | all listed blocks are in the log; every disk on the way recovers to the old state |
| LogDevice.Log.PutHeader | kernel/log.c:102-113 | the header on disk lists exactly the logged blocks |
| LogDevice.Log.EraseHeader | kernel/log.c:199-200 | the header on disk is empty |
| LogDevice.Log.InstallTrans | kernel/log.c:69-82 | all home blocks are written and unpinned; every disk on the way recovers to the new state |
| LogDevice.Log.CommitLogged | kernel/log.c:197-200 | from the header write on, every disk recovers to the new state |
| LogDevice.Log.Commit | kernel/log.c:193-202 | crash points split into those that lose the whole transaction and those that keep all of it; the split is at the header write |
| LogDevice.Log.ReadHead | kernel/log.c:86-96 | the in-memory header equals the one on disk |
| LogDevice.Log.Reinstall | kernel/log.c:116-119 | recovery's install writes what the header lists; every disk on the way is a crash point of recovery |
| LogDevice.Log.RecoverFromLog | kernel/log.c:116-122 | the disk is the recovered one, and so is what a crash at any point leads to |
| LogDevice.CrashPointRecoversAlike | kernel/log.c:115-122 | recovery from any crash point of recovery gives the same home blocks |
| LogDevice.RepeatedCrashes | kernel/log.c:115-122 | so do any number of crashes inside recovery |
| LogDevice.EmptyCommit | kernel/log.c:195-201 | with nothing logged, cached and stored home blocks agree |
| LogProtocol.GuardHolds | kernel/log.c:219-222 | in a log area of more than LOGSIZE blocks, the guards pass while an open operation has logged fewer than ten new blocks |
| LogProtocol.EvictIsNoOp | kernel/log.c:229-233 | pinning suffices: a block that may leave the cache equals its disk copy |
| LogProtocol.InvStep | kernel/log.c:126-235 | every step of every process, of the committer, of a crash and of recovery keeps the invariant, panics of log_write included, as long as the list fits the log area |
| LogProtocol.RunInvariant | kernel/log.c:126-235 | the invariant holds in every state of every run, as long as the list fits the log area |
| LogProtocol.CrashSafety | kernel/log.c:115-202 | in every state of every run, recovery would give the result of exactly the committed transactions, as long as the list fits the log area |
| LogProtocol.Durability | kernel/log.c:146-202 | committed transactions stay committed, acknowledged ones stay acknowledged, and there are never more acknowledged than committed, as long as the list fits the log area |
| LogProtocol.EndedOpsCommit | kernel/log.c:146-202 | when a commit finishes, all committed transactions are acknowledged, and every operation that ended since the last crash is in one of them |
| LogProtocol.OneTransactionPerOp | kernel/log.c:126-174 | all committed updates of one operation are in one transaction, as long as the list fits the log area |
| LogProtocol.LogSpace | kernel/log.c:126-141 | in a log area of more than LOGSIZE blocks the list fits the area and LOGSIZE in every state of every run, and its block numbers are distinct |
| LogProtocol.PanicStepIff | kernel/log.c:213-235 | in such an area a step panics if and only if it is a log_write of a listed block while the list is full |
| LogProtocol.RunPanicsIff | kernel/log.c:213-235 | the same for every step of every run: no other log_write and no end_op panics |
| LogProtocol.NoPanic | kernel/log.c:213-235 | a run without such a step never panics |
| LogProtocol.CommitIsExclusive | kernel/log.c:130-131 | blocks are modified and logged, and operations end, only while no commit runs, as long as the list fits the log area |
| LogProtocol.BeginWaitsForProgress | kernel/log.c:126-141 | if begin_op is not admitted, an operation is open or a commit or recovery step can be taken, unless the kernel has panicked, as long as the list fits the log area |
| LogProtocol.RecoveryCompletes | kernel/log.c:116-122 | when recovery ends, the file system shows exactly the committed transactions, as long as the list fits the log area |
| LogLimits.RaceForLastSlot | kernel/log.c:219-232 | in an area of at most LOGSIZE blocks, two writers that pass the unlocked check together make the header as long as the area |
| LogLimits.AreaNeverOverrunIff | mkfs/mkfs.c:25 | no run overruns the log area if and only if it has at least LOGSIZE + 1 blocks |
| LogLimits.FullLogRejectsAbsorption | kernel/log.c:219-228 | in every area of more than LOGSIZE blocks there is a run of three operations, none of which lists more than ten blocks, that ends with a panic over a block that is listed already |
| SerialLog.BudgetHolds | kernel/log.c:213-235 | an operation that touches at most ten blocks may log each of them at any time, absorbed writes included |
| SerialLog.MayLogOwn | kernel/log.c:213-235 | so in a run of one writer every block that a planned operation modified can be logged |
| SerialLog.UpdatesMade | kernel/log.c:146-174 | when an operation ends, its updates lead from the disk before it to the disk after it |
| SerialLog.RecoversPrefix | kernel/log.c:115-202 | one writer, one operation after the other: in every state a crash recovers to the disk after exactly the committed ones, and these include the acknowledged ones |
| SerialLog.WriterNeverPanics | kernel/log.c:213-235 | with one writer the list fits and log_write never panics in an area of at least twelve blocks, such as the one mkfs makes |
| FreeList.InsertWellFormed | user/umalloc.c:33-42 | merging a block into the ordered list keeps it ordered with no two blocks adjacent |
| FreeList.InsertCovers | user/umalloc.c:33-42 | the list then covers exactly what it covered and the block |
| FreeList.TakeWellFormed | user/umalloc.c:75-83 | taking a block or its tail keeps the list ordered |
| FreeList.TakeCovers | user/umalloc.c:75-83 | the list loses exactly the units handed out |
| Heap.UnitsSuffice | user/umalloc.c:69 | the units cover the bytes and waste less than a header |
| Heap.FreeHeadersLinked | user/umalloc.c:33-42 | the pointer and size stores of free make the headers link the merged list |
| Heap.StopsAtPosition | user/umalloc.c:30-32 | the search of free stops at the one right place, the wrap point included |
| Heap.FreePartition | user/umalloc.c:24-44 | a freed block moves from live to free and every unit of core stays in exactly one of them |
| Heap.GrowPartition | user/umalloc.c:46-61 | new core is added to the free part |
| Heap.TakePartition | user/umalloc.c:75-84 | a block handed out moves from free to live |
| Heap.ScanEnd | user/umalloc.c:86 | back at the start of the scan, no block fits |
| Heap.ScanFound | user/umalloc.c:74-77 | the block before the one found is its predecessor in the list |
| Heap.Allocator.constructor | user/umalloc.c:21-22 | an allocator without core |
| Heap.Allocator.Start | user/umalloc.c:70-73 | afterwards there is a list, and an existing one is kept |
| Heap.Allocator.Search | user/umalloc.c:30-32 | the search loop ends and finds the place for the block |
| Heap.Allocator.StoreHeaders | user/umalloc.c:33-42 | the stores, in their order, have the effect that FreeHeadersLinked is about |
| Heap.Allocator.Release | user/umalloc.c:24-44 | the list is the one with the block merged in, and freep is its neighbour |
| Heap.Allocator.Free | user/umalloc.c:24-44 | exactly this block is no longer live, and the heap stays valid |
| Heap.Allocator.AddRegion | user/umalloc.c:57-60 | new core joins the list, which then has a block that fits |
| Heap.Allocator.MoreCore | user/umalloc.c:46-61 | the larger of the request and 4096 units is added, or nothing changes |
| Heap.Allocator.CutOut | user/umalloc.c:75-83 | an exact block is unlinked, a larger one gives its end |
| Heap.Allocator.TakeFrom | user/umalloc.c:75-84 | a new live block at a new address |
| Heap.Allocator.FindNext | user/umalloc.c:74-86 | the search starts behind freep and ends at the first block that is large enough, or back at freep |
| Heap.Allocator.FindFit | user/umalloc.c:74-86 | one round over the list finds a block that fits if there is one |
| Heap.Allocator.Malloc | user/umalloc.c:64-90 | a new live block of the right size, disjoint from all others; none only if nothing fits and there is no more core |
| BlockMap.BlockHasOneRole | kernel/fs.c:65-104 | every block is exactly one of metadata, free, or named by one slot of one inode |
| BlockMap.MapRenames | kernel/fs.c:378-406 | mapping a fresh block changes exactly one slot |
| BlockMap.MapKeepsOwned | kernel/fs.c:378-406 | mapping keeps ownership unique |
| BlockMap.UnmapRenames | kernel/fs.c:414-437 | clearing a slot changes no other |
| BlockMap.UnmapKeepsOwned | kernel/fs.c:414-437 | freeing the block of a cleared slot keeps ownership unique, and the block was in use |
| FileBytes.FileIsUnique | kernel/fs.c:376-406 | the blocks of an inode hold one byte string only |
| FileBytes.SpliceTwice | kernel/fs.c:497-506 | two writes in a row are one write |
| FileBytes.WriteRoundSplices | kernel/fs.c:497-506 | one round of writei splices its chunk into the file |
| FileBytes.WriteRoundSpares | kernel/fs.c:497-506 | and leaves every other file alone |
| Truncate.ClearedMore | kernel/fs.c:420-425 | freeing one more slot of the inode frees its block and nothing else |
| Truncate.StaleWords | kernel/fs.c:427-436 | the old contents of a freed indirect block name nothing |
| Truncate.ClearIndirect | kernel/fs.c:427-437 | after its entries the indirect block itself is freed |
| Truncate.EntryStep | kernel/fs.c:430-433 | one entry of the indirect block is freed, and was in use |
| Truncate.TruncateFrees | kernel/fs.c:414-441 | a block is in use afterwards exactly if it was and did not belong to the inode |
| Truncate.TruncatedFile | kernel/fs.c:414-441 | the file is empty and every other file unchanged |
| Accounting.TookUnique | kernel/fs.c:66-87 | balloc is deterministic: the blocks allocated depend on their number only |
| Accounting.OneFreed | kernel/fs.c:91-104 | freeing one more block logs its bitmap block and no other |
| Accounting.SpreadIff | kernel/fs.c:66-87 | four allocations touch four bitmap blocks if and only if the four lowest free blocks lie under four of them |
| Accounting.MissingIs | kernel/fs.c:379-406 | how many blocks bmap allocates, from the number of blocks mapped |
| Accounting.AccountMore | kernel/fs.c:497-506 | a round of writei adds its data block, the bitmap blocks of what it allocates, and the indirect block if it changes it |
| Accounting.LogSize | kernel/fs.c:486-513 | the data, bitmap, indirect and inode blocks of a write are distinct, so their number is the sum |
| Accounting.ChunkCost | kernel/file.c:145-151 | a chunk logs at most ten blocks; exactly ten if and only if it starts inside the last block of the file, touches four blocks, makes the file outgrow its direct blocks, and its four allocations touch four bitmap blocks |
| FileSteps.WriteEnds | kernel/fs.c:497-513 | after writei the file is spliced, the others are as before, and the inode on disk is the cached one |
| FileSteps.CostOfWrite | kernel/fs.c:486-513 | exactly which blocks a write logs, and how many: none of them in the log area or before it |
| FileSteps.MapsOfInode | kernel/fs.c:414-441 | the bitmap blocks of what itrunc frees are those of the blocks that belonged to the inode |
| FileSteps.TruncateCovered | kernel/fs.c:414-441 | every block of the disk that itrunc changes is one that it logs |
| FileSystem.FileSystem.constructor | kernel/fs.c:41-48 | a mounted disk with a consistent file system |
| FileSystem.FileSystem.FindClear | kernel/fs.c:72-85 | the lowest block whose bit is clear, or none |
| FileSystem.FileSystem.Balloc | kernel/fs.c:66-87 | the lowest free block is marked and filled with zeros; exactly it and its bitmap block are logged; fails only if all are in use |
| FileSystem.FileSystem.Bfree | kernel/fs.c:91-104 | the bit is cleared and its bitmap block logged, refused exactly if it was clear |
| FileSystem.FileSystem.MapSlot | kernel/fs.c:384-400 | an empty slot gets the lowest free block and becomes its only name; exactly the blocks that change are logged |
| FileSystem.FileSystem.Lookup | kernel/fs.c:384-397 | the block of a file block number through direct and indirect slots |
| FileSystem.FileSystem.MapBlock | kernel/fs.c:384-402 | maps one block, allocating only if the slot is empty |
| FileSystem.FileSystem.Bmap | kernel/fs.c:379-406 | the file is extended by the missing blocks, with exactly their blocks logged, and a mapped block costs nothing; fails only out of range or for want of blocks |
| FileSystem.FileSystem.ReadRound | kernel/fs.c:470-478 | one block's worth of the file, without allocating |
| FileSystem.FileSystem.Readi | kernel/fs.c:460-480 | the slice of the byte string, or -1 exactly beyond the end or on overflow; nothing changes |
| FileSystem.FileSystem.MapAndPoke | kernel/fs.c:498-504 | the chunk is in its block and the block is logged |
| FileSystem.FileSystem.WriteRounds | kernel/fs.c:497-506 | all rounds together write the source, log exactly what they change, and fail only for want of blocks |
| FileSystem.FileSystem.Grow | kernel/fs.c:508-511 | the size grows, cached and on disk |
| FileSystem.FileSystem.WriteAt | kernel/fs.c:497-511 | fails exactly if there are fewer free blocks than the write needs; else the file is spliced, the lowest free blocks are taken, the number of logged blocks is exact, and no block outside the log set changes |
| FileSystem.FileSystem.Writei | kernel/fs.c:487-513 | the byte string is spliced, -1 exactly in the three refused cases, no room exactly if the free blocks do not suffice; the blocks it logs are counted exactly |
| FileSystem.FileSystem.WriteChunk | kernel/file.c:153-163 | one chunk is one operation that logs at most ten blocks, and ten exactly for a tight chunk on a disk whose four lowest free blocks lie under four bitmap blocks |
| FileSystem.FileSystem.FileWrite | kernel/file.c:145-171 | the file after a chunked write, the offset and the result; every disk between two chunks is consistent with a prefix of the chunks written, and differs from the next in at most ten logged blocks |
| FileSystem.FileSystem.ClearDirects | kernel/fs.c:420-425 | all direct blocks of the inode are freed, with exactly their bitmap blocks logged |
| FileSystem.FileSystem.ClearEntries | kernel/fs.c:430-433 | all blocks the indirect block names are freed, with exactly their bitmap blocks logged |
| FileSystem.FileSystem.DropIndirect | kernel/fs.c:434-436 | the indirect block is freed and its bitmap block logged |
| FileSystem.FileSystem.Itrunc | kernel/fs.c:414-441 | exactly the inode's blocks are freed, the panic is not reached, the file is empty and the others unchanged; exactly the bitmap blocks of these blocks and the inode's block are logged, and no other block of the disk changes |
| TightWrite.ImageConsistent | kernel/fs.c:66-104 | a disk of four bitmap blocks, with one free block under each of them, is a consistent file system |
| TightWrite.WriteTight | kernel/file.c:145-163 | on that disk one chunk of filewrite logs ten blocks, so the bound is reached |
| WriteCrash.BlockKept | kernel/fs.c:486-513 | a transaction changes the contents of the blocks it logs and of no others, however blocks are encoded |
| WriteCrash.ChunksArePlan | kernel/file.c:145-171 | the chunks of a write are operations of at most ten blocks outside the log area |
| WriteCrash.WriteSurvivesCrash | kernel/file.c:145-171 | a crash at any point of a chunked write recovers to a consistent file system whose file is the old one with a prefix of the chunks spliced in and whose other files are unchanged; the prefix has every chunk whose end_op returned; the log never panics |
| Mkfs.Image.constructor | mkfs/mkfs.c:93-112 | the image of zeros with the layout that mkfs computes is consistent |
| Mkfs.Image.Ialloc | mkfs/mkfs.c:231-243 | the next inode, empty |
| Mkfs.Image.TakeSlot | mkfs/mkfs.c:279-293 | a slot gets the block at freeblock and is its only name |
| Mkfs.Image.MapNext | mkfs/mkfs.c:279-294 | the block of a file block number, found or taken in order through direct and indirect slots; fails only if the image is full |
| Mkfs.Image.AppendRounds | mkfs/mkfs.c:276-302 | the loop of iappend succeeds exactly if the image has the blocks it needs |
| Mkfs.Image.Iappend | mkfs/mkfs.c:263-305 | the bytes are appended, every block below freeblock stays named once and none above it is named; fails exactly if the file would be too large or the image too small |
| Mkfs.Image.CopyFile | mkfs/mkfs.c:160-161 | the file has the contents, copied block by block; fails exactly if they do not fit |
| Mkfs.Image.AddFile | mkfs/mkfs.c:152-163 | a new inode with the contents and an entry for it at the end of the root directory; fails exactly if they do not fit |
| Mkfs.Image.Balloc | mkfs/mkfs.c:245-259 | the bitmap has exactly the first bits set; fails exactly if they need a second block |
| Mkfs.RootFitsIff | mkfs/mkfs.c:166-171 | with the size that mkfs gives to the root directory the image is a file system if and only if the entries do not fill their blocks |
| Mkfs.Image.Finish | mkfs/mkfs.c:166-173 | the image mounts as a consistent file system with the appended files, the root padded with zeros and the bitmap up to freeblock, exactly if the bitmap fits one block and the entries do not fill the blocks of the root |
| Mkfs.Make | mkfs/mkfs.c:93-176 | a consistent file system with the given files, exactly if everything fits and the entries do not fill the blocks of the root |
| MkfsRoot.RootIsDirectoryIff | mkfs/mkfs.c:118-158 | the kernel reads the root of the image as a directory if and only if the names differ in their first 14 bytes; it then has ".", ".." and the given names, each with the inode of its file, and no others |
| Ring.Unlink | kernel/bio.c:126-127 | taking a buffer out of the doubly linked list |
| Ring.Push | kernel/bio.c:128-131 | putting it in at the front |
| BufferCache.LinkAll | kernel/bio.c:43-51 | the list links all buffers, the last one first |
| BufferCache.Recycle | kernel/bio.c:75-81 | reusing a buffer keeps keys unique and cache and disk in agreement |
| BufferCache.HitKept | kernel/bio.c:65-67 | a hit keeps keys unique |
| BufferCache.FrontUnique | kernel/bio.c:124-132 | moving to the front keeps the list a permutation with unique keys |
| BufferCache.FrontStamped | kernel/bio.c:124-132 | the list stays ordered by last release |
| BufferCache.ModifyAgrees | kernel/bio.c:91-101 | changing a referenced buffer changes exactly its block of the map |
| BufferCache.Cache.constructor | kernel/bio.c:36-52 | an empty cache shows the disk |
| BufferCache.Cache.FindKey | kernel/bio.c:65-72 | the first buffer with the key, or none has it |
| BufferCache.Cache.FindUnreferenced | kernel/bio.c:75-85 | the least recently released buffer without references, or all are referenced |
| BufferCache.Cache.Bget | kernel/bio.c:58-87 | a hit is referenced once more; a miss takes a buffer without references; fails only if there is none |
| BufferCache.Cache.Bread | kernel/bio.c:91-101 | the buffer shows the contents of its block, and no other buffer changes |
| BufferCache.Cache.Modify | kernel/bio.c:91-101 | writing into a held buffer changes the map at its key |
| BufferCache.Cache.Bwrite | kernel/bio.c:105-110 | the disk block equals the map |
| BufferCache.Cache.Bpin | kernel/bio.c:138-142 | one reference more |
| BufferCache.Cache.Bunpin | kernel/bio.c:145-149 | one reference less; cache and disk still agree if and only if another reference is left or the buffer is clean |
| BufferCache.Cache.Brelse | kernel/bio.c:115-135 | one reference less; the last release moves the buffer to the front; cache and disk still agree if and only if another reference is left or the buffer is clean |
| Directory.EntriesAre | kernel/fs.c:526-549 | the map of a directory holds exactly its slots in use |
| Directory.SetAdds | kernel/fs.c:573-576 | writing a free slot adds one name to the map |
| Directory.ClearRemoves | kernel/sysfile.c:218-220 | clearing a slot removes one name |
| Directory.DirLookup | kernel/fs.c:526-549 | the entry for the first 14 bytes of the name, or none has it |
| Directory.DirFile.DirLink | kernel/fs.c:553-579 | refused exactly if the name is taken, a panic exactly if there is no slot and no room to grow, and then nothing changes; else the map gains the name; names stay unique |
| Directory.DirFile.DirUnlink | kernel/sysfile.c:207-220 | the map loses the name |
| Directory.ElemsOfJoin | kernel/fs.c:583-618 | the elements of a path made of names are these names |
| Directory.ElemsExactly | kernel/fs.c:583-618 | the elements of a path are these names if and only if the path consists of them with slashes between, and maybe before and behind them |
| Directory.SkipElem | kernel/fs.c:596-618 | the first element, cut to 14 bytes, and a rest that is empty exactly if it was the last |
| Directory.NameX | kernel/fs.c:625-657 | from the root for an absolute path and from the current directory for any other, the inode that folding lookup over the elements gives, or the parent of the last; one reference more on success and none on failure |
| Directory.AbsoluteWalksAgree | kernel/fs.c:629-632 | two walks of an absolute path find the same inode, whatever the current directories are |
| DirEntry.EntryRoundTrip | kernel/fs.h:54-59 | the 16 bytes written for an entry read back as the entry |
| DirEntry.EntryWritten | kernel/fs.c:573-576 | writing them at the place of an entry sets that entry and no other |
| DirBytes.Lookup | kernel/fs.c:526-549 | on the bytes of a file, read with readi: the entry for the first 14 bytes of the name, or none has it |
| DirBytes.Link | kernel/fs.c:553-579 | on the disk: refused exactly if the name is taken, a panic exactly if the entry cannot be written; else the directory gains the name and no other file changes |
| DirBytes.Unlink | kernel/sysfile.c:207-220 | on the disk: the directory loses the name, no other file changes, and the panic is not reached |
| Links.CreateKeeps | kernel/sysfile.c:242-283 | create in a linked directory keeps all link counts right |
| Links.CreateFileCountedIff | kernel/sysfile.c:242-283 | creating a file or a device leaves link counts right if and only if the parent is itself linked |
| Links.CreateDirCountedIff | kernel/sysfile.c:242-283 | creating a directory does if and only if the parent is linked or no old entry of it names an inode that exists |
| Links.LinkCountedIff | kernel/sysfile.c:141-157 | link does if and only if the parent of the new name is linked |
| Links.RevivedHasNoName | kernel/sysfile.c:242-283 | a removed directory that a new one links again has no name, so the tree is broken in any case |
| Links.LinkKeeps | kernel/sysfile.c:141-157 | link into a linked directory keeps all link counts right |
| Links.UnlinkFits | kernel/sysfile.c:211-216 | what is unlinked has a link; an empty directory has exactly one, from its parent |
| Links.UnlinkKeeps | kernel/sysfile.c:211-229 | unlink keeps all link counts right |
| Links.ReclaimKeeps | kernel/fs.c:338-355 | an inode that iput frees is named by no entry of a linked directory |
| Links.StepKeeps | kernel/sysfile.c:118-283 | create, link and unlink that add no name to a removed directory, and freeing, keep the invariant |
| Links.StepKeepsIff | kernel/sysfile.c:118-283 | a step that the source allows keeps the tree and its counts right if and only if it adds no name to a removed directory |
| Links.RunBreaksIff | kernel/sysfile.c:118-283 | in every run the first such step, and no step before it, breaks them |
| Links.LinkCounts | kernel/sysfile.c:118-283 | after every sequence of operations that adds no name to a removed directory, nlink is the number of entries other than "." that name the inode from linked directories |
| Links.UnlinkFindsLink | kernel/sysfile.c:211-212 | in such a run the panic for an inode without links is never reached |
| Links.RemovedTreeReached | kernel/sysfile.c:185-239 | a run that removes a directory while it is still referenced |
| Links.RemovedTreeBreaks | kernel/sysfile.c:120-283 | create of a file, create of a directory and link in that directory are allowed, and each leaves a wrong count |
| LinkOps.Tree.DirLink | kernel/fs.c:553-579 | adds the entry, or refuses a name that is taken |
| LinkOps.Tree.SysLink | kernel/sysfile.c:120-166 | succeeds exactly for a file and a free name, and then adds exactly this entry and one link; a failed call leaves everything as it was; the tree stays right unless the call succeeds in a removed directory, and then it is broken |
| LinkOps.Tree.IsDirEmpty | kernel/sysfile.c:170-182 | true exactly if there are no names but "." and ".." |
| LinkOps.Tree.SysUnlink | kernel/sysfile.c:185-239 | succeeds exactly for an ordinary name of a file or of a directory with no names but "." and ".."; it drops exactly this entry, one link, and for a directory the link of its ".."; a refused call changes nothing; the tree stays right |
| LinkOps.Tree.Create | kernel/sysfile.c:242-283 | for a free name the new inode, with its kind, one link and the entries of its kind, and nothing else changed; for a taken name the existing inode exactly if a file is asked for and it is a file or a device, else none; the tree stays right unless an inode is made in a removed directory, and then it is broken |
| LinkOps.Tree.Iput | kernel/fs.c:334-359 | the last reference frees an inode without links |
| PageTable.EncodeDecodes | kernel/riscv.h:337-342 | frame and flags of an entry are recovered from its word |
| PageTable.EntryFormat | kernel/riscv.h:337-342 | the frame number is what stands above the ten low bits of an entry, and the flags are the lowest five |
| PageTable.IndicesOf | kernel/riscv.h:344-347 | the indices of the three levels are the three groups of nine bits of the page number |
| PageTable.TranslationIsTheMap | kernel/vm.c:76-94 | walking the three levels in memory gives exactly what the flat map of pages says |
| PageTable.LinkKeeps | kernel/vm.c:86-91 | linking a zeroed table keeps the tree a tree and the map of pages unchanged |
| PageTable.MapKeeps | kernel/vm.c:163 | writing an entry adds one page |
| PageTable.UnmapKeeps | kernel/vm.c:197 | clearing an entry removes one page |
| VmSpec.FramesPartition | kernel/kalloc.c:43-83 | every managed frame is free or in one use; tables and owned pages share no frame |
| VmSpec.AllocKeeps | kernel/kalloc.c:69-83 | taking a frame keeps the partition |
| VmSpec.FreeKeeps | kernel/kalloc.c:47-64 | giving one back keeps it |
| VmSpec.WalkedKeeps | kernel/vm.c:76-94 | walk with allocation leaves the map of pages alone and only adds tables of this space |
| VmSpec.WalkSucceedsIff | kernel/vm.c:82-93 | it succeeds if and only if there are frames for the missing tables, and takes exactly those |
| VmSpec.MappedKeeps | kernel/vm.c:158-163 | one round of mappages adds exactly one page, or none |
| VmSpec.MapRangeAt | kernel/vm.c:150-170 | a mapped range changes exactly its pages |
| VmSpec.UnmappedKeeps | kernel/vm.c:184-202 | one round of uvmunmap removes exactly one page and frees its frame |
| VmSpec.GrewThenDropped | kernel/vm.c:246-258 | undoing a growth restores the map and leaves only tables behind |
| FreeTables.SubtreeStays | kernel/vm.c:281-291 | freeing one subtree leaves its siblings intact |
| FreeTables.ChildFreed | kernel/vm.c:283-287 | freeing one child and clearing its entry completes one round of the loop |
| FreeTables.RootFreed | kernel/vm.c:277-293 | from the root, all tables of the space go and all others stay |
| FreeTables.NothingLeft | kernel/vm.c:297-302 | its pages and then its tables are all that an address space owns |
| Vm.ShrinkKeepsPagesIff | kernel/vm.c:266-273 | the state that shrinking leaves has every mapped page with bytes below the new size if and only if that size is aligned |
| Vm.PhysMem.constructor | kernel/kalloc.c:26-41 | exactly the whole frames of the range are managed, and all are free |
| Vm.PhysMem.KAlloc | kernel/kalloc.c:69-83 | the first free frame, filled with junk, or none exactly if the list is empty |
| Vm.PhysMem.KFree | kernel/kalloc.c:47-64 | the frame is first in the list, filled with junk |
| Vm.PhysMem.WalkLevel | kernel/vm.c:82-92 | the next table, found or allocated; none only if memory is out |
| Vm.PhysMem.Walk | kernel/vm.c:76-94 | the table with the entry; with allocation the state is the one WalkSucceedsIff is about, without it nothing changes |
| Vm.PhysMem.WalkAddr | kernel/vm.c:99-114 | the frame of a mapped user page and nothing else |
| Vm.PhysMem.MapOne | kernel/vm.c:158-163 | one page is mapped if and only if there are frames for the missing tables |
| Vm.PhysMem.MapPages | kernel/vm.c:150-170 | exactly the pages that hold a byte of the range are mapped, to consecutive frames; on failure a prefix of them and memory is out |
| Vm.PhysMem.UvmUnmap | kernel/vm.c:175-203 | succeeds exactly if all pages from the first to the last touched one are mapped; the pages before the first that is not are unmapped and each gives a frame back; the last byte is computed in 64 bits |
| Vm.PhysMem.UvmCreate | kernel/vm.c:206-215 | a new space without pages, and nothing else changes |
| Vm.PhysMem.UvmAlloc | kernel/vm.c:235-260 | pages of zeros on new frames; fails exactly if the free frames do not suffice, and then the map is as it was and only tables may remain |
| Vm.PhysMem.UvmDealloc | kernel/vm.c:266-273 | succeeds exactly if the pages that the dropped bytes touch are mapped, and unmaps them; all pages with bytes below the new size are kept if and only if that size is aligned |
| Vm.PhysMem.FreeWalk | kernel/vm.c:277-293 | exactly the tables at and below this one are freed, and the panic for a leaf is not reached |
| Vm.PhysMem.UvmFree | kernel/vm.c:297-302 | succeeds exactly if the size is not 0 and all its pages are mapped; nothing of the space is left and everything else is as it was |
| Vm.PhysMem.UvmCopy | kernel/vm.c:310-338 | a byte-equal copy with equal flags on frames of its own; succeeds exactly if the frames suffice; panics, in unmapping the empty range, exactly if they do not suffice for the first page |
| PipeRing.Tests | kernel/pipe.c:85 | the wrapped counters tell empty and full from every other state |
| PipeRing.PutHolds | kernel/pipe.c:95 | a byte put in is stored last, across the wrap at 2^32 |
| PipeRing.DropHolds | kernel/pipe.c:117-120 | a byte taken out is the oldest |
| PipeProtocol.StepKeepsInv | kernel/pipe.c:58-127 | every step of every process keeps the invariant, except the early return of a killed writer while a reader sleeps |
| PipeProtocol.StepLosesWakeupIff | kernel/pipe.c:85-92 | a step loses a wakeup if and only if it is that early return |
| PipeProtocol.Fifo | kernel/pipe.c:76-127 | in every run the bytes taken are a prefix of the bytes put in |
| PipeBytes.WriterPutsSource | kernel/pipe.c:84-95 | in every run the bytes that the steps of a write call put in are, in order, exactly the first of its source |
| PipeBytes.StoredIsSource | kernel/pipe.c:84-95 | while no other process writes, the pipe receives exactly these |
| PipeBytes.ReadersGetSource | kernel/pipe.c:76-127 | what one writer puts into an unused pipe comes out byte for byte and in order, whoever reads it |
| PipeBytes.ReaderTakesCount | kernel/pipe.c:115-123 | the steps of a read call take out exactly as many bytes as it counts |
| PipeBytes.ReaderGetsNext | kernel/pipe.c:115-123 | while no other process reads, these are the next bytes of what was put in |
| PipeBytes.CallsEnd | kernel/pipe.c:76-127 | in every run a write returns only with everything put in, or at a full pipe that nobody will read or when it was killed; a read with all it asked for or at an empty pipe, and with nothing only at the end of the file or when it was killed; a close with its end closed |
| PipeProtocol.NoWakeupIsLost | kernel/proc.c:519-564 | in a run in which no killed writer has returned early past a sleeping reader, while the lock is free a process sleeps only for its reason, and no reader and writer sleep for each other |
| PipeProtocol.NoKillNoSkip | kernel/pipe.c:86 | without kill no writer returns early past a sleeping reader |
| PipeProtocol.HolderProgress | kernel/proc.c:553-564 | the holder of the pipe lock can always go on, at worst after a process on its way to sleep |
| PipeProtocol.KilledWriterStrandsReader | kernel/pipe.c:85-89 | a run that ends with the lock free and a reader asleep beside a full pipe |
| VirtioRing.NoThreeChains | kernel/virtio_disk.c:166-178 | three different chains of three descriptors do not fit |
| VirtioRing.RingsHoldTwo | kernel/virtio_disk.c:246-277 | each ring holds at most two entries, so the tests on wrapped counters are exact |
| VirtioRing.StepKeeps | kernel/virtio_disk.c:180-281 | every step of threads, handler and device keeps the invariant |
| VirtioRing.DescriptorsPartition | kernel/virtio_disk.c:127-178 | in every run each descriptor is free or a link of exactly one chain |
| VirtioRing.CompletionsAreServedOnce | kernel/virtio_disk.c:268-278 | no request completes twice, and each completion leads to the buffer that was submitted with it |
| VirtioRing.DeviceFindsRequest | kernel/virtio_disk.c:201-243 | from submission to its end, a device that follows the chain finds exactly the request: sector, direction, buffer and status, each readable or writable as the direction demands |
| VirtioRing.FinishedWasCompleted | kernel/virtio_disk.c:252-258 | a thread goes on only after the device completed its own request |
| VirtioRing.WaitsForTwo | kernel/virtio_disk.c:193-198 | a thread without descriptors waits for two requests in flight |
| VirtioRing.StatusStaysGood | kernel/virtio_disk.c:271-272 | while the device reports success, the status panic is not reached |
| VirtioDisk.Disk.constructor | kernel/virtio_disk.c:109-123 | all descriptors are free |
| VirtioDisk.Disk.AllocDesc | kernel/virtio_disk.c:128-138 | the lowest free descriptor, or none is free |
| VirtioDisk.Disk.FreeDesc | kernel/virtio_disk.c:141-151 | exactly one descriptor that was in use is free again |
| VirtioDisk.Disk.FreeChain | kernel/virtio_disk.c:154-164 | follows the links and frees exactly the three descriptors, none of which was free |
| VirtioDisk.Disk.Alloc3Desc | kernel/virtio_disk.c:166-178 | three distinct free descriptors; or the free marks are as before, fewer than three were free, and no descriptor in use changed |
| VirtioDisk.Disk.Start | kernel/virtio_disk.c:191-250 | a submission step for the two sectors of the block; or no descriptor in use changed and two requests are in flight |
| VirtioDisk.SubmitIsRequest | kernel/virtio_disk.c:201-243 | after a submission the device finds the request in its chain, and its buffer is busy |
| VirtioDisk.Disk.End | kernel/virtio_disk.c:252-258 | the finishing step; the panics of free_desc are not reached |
| VirtioDisk.Disk.Intr | kernel/virtio_disk.c:263-281 | the completions that waited are handled in order up to the first with a bad status, where it panics; a buffer is released exactly if its completion was handled |
| Regex.StarLanguage | user/grep.c:97-104 | the language of a starred character is the words of characters it accepts |
| Regex.MatchHere | user/grep.c:83-94 | true exactly if a prefix of the text is in the language of the pattern, all of it after a final $ |
| Regex.MatchStar | user/grep.c:97-104 | true exactly if the rest matches after some run of accepted characters |
| Regex.Match | user/grep.c:70-80 | true exactly if some substring, anchored as asked, is in the language |
| Grep.SelectedExactly | user/grep.c:10-34 | the output is the matching complete lines before the first that does not fit the buffer |
| Grep.LostExactly | user/grep.c:10-34 | the lines lost are exactly the matching ones from the first that does not fit |
| Grep.NoMatchLostIff | user/grep.c:10-34 | a pattern loses no line if and only if none of those matches |
| Grep.NoLineLostIff | user/grep.c:10-34 | no pattern loses a line if and only if all complete lines fit |
| Grep.LongLineHides | user/grep.c:10-34 | a line of 1023 bytes or more hides everything after it |
| Grep.MatchIsNotPrinted | user/grep.c:10-34 | a line of 1023 bytes followed by a matching line: nothing is printed |
| Grep.Strchr | user/grep.c:21 | the next newline before the terminator |
| Grep.StringAt | user/grep.c:21-23 | what the matcher sees is the text before the NUL that was stored over the newline |
| Grep.OneLine | user/grep.c:22-26 | writes the line exactly if it matches |
| Grep.Lines | user/grep.c:20-28 | handles all complete lines in the buffer |
| Grep.Round | user/grep.c:17-32 | one read and its lines leave the output to come unchanged |
| Grep.Grep | user/grep.c:10-34 | the same output however the reads split the input |
| ShGrammar.TokensRoundTrip | user/sh.c:344-446 | a printed command tree, as tokens, is read back |
| ShGrammar.LineBack | user/sh.c:344-359 | lists and background commands are read back |
| ShGrammar.PipeBack | user/sh.c:361-372 | pipes are read back |
| ShGrammar.UnitBack | user/sh.c:399-446 | simple commands and blocks with redirections are read back |
| ShText.LineSound | user/sh.c:344-446 | whatever tokens the parser accepts are a text of the command it builds: every word and symbol is accounted for, arguments and redirections in their order |
| ShText.LineRead | user/sh.c:344-446 | every text of a command is read as that command, redirections before, between and after the arguments included |
| ShText.ParsesExactly | user/sh.c:327-446 | a list of tokens is read as a command if and only if it is a text of it with at most nine arguments in each simple command |
| ShNatural.ParseNatural | user/sh.c:344-446 | the grammar does not look into words |
| ShLexer.LexShown | user/sh.c:265-308 | reading the text of a list of tokens gives the tokens |
| ShLexer.LexedExactly | user/sh.c:262-308 | a list of tokens is what the lexer gives if and only if the text is these tokens, as long as possible, with white space around them |
| Shell.RoundTrip | user/sh.c:327-446 | parsing the printed form of any command tree with good words and at most nine arguments gives back the tree |
| Shell.TextIsParsed | user/sh.c:262-446 | a line is parsed as a command if and only if it is a text of it |
| Shell.GetToken | user/sh.c:265-308 | the next token, its place, and the cursor at the one after it |
| Shell.Peek | user/sh.c:310-320 | the cursor at the next token and whether its first character is one of these |
| Shell.ParseRedirs | user/sh.c:374-397 | the redirections of the grammar |
| Shell.ParseArgs | user/sh.c:426-445 | a simple command of the grammar, or a syntax error exactly when the grammar has one |
| Shell.ParseBlock | user/sh.c:399-413 | a block of the grammar |
| Shell.ParseExecAt | user/sh.c:415-446 | a block or a simple command |
| Shell.ParsePipeAt | user/sh.c:361-372 | a pipe of the grammar |
| Shell.ParseLineAt | user/sh.c:344-359 | a line of the grammar |
| Shell.ParseCmd | user/sh.c:327-342 | ends on every text, accepts exactly the texts of commands, and builds the one command that the text is of |
| NulTerminate.ParsedWords | user/sh.c:297-302 | all words of a parsed command are maximal words of the text |
| NulTerminate.CutKeepsWord | user/sh.c:465-472 | a NUL behind one word never falls into another |
| NulTerminate.Terminate | user/sh.c:449-493 | exactly the places behind the words are overwritten |
| NulTerminate.ParseLineInPlace | user/sh.c:327-342 | after parsing in place, every stored string equals its token |

## Left out

- Boot, traps, devices other than the disk ring, system call arguments: hardware effects without a deep invariant.
- Scheduler, exit and wait: only sleep and wakeup are modelled, as far as the pipe needs them.
- ialloc, iget and the inode cache of the kernel: the number of a fresh inode and the inode a path leads to are parameters.
- uvmunmap without freeing, uvminit, uvmclear, copyin, copyout: they add only easy members.
- Directory.NameX: does not free inodes that were removed during the walk.
- Overflow of the 16-bit link count and of the argument of sbrk: counts and sizes are unbounded.
- sys_unlink and sys_link at the granularity of their inode locks: each call is one step.
- Virtqueue memory barriers: the rings are sequentially consistent.
- Bits in the bytes of a bitmap block: bit `b` is element `b` of a sequence.
- FileSystem.FileSystem.FileWrite: does not model a short write by a failed copy, because copies are assumed to succeed.
- FileSystem.FileSystem.Readi: does not model a failed copy to the user, for the same reason.
- WriteCrash.WriteSurvivesCrash: covers one writing process; runs of several are covered block by block by LogProtocol.CrashSafety.
- Shell.ParseArgs: builds the redirections around the command at the end; the source wraps them around a command that it still extends.
- LinkOps.Tree.Create: gives no inode where the name is taken by a number whose inode was freed, as the ".." of a removed directory may be; the source panics there.
- Vm.PhysMem.UvmFree: requires that no page lies beyond the size, as the comment on `freewalk` demands.
- Vm.PhysMem.UvmCopy: requires that the pages of the parent are mapped, because the source panics otherwise.
- Mkfs.Image.Ialloc: requires a free inode, because the source does not check for one.
- LogProtocol.CrashSafety: does not cover a run after its list has outgrown the log area, because `write_log` then writes home blocks; LogLimits.AreaNeverOverrunIff says when that cannot happen.
- User programs other than grep and the shell, and the heap beyond malloc and free.
