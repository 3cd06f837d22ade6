# xv6 in Dafny

A model of the parts of xv6 (rev11, x86) whose correctness is hardest to see from the code, with proofs that it does what it is for.
`dafny verify dfyconfig.toml` checks everything; no file depends on anything outside this directory.

## What is modelled

Code that changes things in place is modelled as classes with mutable fields, arrays and linked nodes, each method proved against a
specification over values. Code that several processes run at once is modelled as a step system in which a section under a lock is
one step and `sleep` ends a section; theorems about it are about every run.

| Area | Files |
|---|---|
| Write-ahead log, crash recovery, group commit (log.c) | `Log`, `LogDevice`, `GroupCommit`, `GroupCommitSafety`; over the cache `LogCache`, `LogCacheLimits` |
| Buffer cache (bio.c) and its LRU ring | `BufferCache`, `CacheOrder`, `BufferRing` |
| Disk driver (ide.c) against the memory disk (memide.c) | `Ide`, `IdeQueue` |
| Files as byte sequences, block allocation, transaction size (fs.c, file.c), and mkfs.c | `FileBlocks`, `FileSystem`, `WriteCost`, `Bitmap`, `Mkfs`, `MkfsTree` |
| Directories, link counts and paths (fs.c, sysfile.c) | `Directory`, `DirectoryTree`, `Namespace`, `Paths`; in the bytes of directory files `DirFile` |
| Page tables and page allocator (vm.c, kalloc.c) | `PageTables`, `PageSteps`, `FrameCount`, `AddressSpace`, `Kalloc`, `Layout` |
| User-level malloc (umalloc.c) | `Malloc`, `MallocHeap` |
| Processes (proc.c) and pipes (pipe.c) | `Processes`, `ProcessSafety`, `ProcessLife`, `ProcTable`, `Pipes`, `PipeBuffer` |
| Types and constants the parts share | `Common` |
| Shell parser (sh.c) and pattern matcher (grep.c) | `Shell`, `ShellRoundTrip`, `ShellTokens`, `ShellGrammar`, `ShellParser`, `Grep`, `GrepPatterns` |

The disk is a sequence of blocks and each block write is one atomic step, so a crash can fall between any two writes. Clocks, devices
and the answers of `sbrk` are parameters. Panics that stop the system (out of blocks, no inodes, no buffers) are results that end the
run; panics that a property says cannot happen are proved unreachable.

## Where the code holds only under a condition

Each of these is proved as an if-and-only-if, or as the exact set of runs concerned.

- The guard of `log_write` is read before the lock is taken, so with a log of at most LOGSIZE blocks, header included, two operations can
  together log one block more than there are slots: `GroupCommitSafety.SlotsSufficeIff`. mkfs gives the log LOGSIZE blocks. What comes of
  it depends on the cache: the overrun needs as many logged blocks as the log has, each pins a buffer, and with all NBUF pinned the commit
  stops before its first write. Log and cache together keep calls atomic in every run if and only if the log has at least NBUF blocks (or
  too few to log anything): `LogCacheLimits.AtomicIff`. mkfs's log has exactly NBUF. A smaller one is overrun: `LogCacheLimits.OverrunBreaks`.
- LOGSIZE equals NBUF, so three operations with full budgets pin every buffer. The commit that follows panics in `bget` for want of a
  buffer, however large the log: `LogCacheLimits.GoesOnIff` says exactly when a commit goes on, and `LogCacheLimits.FullLogStops` has
  a run that stops.
- The guard of `log_write` counts a slot even for a block that would be absorbed: `GroupCommitSafety.GuardRejectsAbsorbed`.
- All buffers start as block 0 of device 0, so uniqueness in the cache is stated for devices from 1 on.
- mkfs takes the same name twice, or a dot, without complaint: `MkfsTree.Build`.
- `create` and `link` do not check that the parent directory is still linked: `DirectoryTree.CreateKeepsIff`, `DirectoryTree.EndKeepsIff`,
  with a run that gets there in `DirectoryTree.DeadParentBreaks`.
- mkfs rounds the root directory's size up even if it is a block multiple already: `Mkfs.RootRoundedIff`, `Mkfs.Image.Finish`.
- `malloc`'s size arithmetic wraps for huge requests: `MallocHeap.RequestSoundIff`.
- `pipewrite` returns without waking readers when the writer is killed on a full pipe: `Pipes.AwakeIff`, with a run in `Pipes.KilledWriterStrands`.
- `uva2ka` does not check that `walkpgdir` found a page table: `copyout` dereferences null exactly if the first page of the range that
  is not the user's has none (`AddressSpace.Memory.CopyOut`).
- Blanks next to a symbol make no difference to the shell, except between the two halves of `>>`: `ShellGrammar.BlanksInTreeIff`,
  `ShellTokens.BlanksAddedIff`, with a line that is no longer accepted in `ShellGrammar.AppendSplit`.
- A directory entry keeps 16 bits of the inode number: `DirFile.DirLink`.
- A process may start with `killed` set, because `kill` matches stale pids in free slots; nothing is claimed about `killed` at birth.

## Model

| member | source | states |
|---|---|---|
| `Log.CommitIsAtomic` | log.c:69-202 | whatever write of `commit` the machine stops after, and however often it stops again inside recovery, a completed recovery leaves all home blocks old (stopped before the header write) or all new (after it), with an empty header |
| `Log.RebootsRecover` | log.c:116-122 | any number of recoveries cut short anywhere, then a completed one: the home blocks are exactly what the disk stood for at the first crash |
| `Log.CommitEnd` | log.c:193-202 | a commit that runs to its end puts the new contents home and leaves the log empty |
| `Log.HeadCommits` | log.c:102-113 | the single header write is the commit point: before it the disk stands for the old contents, after it for the new |
| `Log.CutRecoveryKeeps` | log.c:70-122 | any prefix of the writes of recovery leaves unchanged what the disk stands for |
| `Log.InstallKeeps` | log.c:70-82 | installing any number of logged blocks does not change what the disk stands for |
| `Log.InstallAll` | log.c:70-82 | a full install brings every home block to the contents its slot holds and touches no other |
| `Log.LoggingKeeps` | log.c:178-190 | writing the slots changes nothing the disk stands for |
| `LogDevice.LogDevice.InstallTrans` | log.c:70-82 | the loop's disk, cache and sequence of single-block writes are those of the specification `Installed` |
| `LogDevice.LogDevice.ReadHead` | log.c:86-96 | the in-memory list becomes the on-disk one |
| `LogDevice.LogDevice.WriteHead` | log.c:102-113 | one write that replaces the count and the first n entries of the header block |
| `LogDevice.LogDevice.RecoverFromLog` | log.c:116-122 | the disk goes through exactly the writes of `RecoverDisk`, so the crash lemmas cover every one of them |
| `LogDevice.LogDevice.WriteLog` | log.c:178-190 | every logged block's cached contents go to its slot, in order |
| `LogDevice.LogDevice.Commit` | log.c:193-202 | the disk goes through exactly the 2n+2 writes of `CommitDisk`; the cached home blocks do not change; nothing is written for an empty list |
| `LogDevice.LogDevice.LogWrite` | log.c:214-233 | a block already listed is absorbed, also when the header is full, another is appended; the caller's contents stay in the cache and nothing reaches the disk |
| `LogDevice.LogDevice.MayLog` | log.c:216-221 | passes exactly when the step system's guard does; what passes leaves room in header and region for any block, and a block that is refused and not listed would have none |
| `LogDevice.LogDevice.TryBegin` | log.c:126-141 | the fields after one pass of begin_op are those of the step system's state; the process is in exactly if no commit is running and, whatever blocks it and the operations in progress still log, the header has entries for all |
| `LogDevice.LogDevice.Leave` | log.c:146-174 | the fields after end_op's locked part are those of the step system's state; the commit starts exactly if no other process is inside an operation; the panic on `committing` does not occur |
| `LogDevice.CommitKeepsCache` | log.c:178-202 | logging and installing the cached contents of blocks leaves the cached home blocks as they were |
| `GroupCommitSafety.CommitRunIs` | log.c:178-202 | the single writes of a commit, taken one step at a time through disk and cache, are those of `CommitDisk` |
| `GroupCommitSafety.SafeCalls` | log.c:126-174 | the invariant's meaning: the disk stands for the committed groups in order, and all writes of a call are in one group or in none; a call still open is in none |
| `GroupCommitSafety.CommitRunsAlone` | log.c:126-174 | in every run a commit runs with no operation in progress, and whoever sleeps in begin_op sleeps because of a commit, or because it and the operations in progress may still log more blocks than the header has entries |
| `GroupCommitSafety.BeginAdmitsIff` | log.c:126-141 | in every run begin_op lets a process in exactly if no commit is running and all that it and the operations in progress may still log fits the header |
| `GroupCommitSafety.RoomIff` | log.c:132 | the sum begin_op compares with LOGSIZE says exactly whether every choice of further blocks fits |
| `GroupCommitSafety.ReservationsHold` | log.c:126-141 | logged blocks plus the unused budgets of outstanding operations never exceed LOGSIZE |
| `GroupCommitSafety.AppendHasRoom` | log.c:222-230 | in every run a log_write past the guard finds a header entry free or its block listed already |
| `GroupCommitSafety.SlotsSufficeIff` | log.c:214-233 | every logged block has a data slot in every run if and only if the log region has more than LOGSIZE blocks (or no slot at all); with the size mkfs writes, two operations racing past the unlocked guard overrun the slots by one |
| `GroupCommitSafety.GuardRejectsOnlyAbsorbed` | log.c:216-221 | with a large enough region the guard turns away only writes of blocks already listed |
| `GroupCommitSafety.GuardRejectsAbsorbed` | log.c:216-221 | and it does: three full operations fill the header and the next log_write panics though its block is listed |
| `LogCache.CallsAreAtomic` | log.c:126-233 | log and cache together, with a log of at least NBUF blocks as mkfs makes it: in every state of every interleaving of begin_op, log_write, end_op, bget and brelse with crashes anywhere, the disk stands for the committed groups in order, and all writes of a call are in one group or in none |
| `LogCache.RecoveryRestores` | log.c:116-122 | in every such run, when recovery completes the home blocks are the committed groups and nothing else |
| `LogCache.LoggedStayCached` | log.c:214-233 | in every such run a block logged and not yet written home is in the cache with its latest contents in a buffer that cannot be recycled, no other buffer is dirty, and what any valid buffer shows is the log's latest contents |
| `LogCache.StepJoins` | log.c:69-233 | each step of the log, done through locked buffers, keeps the log's invariant, and the cache's latest contents and pinned blocks those of the log |
| `LogCache.CommitUnpins` | log.c:70-82 | a commit's write unpins exactly the block it brings home; writes into the log region unpin nothing |
| `LogCache.CopyShows` | log.c:70-190 | what commit and recovery copy from one buffer to another is what the log takes them to write |
| `LogCache.NoBuffer` | bio.c:76-93 | with NBUF blocks logged and none at home no buffer can hold a block of the log region |
| `LogCacheLimits.AtomicIff` | log.c:126-233 | the disk stands for the committed groups in every state of every joint run if and only if the log has at least NBUF blocks or none to log in |
| `LogCacheLimits.OverrunBreaks` | log.c:178-190 | with a smaller log, a joint run whose commit writes a slot over the home block after the log |
| `LogCacheLimits.GoesOnIff` | log.c:178-202 | with no buffer in use elsewhere, a commit or recovery under way gets the buffers for its next write or finishes, if and only if it is not a commit of NBUF blocks |
| `LogCacheLimits.FullLogStops` | bio.c:76-93 | a joint run to a commit of NBUF blocks for whose first slot no sequence of bget and brelse yields a buffer |
| `LogCacheLimits.Lift` | log.c:126-233 | every run of the log that leaves a buffer for each write is a run of log and cache together |
| `GroupCommitSafety.SafeStep` | log.c:126-233 | every step keeps budgets, durability, open calls and the wholeness of groups, a write of commit provided the logged blocks fit the region |
| `GroupCommitSafety.LogAtomicIff` | log.c:126-233 | the log by itself, over a cache that always has a buffer: the disk stands for the committed groups in every run if and only if the log has more than LOGSIZE blocks or none to log in |
| `GroupCommitSafety.Overrun` | log.c:178-190 | a run, for which any number of buffers above the log's size is enough, to the last slot write of a commit with one slot too few; the write lands on the first block after the log and the disk stands for no committed state |
| `BufferCache.CacheIsTransparent` | bio.c:39-142 | in every run from binit, other clients taking the lock between the two halves of brelse included: one buffer per block of a device >= 1, a valid buffer shows the latest write, what bread fetches is the latest write, and a block pinned by log_write is never recycled |
| `BufferCache.StepRefines` | bio.c:62-142 | every step of the cache is a step of an uncached map of latest writes |
| `BufferCache.RecycleRefines` | bio.c:76-92 | recycling a clean unreferenced buffer loses nothing |
| `BufferCache.ReorderRefines` | bio.c:132-139 | the LRU order is invisible to clients |
| `CacheOrder.LeastRecentlyUsed` | bio.c:76-141 | in every run the buffer bget recycles is clean and unreferenced, and every other such buffer was given up after it was, or is earlier in binit's order if neither ever was in use |
| `CacheOrder.StepRecent` | bio.c:62-141 | every step keeps the buffers in the order in which their last references were given up |
| `BufferRing.Ring.constructor` | bio.c:39-56 | NBUF buffers in one ring, all block 0 of device 0 |
| `BufferRing.Ring.FindBlock` | bio.c:67-75 | the first buffer of the block in LRU order, or none exists |
| `BufferRing.Ring.FindFree` | bio.c:78-91 | the last clean unreferenced buffer, or none exists |
| `BufferRing.Ring.Bget` | bio.c:62-94 | a hit counts a reference; a miss recycles the least recently used free buffer; null only when every buffer is in use |
| `BufferRing.Ring.Bread` | bio.c:98-107 | reads from disk unless the buffer is valid |
| `BufferRing.Ring.Bwrite` | bio.c:111-117 | the buffer reaches the disk and is clean |
| `BufferRing.Ring.Iderw` | memide.c:39-60 | writes a dirty buffer, else reads it |
| `BufferRing.Ring.ReleaseSleep` | bio.c:127 | the lock is free and the reference still counted |
| `BufferRing.Ring.Brelse` | bio.c:129-141 | the prev/next ring stays one cycle of the same buffers; the last reference moves the buffer to the front |
| `FileBlocks.TakeOwns` | fs.c:57-78 | a newly allocated block is nobody's and not metadata, and the bitmap stays exactly metadata plus owned blocks |
| `FileBlocks.PutBytesOverlays` | fs.c:494-504 | writing inside one data block changes those bytes of that file and no other byte of any file |
| `FileBlocks.TruncOwns` | fs.c:409-436 | truncation gives back exactly the blocks of one inode; ownership stays disjoint and complete |
| `FileBlocks.FreeNext` | fs.c:409-430 | the next block itrunc frees is still marked in use |
| `FileSystem.FileSystem.Balloc` | fs.c:57-78 | the first clear bit, now set, its block zeroed; failure means the bitmap is full |
| `FileSystem.FileSystem.Bmap` | fs.c:374-401 | the block of a file, allocated if missing; out of range exactly from MAXFILE on; exactly which blocks it logs |
| `FileSystem.FileSystem.ReadI` | fs.c:454-477 | -1 exactly for an offset past the end or a wrapping sum, else the bytes of the file; bmap never allocates here |
| `FileSystem.FileSystem.WriteI` | fs.c:483-512 | refused with nothing changed, or the file is its old contents with the bytes laid over it and every other file is untouched; no holes; the cached inode equals the disk copy; exactly which blocks are logged, at most MAXOPBLOCKS per chunk; it fails only with the bitmap full and a block of the range missing |
| `FileSystem.FileSystem.RangeNext` | fs.c:494-504 | writing one block more logs exactly that block and what mapping it costs, the indirect block and its bitmap block once |
| `FileSystem.FileSystem.FileWrite` | file.c:118-156 | the bytes on disk are the old ones with exactly the first `written` of src laid over them; it is all of them unless the offset is past the end or a chunk would pass the largest file, in which case it is all whole chunks before that one and the result is -1; no chunk logs more than MAXOPBLOCKS blocks; it panics only with the bitmap full and a block of the chunk missing |
| `FileSystem.TallyBound` | file.c:133-152 | a chunk logs fewer than MAXOPBLOCKS blocks before the inode, even if every allocation is in another bitmap block |
| `WriteCost.LogsMost` | file.c:125-152 | the bound is reached: a file system with four free blocks under four bitmap blocks, and a chunk that starts inside a block already there and takes them all, for which writei succeeds and logs exactly MAXOPBLOCKS blocks |
| `FileSystem.FileSystem.WorstChunkIs` | file.c:125-133 | why that is the most: were the chunk's first block new too, such a write would log one block more |
| `FileSystem.FirstBlockThere` | fs.c:494-497 | blocks below an unaligned offset inside the file are already allocated |
| `FileSystem.FileSystem.IUpdate` | fs.c:222-237 | the disk copy becomes the cached inode |
| `FileSystem.FileSystem.Bfree` | fs.c:82-96 | clears the bit, or reports a block that was free |
| `FileSystem.FileSystem.ITrunc` | fs.c:409-436 | exactly the file's blocks become free, it never meets a free one, and other files keep their bytes |
| `FileSystem.FileSystem.IPut` | fs.c:333-353 | the last reference to an unlinked inode frees file and inode; otherwise nothing changes |
| `FileSystem.FileSystem.IAlloc` | fs.c:196-215 | the first free inode, empty, all files' bytes unchanged |
| `FileSystem.FileSystem.ILock` | fs.c:289-313 | the cached inode equals the disk copy |
| `Mkfs.Image.constructor` | mkfs.c:108-115 | an empty image: nothing owned, everything below freeblock in use |
| `Mkfs.Image.IAlloc` | mkfs.c:224-235 | the next inode, empty, with one link |
| `Mkfs.Image.IAppend` | mkfs.c:256-297 | the file grows by the bytes at its end, no other file changes, and the image stays a file system whose bitmap is everything below freeblock; it stops only if the file would be too large or every block is taken |
| `Mkfs.RootRoundedIff` | mkfs.c:158-163 | the rounded root directory has all its blocks if and only if its size was not a multiple of the block size |
| `Mkfs.RoundedOkIff` | mkfs.c:158-163 | after the rounding the image is a file system the kernel can run on if and only if the root's size was not a multiple of the block size; files keep their bytes and the root is padded with zeros, that is with free entries |
| `Mkfs.Image.Finish` | mkfs.c:158-163 | the finishing step on the image, with the same if-and-only-if |
| `Mkfs.Image.Mount` | fs.c:172-188 | a finished image meets what the running file system starts from |
| `MkfsTree.Build` | mkfs.c:117-166 | mkfs as a whole: every file is in the image under its inode with its bytes; the directories, the root padded with free entries, form a tree if and only if no name is given twice and none is a dot; the kernel can start from the image if and only if the root's entries do not end on a block boundary; it stops only if every block is taken or the root or a file is too large |
| `MkfsTree.PaddedFlatIff` | mkfs.c:130-163 | the tree half of that on inodes and entries |
| `MkfsTree.FreeKeeps` | mkfs.c:158-163 | a free entry more changes nothing the directory tree depends on |
| `Bitmap.MarkBits` | fs.c:64-92 | setting or clearing a bit of a bitmap byte changes that bit of the block and no other |
| `Bitmap.FreeMap.Take` | fs.c:57-78 | on the bytes of the bitmap blocks: the first clear bit is set and no other bit changes, as `FileSystem.Balloc` does on booleans |
| `Bitmap.FreeMap.Release` | fs.c:82-96 | on the bytes: the bit is cleared and no other changes, or it was clear already |
| `Bitmap.FirstBits` | mkfs.c:238-251 | the bitmap block has exactly its first bits set |
| `DirectoryTree.DirectoriesFormTree` | sysfile.c:119-284 | after any run of create, link and unlink with live parents from a fresh image: each nlink is the number of entries naming the inode, names are distinct, "." and ".." are in slots 0 and 1, every linked directory but the root is named by exactly one entry, in the directory its ".." names, and ".." leads to the root |
| `DirectoryTree.CreateKeepsIff` | sysfile.c:242-284 | create keeps the tree if and only if the parent directory is still linked |
| `DirectoryTree.EndKeepsIff` | sysfile.c:144-152 | the second half of link keeps it if and only if the parent directory is still linked |
| `DirectoryTree.DeadParentBreaks` | sysfile.c:185-284 | a run from a fresh image to a state where create and link, passing all their own checks, enter a name in a removed directory and leave wrong link counts |
| `DirectoryTree.UnlinkKeeps` | sysfile.c:185-239 | unlinking a file or an empty directory keeps link counts, names and the tree |
| `DirectoryTree.DirCountOne` | sysfile.c:211-215 | the entry being removed is the only one naming a directory |
| `DirectoryTree.ParentKeepsLink` | sysfile.c:221-224 | losing a child directory leaves the parent linked |
| `DirectoryTree.DeadParentFile` | sysfile.c:261-278 | a file created in a removed directory has a link count with no entry to count |
| `DirectoryTree.DeadParentDir` | sysfile.c:270-278 | a directory created in a removed directory revives it with no entry leading to it |
| `DirectoryTree.RootOnlyTree` | mkfs.c:117-128 | the fresh image satisfies the invariant |
| `Directory.UpToRoot` | fs.c:626-658 | ".." leads from a linked directory to the root in as many steps as its depth |
| `Directory.PutReuses` | fs.c:565-576 | entries in use stay where they are, and a directory grows only if it has no free entry |
| `Namespace.Namespace.DirLookup` | fs.c:526-549 | the first entry in use under the name, or there is none |
| `Namespace.Namespace.DirLink` | fs.c:553-579 | refused exactly if the name is in use, else entered in the first free slot |
| `Namespace.Namespace.IsDirEmpty` | sysfile.c:169-181 | true exactly if no entry above slot 1 is in use |
| `Namespace.Namespace.Create` | sysfile.c:242-284 | for a name in use the inode it names, exactly if a file is asked for and it is one, with nothing changed; else a new inode entered; the tree is kept if and only if the parent is linked |
| `Namespace.Namespace.Unlink` | sysfile.c:185-239 | removes the entry and its links, or changes nothing for the dots, a missing name or a directory with entries; the tree is kept |
| `Namespace.Namespace.LinkBegin` | sysfile.c:133-142 | refused exactly for a directory, else the link is counted |
| `Namespace.Namespace.LinkEnd` | sysfile.c:144-164 | the entry is made exactly if the name is free, else the link is taken back |
| `Paths.ElementsJoin` | fs.c:597-619 | a slash separates: the elements of a/b are those of a and then those of b |
| `Paths.ElementsWord` | fs.c:607-615 | a word of up to 14 characters is one element, itself; a longer one is cut to its first 14 |
| `Paths.ElementsAre` | fs.c:597-619 | every element is non-empty, at most 14 characters and free of slashes |
| `Paths.ElementsOf` | fs.c:597-619 | writing such names each behind a slash and splitting the path gives the names back |
| `Paths.SkipElem` | fs.c:597-619 | exactly the slashes before the next word are skipped, the word runs to the next slash or the end, the element is its first 14 characters, and the slashes behind it are skipped; or only slashes are left |
| `Paths.NameX` | fs.c:626-658 | the inode the elements lead to, or for nameiparent the directory of the last one and its name |
| `Paths.ParentThenLookup` | fs.c:626-670 | nameiparent followed by a lookup of the last element is namei |
| `Paths.PathJoin` | fs.c:626-658 | resolving a/b is resolving b from where a leads |
| `Paths.ReachedByPath` | fs.c:626-658 | every linked directory is named by a path from the root as long as its depth |
| `Paths.DirectoryHasPath` | fs.c:626-658 | in every run that enters path elements as names, every linked directory has a path, a string beginning with a slash, at which namex finds it |
| `DirFile.StrNCmp` | string.c:63-69 | equal exactly if the strings in the first n bytes are |
| `DirFile.StrNCpy` | string.c:72-80 | the same string in n bytes, NULs from its end on |
| `DirFile.SplicedEntries` | fs.c:573-576 | writing sixteen bytes at slot k, or at the end, changes that entry of the directory and no other |
| `DirFile.DirLookup` | fs.c:526-549 | with readi on the bytes: the first entry in use under the name or none; it panics exactly for a file that is not a directory, or one that ends inside an entry and does not have the name |
| `DirFile.DirLink` | fs.c:553-579 | with readi and writei on the bytes: -1 exactly if the name is in use, else the directory gains the entry in its first free slot or at its end, and no other file or inode changes; on a directory of whole entries it panics only if the name is new, no entry is free, and the directory is as large as a file gets or needs a block and none is free |
| `DirFile.IsDirEmpty` | sysfile.c:169-181 | with readi on the bytes: true exactly if no entry above slot 1 is in use |
| `DirFile.Unlink` | sysfile.c:185-239 | sys_unlink on inodes and bytes is the unlink step of the directory tree, or changes nothing for the dots, a missing name or a directory with entries; the directories stay a tree; none of its panics can occur |
| `DirFile.Remove` | sysfile.c:218-229 | clearing the entry's bytes and lowering the link counts is the unlink step, and the write of the entry always succeeds |
| `DirFile.CreateNew` | sysfile.c:261-284 | create on inodes and bytes is the create step, dots and parent link included; the directories stay a tree if and only if the parent is still linked; it panics only if no inode is free, no block is free, or the parent is as large as a file gets |
| `PageTables.SetPteFlat` | vm.c:54-72 | writing one entry changes the flat map at one page of one directory |
| `PageTables.AddTableFlat` | vm.c:54-72 | a new page table changes no mapping |
| `PageTables.MapOwns` | vm.c:86-111 | a frame becomes the page behind one user mapping; ownership stays disjoint and exact |
| `PageTables.UnmapOwns` | vm.c:294-300 | the page behind a user mapping is let go |
| `PageTables.SameFree` | vm.c:150-168 | the same directories and other allocations leave the same frames free |
| `PageTables.UnpackPacked` | vm.c:102 | address, flags and present bit of the word mappages stores come apart again |
| `PageSteps.SkipTable` | vm.c:291-293 | a missing page table means 4 MB without a mapping, so the skip misses nothing |
| `PageSteps.KernelRegionIs` | vm.c:136-146 | the four regions, the last of which ends at 2^32, cover the pages they are meant to |
| `PageSteps.SoleMapping` | vm.c:339-367 | a user page's frame is behind no other page of any address space |
| `PageSteps.RestoredFree` | vm.c:259-273 | every frame that was free is free again, or an empty page table |
| `FrameCount.TooFew` | vm.c:258-273 | if the frames left do not do for the next page and its page table, the frames at the start did not do for all pages |
| `FrameCount.Enough` | vm.c:258-273 | mapping all pages takes one frame each and one for every page table that was missing |
| `FrameCount.KernelDone` | vm.c:150-168 | a complete kernel map has exactly its 64 page tables, and with the directory has taken 65 frames |
| `FrameCount.SpaceIs` | vm.c:339-367 | an address space of n user pages takes 65 frames, n, and one for every 1024 pages begun |
| `AddressSpace.Memory.KAlloc` | kalloc.c:84-97 | the first free frame, or none is left |
| `AddressSpace.Memory.KFree` | kalloc.c:61-77 | the frame is first on the free list and filled with junk |
| `AddressSpace.Memory.Walk` | vm.c:54-72 | the page table exists afterwards if asked for and possible; no mapping changes |
| `AddressSpace.Memory.MapPages` | vm.c:86-111 | maps exactly the pages of the region, ending also at 2^32; on failure a prefix of them |
| `AddressSpace.Memory.SetupKvm` | vm.c:150-168 | a new directory that maps exactly the kernel regions, exactly if 65 frames were free, or exactly the frames free before are free again |
| `AddressSpace.Memory.AllocUvm` | vm.c:249-275 | new zeroed pages from frames that were free, exactly if there were frames for the pages and the missing page tables, or the user mapping and user frames as before |
| `AddressSpace.Memory.DeallocUvm` | vm.c:282-304 | exactly the mapped pages from newsz up to oldsz are gone, in this directory only |
| `AddressSpace.Memory.FreeVm` | vm.c:309-322 | exactly the frames the directory owned are freed, each once; other address spaces are untouched |
| `AddressSpace.Memory.CopyUvm` | vm.c:339-367 | a child with equal bytes and flags below sz in frames that were free, exactly if 65 frames, one for each page and one for every 1024 pages begun were free, or exactly the frames free before are free again |
| `AddressSpace.Memory.CopyOut` | vm.c:371-406 | the bytes are at va in that address space and no other byte of any address space changed; it stops at the first page that is not the user's with a prefix written, and faults exactly if that page has no page table |
| `Kalloc.FreeList.KFree` | kalloc.c:61-77 | pushes the page on the linked list |
| `Kalloc.FreeList.KAlloc` | kalloc.c:84-97 | pops the linked list |
| `Kalloc.FreeList.FreeRange` | kalloc.c:47-53 | every whole page of the range is on the list once |
| `Kalloc.KInit` | kalloc.c:33-53 | after kinit1 and kinit2 the list holds every page frame from the end of the kernel to PHYSTOP exactly once |
| `Malloc.InsertOrdered` | umalloc.c:25-44 | free keeps the list address-ordered with no two free blocks adjacent |
| `Malloc.InsertTotal` | umalloc.c:25-44 | free returns exactly the block's units |
| `Malloc.CarveOrdered` | umalloc.c:74-85 | malloc keeps the list ordered and hands out a block apart from what stays free |
| `Malloc.CarveTotal` | umalloc.c:74-85 | malloc takes exactly the units asked for |
| `Malloc.PlaceExists` | umalloc.c:30-33 | a block apart from all nodes has its place among them |
| `MallocHeap.LinkRep` | umalloc.c:34-43 | the pointer assignments of free turn the ring into the ring with the block inserted and joined |
| `MallocHeap.TakeOutRep` | umalloc.c:75-84 | the pointer assignments of malloc turn the ring into the ring with the block carved out |
| `MallocHeap.RequestSoundIff` | umalloc.c:54-69 | the 32-bit size arithmetic is right if and only if at most 2^31 - 16 bytes are asked for |
| `MallocHeap.Allocator.Search` | umalloc.c:29-33 | finds the block's place, visiting each node at most once |
| `MallocHeap.Allocator.Free` | umalloc.c:25-44 | the block is back in its place, joined with its neighbours, and no live block is touched |
| `MallocHeap.Allocator.Morecore` | umalloc.c:47-61 | at least 4096 units more in the list, all accounted for |
| `MallocHeap.Allocator.Malloc` | umalloc.c:64-90 | a block large enough, carved from the list, which grew by at most one morecore and only if nothing fitted; free plus live units equal the units obtained |
| `ProcessSafety.RunningIffOnOneCpu` | proc.c:340-406 | in every run a process is RUNNING if and only if exactly one CPU points at it |
| `ProcessSafety.ParentsAreLive` | proc.c:201-329 | every launched process but init has a parent that has not exited |
| `ProcessSafety.NoZombieMissed` | proc.c:247-329 | no process sleeps in wait while it has a ZOMBIE child |
| `ProcessSafety.EachPidReapedOnce` | proc.c:291-329 | wait returns each pid at most once, and every pid forked is in the table or has been returned, never both |
| `ProcessSafety.StepOk` | proc.c:78-511 | every locked section keeps these invariants |
| `ProcessSafety.ExitNoZombie` | proc.c:268-283 | exit wakes the parent, and init for inherited zombies, so neither sleeps on |
| `ProcessLife.LifeCycle` | proc.c:78-511 | a process changes state exactly along the edges of the state diagram, each taken by the step it belongs to; a sleeper wakes exactly by a wakeup on its channel, a kill, or in wait by the exit of a child or an inherited zombie |
| `ProcessLife.FieldsChange` | proc.c:78-511 | which step changes pid, parent, channel and killed of a process, and to what |
| `ProcessLife.SleepersIff` | proc.c:436-511 | in every run a process is asleep on a channel exactly if it went to sleep there and there has been neither a wakeup of the channel nor a kill of the process since |
| `ProcessLife.NobodySleepsForNothing` | proc.c:291-488 | in every run whoever sleeps is in wait without a zombie child, or went to sleep on a channel that has not been woken since |
| `ProcessLife.WakeupWakes` | proc.c:475-488 | after a wakeup nobody sleeps on the channel and nobody else has changed |
| `ProcessLife.KillMarks` | proc.c:495-511 | kill marks the process and gets it out of its sleep, and nothing else changes |
| `ProcTable.ProcTable.AllocProc` | proc.c:78-97 | the first free slot with the next pid, or no slot is free |
| `ProcTable.ProcTable.Wakeup1` | proc.c:475-481 | slot by slot: a sleeper on the channel becomes runnable with its other fields as they were, and every other slot is as it was |
| `ProcTable.ProcTable.Exit` | proc.c:268-284 | children go to init, the sleepers to be woken are, the process is a zombie and off its CPU |
| `ProcTable.ProcTable.Wait` | proc.c:296-328 | reaps the first zombie child, gives up without children or when killed, else sleeps |
| `ProcTable.ProcTable.Kill` | proc.c:495-511 | the first slot with the pid is marked and no longer asleep, every other field and slot as before, or no slot has the pid |
| `ProcTable.ProcTable.Schedule` | proc.c:350-360 | the next runnable process from the scan position, now running on this CPU, or none |
| `Pipes.BytesInOrder` | pipe.c:80-122 | in every interleaving the bytes read are, in order, the first of the bytes written, each call's bytes are the first of its buffer, and at most PIPESIZE bytes are in between |
| `Pipes.NoLostWakeups` | pipe.c:80-122 | in every run in which no writer is killed, readers killed or not, a sleeping reader means an empty open pipe and a sleeping writer a full one, so neither side waits on a false condition |
| `Pipes.AwakeIff` | pipe.c:86-93 | a step strands a sleeper if and only if a killed writer fills an empty pipe with readers asleep and has bytes left |
| `Pipes.KilledWriterStrands` | pipe.c:86-93 | the run in which that happens: a reader asleep, a killed writer that fills the pipe and leaves, and the reader still asleep |
| `Pipes.ReadReturns` | pipe.c:102-122 | a read takes the oldest bytes, at most n; if it ends it stops short of n only by emptying the pipe, and takes nothing only from an empty pipe whose write end is closed, or killed; it sleeps exactly on an empty pipe with its write end open, not killed |
| `Pipes.WriteReturns` | pipe.c:80-99 | a write puts in the next bytes of its buffer and stops short only by filling the pipe; it then sleeps exactly if the read end is open and it is not killed |
| `Pipes.WritesFinish` | pipe.c:80-99 | in every run a write that is over, not killed and with the read end open, has had its whole buffer accepted, in order |
| `Pipes.WriteEndClosed` | pipe.c:61-122 | once the write end is closed no reader sleeps: a read ends, with nothing if the pipe is empty |
| `Pipes.ReadEndClosed` | pipe.c:61-99 | once the read end is closed no writer sleeps: a write ends, unfinished if it does not fit |
| `PipeBuffer.WrappedSlot` | pipe.c:94-117 | a wrapped 32-bit counter indexes the same slot |
| `PipeBuffer.WrappedDistance` | pipe.c:86-115 | wrapped counters tell full and empty as the true counts do |
| `PipeBuffer.PipeBuffer.Write` | pipe.c:80-99 | one section of pipewrite on the ring: what goes in and who is woken; done exactly if the whole buffer is in, else the pipe is full and it fails exactly if the read end is closed or it was killed, and sleeps otherwise |
| `PipeBuffer.PipeBuffer.Read` | pipe.c:102-122 | one section of piperead on the ring: the next bytes and who is woken; a read that is done stops short of n only by emptying the pipe and returns nothing only if the write end is closed; one that is not done found the pipe empty with its write end open, and fails exactly if killed |
| `PipeBuffer.PipeBuffer.Close` | pipe.c:61-76 | that end is closed, everybody on the other side awake, and the pipe freed with its second end |
| `Ide.DriverRefinesMemoryDisk` | ide.c:72-163 | in every run of the queued driver over an error-free device, requests are carried out in arrival order with the effect of one synchronous memory-disk iderw each; a caller sleeps exactly while its request is queued |
| `Ide.RunRefines` | memide.c:39-60 | every run of the driver is a run of the memory disk |
| `Ide.StepOk` | ide.c:101-163 | the device works on the head of the queue, and a call that is not queued has its buffer |
| `IdeQueue.Driver.Append` | ide.c:146-150 | the linked queue grows at its end |
| `IdeQueue.Driver.Submit` | ide.c:134-159 | queues the request and starts the device if it is alone |
| `IdeQueue.Driver.Interrupt` | ide.c:101-127 | finishes the head, wakes its caller and starts the next |
| `ShellRoundTrip.RoundTrip` | sh.c:266-446 | printing any command tree (at most 9 words per command, words free of blanks and symbols) and parsing gives the tree back |
| `ShellRoundTrip.AcceptedIsPrintable` | sh.c:328-446 | every accepted line has a printed form that parses to the same tree |
| `ShellGrammar.GrammarIff` | sh.c:328-446 | the parser accepts a line and gives it a tree exactly if the line's tokens are those of a line of the grammar, given apart as concrete syntax, that stands for the tree: words and redirections in any order, fewer than MAXARGS words, the last redirection outermost, pipes before `&` before `;`, blocks in parentheses |
| `ShellGrammar.DerivedAlone` | sh.c:328-446 | a line stands for at most one tree |
| `ShellGrammar.AcceptedCounted` | sh.c:375-446 | an accepted line has as many words as its tree, and a file name behind every redirection |
| `ShellTokens.SameTokens` | sh.c:266-446 | lines with the same tokens have the same tree or the same error |
| `ShellTokens.TokensSpell` | sh.c:266-308 | every token is a symbol, `>>` or a word without blanks and symbols, and together they are the line without its spaces, tabs, carriage returns, line feeds and vertical tabs |
| `ShellTokens.CutIff` | sh.c:266-308 | the tokens of a line are those of its two parts exactly if the cut is neither inside a word nor inside `>>` |
| `ShellTokens.BlanksReplaced` | sh.c:263-320 | any run of the five blanks may stand for any other |
| `ShellTokens.BlanksAdded` | sh.c:263-320 | blanks added at either end, next to a blank or next to a symbol leave the parse as it is, `>>` kept whole |
| `ShellTokens.BlanksAddedIff` | sh.c:263-320 | for every line: blanks added leave its tokens as they are exactly if not inside a word or inside `>>` |
| `ShellTokens.LineFeed` | sh.c:328-340 | a line feed at the end makes no difference |
| `ShellGrammar.BlanksInTreeIff` | sh.c:263-446 | blanks added to an accepted line leave its tree as it is exactly if not inside a word or inside `>>` |
| `ShellGrammar.ArrowsApart` | sh.c:375-397 | a line with blanks inside `>>` is rejected |
| `ShellGrammar.AppendSplit` | sh.c:375-397 | `a >> b` is accepted and `a > > b` is not |
| `ShellParser.Parser.GetToken` | sh.c:266-308 | kind, span and rest are the grammar's: past the blanks, the longest word without blanks and symbols, or a symbol, `>>` taken whole, or the end of the text; the cursor is then past the blanks behind it |
| `ShellParser.Parser.Peek` | sh.c:311-320 | answers as the grammar does and only skips blanks |
| `ShellParser.Parser.ParseRedirs` | sh.c:375-397 | the redirections of the grammar, or its error |
| `ShellParser.Parser.ParseExec` | sh.c:416-446 | the command of the grammar, or its error |
| `ShellParser.Parser.ParseBlock` | sh.c:400-413 | the block of the grammar, or its error |
| `ShellParser.Parser.ParsePipe` | sh.c:362-372 | the pipeline of the grammar, or its error |
| `ShellParser.Parser.ParseLine` | sh.c:345-359 | the line of the grammar, or its error |
| `ShellParser.Parser.ParseCmd` | sh.c:328-340 | the tree of the grammar for the whole text, and no tree exactly if the text is not a line of the grammar; the error is that of the functional parser |
| `ShellParser.NulTerminate` | sh.c:450-493 | a NUL after every string of the tree and nothing else changed |
| `ShellParser.ParseCommand` | sh.c:328-493 | the tree of the grammar, every string read from the buffer up to its NUL; no tree exactly if the text is not a line of the grammar |
| `Grep.Match` | grep.c:73-82 | 1 exactly when some stretch of the text (at its start for ^) is in the declaratively defined language of the pattern |
| `Grep.MatchHere` | grep.c:85-96 | decides that language at one position |
| `Grep.MatchStar` | grep.c:99-106 | decides it for some number of repetitions |
| `GrepPatterns.PlainIff` | grep.c:73-96 | a pattern of literals and dots matches exactly the texts that have it somewhere |
| `GrepPatterns.AnchoredIff` | grep.c:73-96 | after ^ it must be at the start, before $ at the end, between the two the whole text |
| `GrepPatterns.StarIff` | grep.c:85-106 | ^uc*v$ matches exactly u, any number of c, and v |

## Left out

- Boot, interrupt controllers, serial port, keyboard and the assembly files: register-level code with no deep property.
- Spinlocks and sleep locks: acquiring and releasing are atomic guarded steps; memory barriers are not modelled.
- Context switching and the segment tables: a switch is one abstract step.
- Console, formatted output, the small user programs and the test programs.
- exec.c: a sequence of calls whose callees carry the properties.
- `runcmd` in sh.c, fetching of system call arguments, and file descriptors: thin wrappers over system calls.
- The read loop of grep.c, which drops partial lines by design; only the matcher is modelled.
- growproc: a shrink to exactly size 0 is reported as an error after the pages are freed; the process size is not modelled.
- Device inodes are kinds of inode only; reading and writing devices is not modelled.
- `iget` and the in-memory inode table's slots: the inode cache is a map from inode numbers, and reference counts are parameters.
- The bytes of an on-disk inode: inodes are records.
- `Paths` resolves names on lists of entries; `DirFile` ties lookup, link, unlink and create to the bytes, not the walk along a path.
- `Namespace` runs each operation on the directory whole; the locking of one inode at a time along a path is not modelled.
- Bitmap bits are a sequence of booleans in `FileSystem`; `Bitmap.FreeMap` does the same on bytes.
- A block is 128 words in the log and 512 bytes in the file system; the two views are not joined.
- In-page layout: the free-list link, the table entries and the bytes of a page are separate maps in `AddressSpace`; a page has one of these uses at a time.
- loaduvm, inituvm and clearpteu: they add nothing to walkpgdir and mappages.
- Kernel stacks and pipe pages count as other allocations in the frame accounting.
- Namespace.Namespace.Create: does not model the 16-bit width of link counts, or the device numbers it stores.
- ProcessSafety.EachPidReapedOnce: does not model the wrap-around of the pid counter after 2^31 forks.
- AddressSpace.Memory.CopyOut: assumes a range below KERNBASE.
- AddressSpace.Memory.UnmapOne: clears the entry before it frees the page, where deallocuvm frees first; nothing runs in between.
- AddressSpace.Memory.MapPages: does not model the panic on remapping; its precondition is that the region is unmapped.
- MallocHeap.Allocator.Malloc: states its result for requests of at most 2^31 - 16 bytes; beyond that the arithmetic is wrong, as RequestSoundIff says.
- Ide.DriverRefinesMemoryDisk: assumes a device without errors that raises one interrupt per started request.
- Pipes.NoLostWakeups: says nothing about runs with killed writers; AwakeIff does.
- LogCache.LoggedStayCached: assumes a log of at least NBUF blocks, since a commit that overruns a smaller one writes through buffers of other blocks; and clients that release a changed buffer only after log_write or bwrite.
- LogCacheLimits.GoesOnIff: speaks of states in which no other client has a buffer; one more buffer in use elsewhere is one fewer for the commit.
- MkfsTree.Build: assumes no more files than inodes and at most 65536 inodes, which mkfs does not check either.
- FileSystem.FileSystem.FileWrite: does not model other processes writing the same file between two of its transactions.
- FileSystem.FileSystem.IPut: takes the reference count as an argument and does not model its decrement.
- FileSystem.FileSystem.IAlloc: does not model iget's search for a slot of the inode table, or its panic when none is free.
- Kalloc.FreeList.KFree: does not model the junk fill of the page; AddressSpace.Memory.KFree does.
- DirFile.CreateNew: states its result for file systems of at most 65536 inodes, which is what a directory entry can name, and does not model device numbers.
- DirFile.Unlink: assumes directories of whole entries, which every operation keeps; DirLookup covers others.
