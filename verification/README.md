# A verified model of the kernel's file system, scheduler, frame allocator and shell paths

The project models the parts of the kernel that keep data structures consistent over time, as Dafny
classes and methods that follow the C code branch by branch, and proves what the code is for.

**The file system** (`src/ext2.c`, the bulk of the project). The disk is a sequence of 8192 blocks of 512 bytes.
`Volumes.Volume` holds the disk and the two structures the driver caches, the superblock counters and the
descriptor table, plus ghost maps: live inodes, the block tree of each, the owner of every used block, the records
of every directory, and the directory each inode is listed in. The layers are bytes and bitmaps, space accounting,
block trees, allocation, loading, the directory cursor, inode slots, deallocation, byte-level directory records,
directory search and update, and the calls `write`, `read`, `delete`, `delete_recur_dir`, `exist_ext2` and `split_path`.

One predicate, `Invariant.Valid`, says what a mounted file system is: every set bit of a block bitmap is reserved or
owned by exactly one live inode's tree; each group counter equals its number of clear bits and the superblock
counter runs a fixed distance ahead of their sum; the inode table and inode bitmaps say exactly what the live inodes are;
every directory's blocks hold its record chain; and the directory graph is a tree, without cycles, in which every record leads to a live
inode of the right type, with unique keys, a right "." and a right "..". `Corruption.OneReading` shows that a disk is a file system in at
most one way, so the ghost maps add nothing to it; `Corruption.Broken` says that it is none in any way.

`Format.CreateExt2` establishes the invariant from any image. `FileSystem.Write` keeps it exactly where `Safe` holds, a condition on free
blocks and room in the parent, and otherwise leaves a broken disk. `ReadDelete.Delete` keeps it exactly where the record can be unlinked
(`Directory.Unlinks`), and otherwise leaves a broken disk as well. The outcome of `RecursiveDelete.DeleteRecurDir` is exact, for a parent of any length, where the
directories going away are held in one block and list plain names. `Format.Restart` keeps the invariant exactly where the descriptor table
on disk agrees with the bitmaps.

**The scheduler** (`src/scheduler.c`, `src/process.c`, the timer and create cases of `src/interrupt.c`). The class
`Kernel.ProcessTable` runs on arrays and a ring buffer; each method is proved equal to a step of the machine in `Scheduler`,
and `SchedulerRuns` proves the laws of whole runs against a log of what can be seen from outside.

**Page frames** (`src/paging.c`) and the **shell's path printer and tokenizer** (`src/user-shell.c`) are modelled the same way. `Isolation`
runs scheduler and page frames together: no two processes ever share a frame, and each starts with interrupts on, in user mode, on pages of its own.

## What the proofs found in the code

Where the code does not do what it is for, a lemma gives the exact condition and a run or lemma gives an input.

- `write` checks for free blocks with the data blocks alone (src/ext2.c:305), but `allocate_additional_block` refuses whenever
  fewer than four are free. With fewer than n + 3 + ptr(n - 1) free, a write of n blocks silently stores a prefix
  and still answers 0 or 1. Condition: `Allocation.SpaceLaw`, `Allocation.CheckedButShort`. Inputs: `Allocation.OneOfFour`, `Witnesses.FullDisk`.
- A new directory that can be listed but finds fewer than four free blocks gets no block for its dots; `write` answers 0 and leaves a
  directory of size 0, which nothing can be made of. Condition: `FileSystem.Write`. Input: `Witnesses.FullDisk`, a fresh disk filled by one file.
- `add_directory_entry` answers 2 both for "name exists" and for "no free block" (src/ext2.c:967, src/ext2.c:974). A new directory in a full
  parent is then reported as existing and nothing happens. For a new file `write` goes on as if replacing the file with the number of a free
  inode (src/ext2.c:337-343): it frees what the stale slot names, stores the data, and answers 1. The result is never a file system: if a used block was
  freed, the books no longer balance (`Corruption.BlocksConserved`), and if none was, an inode is in use that no directory lists
  (`Corruption.StrayBroken`). Condition: `FileSystem.Write`. Input: `Witnesses.FullRoot`.
- `delete` passes over the last record of every directory block but the last without looking at its name (src/ext2.c:1018-1021), so that file
  cannot be deleted and the answer is "not found". Condition: `Directory.FindDeleted`. Input: `Witnesses.Undeletable`, two long names in the root.
- `delete` adds the distance of a record to that of its predecessor, but takes the test for the end of the directory from the predecessor's block, which is the
  block before when the record is the first one visited in its own (src/ext2.c:1033-1037). If the record is the last of the directory, its predecessor still leads to
  it although its inode is zeroed, or the chain ends before the last block; if it is not, and the bytes of the other block happen to be zero there, all records behind
  it are lost. The answer is 0 each time. So a name that was just listed in a new block of its parent cannot be deleted without breaking the parent. Condition: `Directory.Unlinks`, in
  `ReadDelete.Delete` and `ReadDelete.WriteThenDelete`. Inputs: `Witnesses.DeadName`, and
  `Witnesses.LosesTheRest`, where deleting the third of four files loses the fourth.
- `create_ext2` writes the descriptor table before it takes the root's block (src/ext2.c:189-194), so the table on disk counts one block too many until the
  first successful write or delete. Starting again before that loads a counter the bitmap does not bear out. Condition: `Format.Restart`, with
  the last clauses of `FileSystem.Write` and `ReadDelete.Delete`. Input: `Format.FormatThenRestart`.
- The superblock is read at start-up but not kept (src/ext2.c:203), so its free counter starts over at 8182; the distance to the
  true number differs from run to run but is constant within one (`Format.Reloaded`).
- `split_path` cuts the last component to 255 bytes, so for a longer one the leaf may resolve although the path does not. Condition:
  `Paths.SplitResolves`. Input: `Witnesses.LongName`. On a path of slashes alone it scans off the front of the string, which `copy_cp` hands it unchecked
  (src/ext2.c:1207-1209). Condition: `Paths.SplitPath`. Input: `Paths.SplitSlash`.
- `scheduler_save_context_to_current_running_pcb` tests for `TERMINATED` (src/scheduler.c:45-64), but the scan that finds the process stops only at
  `RUNNING` or `NEW`, so the clean-up branch is never taken.
- With N processes not every process is dispatched within N ticks: one that is running now, unless it is the boot process, runs again
  at tick N + 1. Condition: `SchedulerRuns.WithinRound`. Input: `SchedulerRuns.RunningWaits`, two processes after two ticks.
- The system call that starts a program queues "the latest process" also when the creation failed (src/interrupt.c:228-234). That always breaks the scheduler's
  invariant: the youngest process is queued a second time, and while only the boot process exists all sixteen slots are queued, since the pid of an
  unused slot is 0 as well. Condition: `Kernel.ProcessTable.SpawnSyscall`, `Scheduler.FailedQueues`. Input: `Scheduler.StraySlotRuns`, where the third tick hands the
  processor to an unused slot.
- A creation that fails keeps its page directory, and exactly if the program could not be read two frames as well. Condition: `Kernel.FailureLosesMemory`. Input:
  `Isolation.UnreadableLoses`, right after start-up.
- `paging_allocate_user_page_frame` does not look at the old entry: mapping over a user page loses its frame, and only that
  does. Condition: `Paging.TakeLeaks`. Input: `Paging.RemapLeaks`. So does clearing a directory with user pages left in it. Condition:
  `Paging.SetTableLeaks`. Input: `Paging.ReleaseLeaks`.

## Model

| member | source | states |
|---|---|---|
| Bitmap.FlipByteBit | src/ext2.c:664-682 | adding or subtracting a mask flips one bit of a byte and moves no other |
| Bitmap.SetBit | src/ext2.c:664-674 | exactly the addressed bit changes; bits past the group are ignored |
| Bitmap.BitPower | src/ext2.c:664-674 | bit i of a group is binary digit i mod 8 of byte i / 8 |
| Bitmap.CountAfterSet | src/ext2.c:685-706 | flipping one bit moves the number of clear bits by one, or not at all if it had that value |
| Bytes.LowByteFirst | src/header/filesystem/ext2.h:115-152 | words and half words are stored low byte first |
| Bytes.PtrBytes | src/ext2.c:586-610 | pointer i of a pointer block takes its bytes 4 i to 4 i + 3 |
| Geometry.SlotInTable | src/ext2.c:748-761 | every inode slot fits in one reserved block that is no group's bitmap |
| Geometry.SlotsDisjoint | src/ext2.c:53-59 | different inode numbers have disjoint slots |
| Geometry.SlotsInOrder | src/ext2.c:53-59 | slots lie one behind the other in the order of inode numbers, seven to a block |
| Inodes.DecodeEncoded | src/ext2.c:534-556 | a 70-byte inode written into a table block reads back as it was |
| Inodes.StoreInodeEffect | src/ext2.c:534-556 | slots are independent registers: a store sets its own inode and changes no other, and no bitmap bit |
| Inodes.MarkInodeEffect | src/ext2.c:534-556 | setting an inode's bit changes no other inode's bit and no slot |
| InodeTable.ReadInode | src/ext2.c:748-761 | reading through the descriptors gives the inode in the slot |
| InodeTable.SyncNode | src/ext2.c:534-556 | marks and stores exactly one inode, ignores numbers out of range, takes one off the wrapping inode counters, and leaves every data block and the accounting of blocks alone |
| InodeTable.SyncEffect | src/ext2.c:534-556 | after a sync, that inode reads as stored and its bit is set; every other inode and bit is as before |
| InodeTable.AllocateNode | src/ext2.c:407-427 | the first inode that is clear in a group whose counter is not zero; 0 only if there is none |
| Space.MarkKeepsSpace | src/ext2.c:685-706 | taking or returning one block keeps group counter, superblock counter and bitmaps in agreement |
| Volumes.Volume.constructor | src/ext2.c:64-80 | the driver's static data at start: 8182 free blocks and 1791 free inodes whatever the image, and a zeroed descriptor table |
| Volumes.FindFreeInGroup | src/ext2.c:685-707 | takes the first free block of the group and counts it; 0 exactly when the group is full |
| Volumes.FindFreeAnywhere | src/ext2.c:709-723 | 0 exactly when the disk is full; else takes the lowest free block of the preferred group, or, where that is full or no group, the lowest free block of the disk |
| Volumes.LocalTake | src/ext2.c:709-723 | a block taken so comes from the preferred group as long as that had one left |
| Volumes.LocalTrans | src/ext2.c:709-723 | and so do any number of blocks taken one after the other |
| Volumes.ExistFreeBlocks | src/ext2.c:725-744 | true exactly when at least n blocks are free, on all groups together |
| BlockTree.GrowOk | src/ext2.c:763-873 | a tree grown by fresh blocks is well formed and holds exactly the old and the fresh blocks |
| BlockTree.InsertedPtrs | src/ext2.c:789-873 | after the pointer writes of one append, the pointer blocks on disk hold the grown tree, packed to the left |
| BlockTree.TreeBound | src/ext2.c:763-787 | no file comes near the end of the doubly indirect range on this disk |
| Ownership.GrowOwned | src/ext2.c:763-873 | growing one tree by blocks that were free keeps every block owned by exactly one inode and every other tree intact |
| Allocation.TryInsert | src/ext2.c:812-838 | walks down the last used pointers and stores the block in the first empty slot, exactly when the last pointer block has room |
| Allocation.BuildPointerChain | src/ext2.c:794-806 | a chain of fresh pointer blocks each holding one pointer, the last one reached first, ending in the inserted block |
| Allocation.AppendPointer | src/ext2.c:855-871 | the new leaf pointer block goes into the first empty slot of the doubly indirect block |
| Allocation.AllocateIndirect | src/ext2.c:789-873 | hangs the block onto this level, or answers 0 without any change when the level is full |
| Allocation.AppendBlock | src/ext2.c:763-787 | refuses exactly when fewer than four blocks are free, without a change; else the tree in the inode and on disk grows by the returned block and the pointer blocks it needs, all free before, and of the used blocks only one pointer block changed; the returned block is the next one of the preferred group, and as long as that group has room all others come from it as well |
| Allocation.AllocateAdditionalBlock | src/ext2.c:763-787 | the same on a live inode: the whole store stays owned, every other tree untouched, the block the next one of the preferred group |
| Allocation.StoreBlocks | src/ext2.c:520-532 | the inode's blocks hold the leading blocks of the source in order, as many as `Stored` says; its tree is exactly the blocks newly taken, and nothing that was in use changed; a file that fits into the preferred group with its pointer blocks lies in it, and starts at its lowest free block |
| Allocation.LocalGroup | src/ext2.c:520-532 | a tree that takes no more blocks than its preferred group had lies in that group |
| Allocation.StoredOwned | src/ext2.c:520-532 | what was stored under a live inode without blocks is owned by it, and every other tree is still in place |
| Allocation.SpaceLaw | src/ext2.c:520-532 | m blocks get stored exactly when m + 3 + ptr(m - 1) blocks were free; n stored blocks cost n + ptr(n) |
| Allocation.OneOfFour | src/ext2.c:303-305 | four blocks wanted and four free: the check passes and one block is stored |
| Allocation.CheckedButShort | src/ext2.c:303-305 | a write that passed the space check stays short exactly when three more blocks and the pointers were not free |
| Loading.LeavesAppend | src/ext2.c:586-610 | following pointers left to right is a homomorphism, at every depth |
| Loading.LoadBlockData | src/ext2.c:586-610 | the recursive reader delivers the bytes below a pointer, up to the buffer size, at every depth, and touches nothing else |
| Loading.FlattenIsData | src/ext2.c:561-610 | following an inode's fifteen pointers yields exactly its tree's data blocks in file order |
| Loading.LoadInodeData | src/ext2.c:561-584 | nothing happens when the buffer is too small; else the whole file arrives in order and the rest of the buffer is untouched |
| Cursor.LoadIndirectBlock | src/ext2.c:638-661 | through the cached pointer blocks, reloading the inner one only at multiples of 128, the expected block is found |
| Cursor.LoadNextBlock | src/ext2.c:612-636 | called for one block after the other, the cursor returns and loads block k of the file, across all three ranges |
| Deallocation.FlushedMark | src/ext2.c:491-517 | clearing a bit in the carried bitmap is clearing it on the disk as it will be after the write-back |
| Deallocation.FlushedSwitch | src/ext2.c:491-517 | writing the carried bitmap back and loading another group's changes nothing of that disk |
| Deallocation.ClearAllEffect | src/ext2.c:470-517 | clearing a list of used blocks one by one frees exactly those and raises the free count by their number |
| Deallocation.DeallocateOne | src/ext2.c:491-517 | freeing one block after everything below it, with one carried bitmap, is clearing each of those bits by itself, whether the blocks were in use or not; the counters rise once per block, by `Spent` too often for those that were free |
| Deallocation.SpentFreeable | src/ext2.c:491-517 | freeing blocks that are in use, none twice, keeps the counters exact |
| Deallocation.DeallocateBlocks | src/ext2.c:491-517 | the same for a list of pointers at any depth; all counters follow |
| Deallocation.TreeOrderOk | src/ext2.c:429-466 | the order of freeing lists every data and pointer block of the tree exactly once |
| Deallocation.DeallocatePointers | src/ext2.c:429-466 | the loop over the fifteen pointers up to the first zero one clears exactly the bits below them |
| Deallocation.StopIsTree | src/ext2.c:429-466 | on an inode that holds a tree, what the loop frees is the tree, in its order |
| Deallocation.GiveBack | src/ext2.c:429-466 | on any inode slot whose pointers lead to allocatable blocks, stale or live, the bits of all of them and the inode's bit are cleared and nothing else; every slot keeps its bytes |
| Deallocation.DeallocateNode | src/ext2.c:429-466 | the disk is the one with each owned bit cleared and the inode's bit cleared; group and superblock counters rise by exactly the blocks owned; no other inode or data block changes |
| ReadDelete.StoreThenFree | src/ext2.c:429-532 | freeing what was just stored restores the use of every block |
| DirRecords.AppendInPlace | src/ext2.c:986-998 | the bytes written in place turn the chain into the chain plus one record |
| DirRecords.AppendNewBlock | src/ext2.c:971-985 | the bytes written across a block boundary do the same, and no record straddles a block |
| DirRecords.RemoveRec | src/ext2.c:1027-1038 | in directories of any length, bridging over a record turns the chain into the chain without it, in the old order, also across a block boundary |
| DirRecords.DeadRecord | src/ext2.c:1027-1038 | bytes in which a record with a zeroed inode is still reached hold no chain under any record sequence |
| DirRecords.CutOff | src/ext2.c:1033-1034 | neither do bytes whose chain ends before the last block |
| Directory.UnlinkedChain | src/ext2.c:1027-1038 | the bytes the code writes, in one block or two, hold the chain of the other records exactly if `Unlinks` holds, and otherwise none |
| Directory.FindEntry | src/ext2.c:903-938 | finds the first record with the key, and reports absence exactly when there is none |
| Directory.FindEnd | src/ext2.c:953-968 | reaches the record with the key or else the last record, its block and its offset |
| Directory.AddEntry | src/ext2.c:940-1001 | 2 without a change if the key is present or no block can be had; else appends exactly one record and leaves every other file alone: right behind the last one exactly if offset and both record lengths stay within 512 bytes, otherwise at the start of a new block, the next one of the group the directory starts in |
| Directory.AppendKeepsKeys | src/ext2.c:965-968 | keys stay unique |
| Directory.IsDirectoryEmpty | src/ext2.c:213-230 | true exactly when no record but the two dots is left |
| Directory.FindDeleted | src/ext2.c:1016-1060 | over all blocks of the directory, finds the first record with the key that is not the last of a block before the last, and its predecessor in this block or an earlier one; nothing exactly when there is no such record |
| Directory.OneBlockSeen | src/ext2.c:1016-1060 | in a directory of one block nothing is passed over and unlinking works |
| Directory.DeleteEntry | src/ext2.c:1003-1063 | on success removes exactly the first record with the key that the search sees and keeps the order of the rest, or leaves no chain at all, as `Unlinks` says; 1 exactly if it sees none, 2 for a directory with children, both without a change |
| Directory.DotBlockChain | src/ext2.c:875-897 | the first block of a directory holds exactly "." and ".." |
| Directory.InitDirectoryTable | src/ext2.c:875-897 | with four blocks free, the new directory gets one block holding the two dots, the lowest free one of its inode's group; with fewer it gets none |
| Metadata.DecodeEncodedTable | src/ext2.c:1084-1095 | the descriptor table survives being written out and read in |
| Metadata.DescLayout | src/header/filesystem/ext2.h:115-152 | the six fields of a descriptor lie one behind the other from byte 0, and the rest of its 32 bytes is zero |
| Metadata.UpdateBgdt | src/ext2.c:1084-1095 | every group's copy of the table is written, nothing else |
| Metadata.DecodeEncodedSuper | src/ext2.c:1096-1101 | both counters are read back from the superblock as written out |
| Metadata.SuperLayout | src/ext2.c:64-80 | the superblock block: inode and block totals, the two counters, the fixed fields and the magic number 0xEF53 at their offsets, zero behind them |
| Metadata.FlushHeaders | src/ext2.c:361-363 | afterwards table and counters on disk are the cached ones; no block but the headers changed |
| Metadata.ReloadTable | src/ext2.c:206-209 | the cached table becomes the one on disk |
| Metadata.HeadersHarmless | src/ext2.c:1084-1101 | writing headers touches no data block, inode or bitmap |
| Invariant.TidyAdd | src/ext2.c:291-370 | listing a fresh inode keeps the directory graph a tree without cycles or dangling records |
| Invariant.TidyRemove | src/ext2.c:372-402 | so does unlisting a file or an empty directory |
| Invariant.UpToRoot | src/ext2.c:291-370 | going up from any live inode, directory by directory, ends at the root |
| Corruption.BlocksConserved | src/ext2.c:429-556 | on every file system the blocks the inodes count, the free ones and the reserved ones make up the disk |
| Corruption.LayoutUnique | src/ext2.c:561-610 | an inode and the disk determine the tree of blocks |
| Corruption.ChainUnique | src/ext2.c:903-938 | the bytes of a directory determine its records |
| Corruption.OneReading | src/ext2.c:291-402 | a disk is a file system in at most one way: inodes, trees, owners, directories and their nesting can be read off it |
| Corruption.EmptyDirBroken | src/ext2.c:355-357 | a disk with a used directory inode of size 0 is no file system under any reading |
| Corruption.NoChainBroken | src/ext2.c:1027-1038 | neither is one on which the blocks of a used directory inode hold no chain |
| Corruption.StrayBroken | src/ext2.c:337-363 | storing a file under a free inode no directory lists, after freeing whatever its stale slot names, leaves a disk that is no file system under any reading |
| FileSystem.Finish | src/ext2.c:359-363 | both inodes are stored and marked, the headers flushed; every other slot, bit and data block is as before |
| FileSystem.FinishedValid | src/ext2.c:359-363 | that makes disk and memory agree again, with every file the same |
| FileSystem.OverwriteFile | src/ext2.c:337-363 | a replaced file holds the new blocks under its old inode, reusing its own freed space, and every other file is the same; called with a free inode, as for a name that could not be listed, it leaves a broken disk |
| FileSystem.StoreNew | src/ext2.c:345-363 | a newly listed name gets its inode and its blocks, a directory its dots, and the invariant holds again; a directory that finds fewer than four free blocks leaves a broken disk |
| FileSystem.Write | src/ext2.c:291-370 | the result is a file system exactly when the call was safe, and otherwise none under any reading; the code, test by test, 0 exactly if the name is new and its record fits or four blocks are free; what is new, replaced or unchanged; which prefix of the data is stored, and that a file lies in its parent's group and a directory in its own where there was room; every other inode and file is as before; when the table on disk is current |
| ReadDelete.Read | src/ext2.c:260-289 | each code by its condition; on success the buffer starts with the whole file and is otherwise untouched |
| ReadDelete.ReadBack | src/ext2.c:520-610 | what allocation stored is what the reader delivers |
| ReadDelete.WriteThenRead | src/ext2.c:260-370 | writing a file, new or existing, and reading it with a large enough buffer gives back all `size` bytes, stored in fewer than `size` + 512, exactly when n + 3 + ptr(n - 1) blocks were free for the n with 512 (n - 1) < size <= 512 n; otherwise a prefix; for every safe write |
| Laws.WriteThenExist | src/ext2.c:291-370 | a name just written is what its path leads to: a directory with code 0, a file with code 1 unless a directory of the same name is listed, which is found first |
| Laws.ListNames | src/ext2.c:940-1001 | files listed one after the other in a fresh directory keep it in one block exactly as long as 24 and the lengths of their records add up to at most 512 |
| ReadDelete.WriteThenDelete | src/ext2.c:291-402 | writing a new file or directory and deleting it, both with code 0, restores inodes, trees, directories and block use exactly if the record fitted behind the last one of the parent; otherwise the disk is broken |
| ReadDelete.Delete | src/ext2.c:372-402 | in parents of any length: each code by its condition; after a success the disk is a file system exactly if unlinking works, and then record, inode and blocks are gone, the free count rises by exactly its blocks, and every other file is as before; otherwise it is none under any reading; the table on disk is current exactly if it was or something was deleted |
| ReadDelete.OwnedOnce | src/ext2.c:685-706 | an allocatable block is used exactly when some inode's tree holds it, and no two trees share a block |
| ReadDelete.AddThenTake | src/ext2.c:940-1063 | as records: unlisting the record last listed gives the directories as they were (for the code, see WriteThenDelete) |
| Format.FreshSpace | src/ext2.c:120-178 | after laying out the groups all counters agree with the bitmaps and no allocatable block is used |
| Format.LayOut | src/ext2.c:114-178 | headers and bitmaps of an empty store with 7886 free blocks |
| Format.MakeRoot | src/ext2.c:180-196 | the root is inode 2, a directory of one block, block 21, whose dots lead to itself |
| Format.RootBlock | src/ext2.c:180-196 | on a freshly laid out disk the next block of group 0 is block 21 |
| Format.CreateExt2 | src/ext2.c:93-196 | from any image to a valid file system that holds just the root, in block 21, with a table on disk that disagrees with the bitmaps |
| Format.Initialize | src/ext2.c:198-211 | formats exactly the disks without the signature |
| Format.FreeBound | src/ext2.c:169-178 | reserved blocks keep the free count of the first n groups at most 493 n - 2 |
| Format.Reloaded | src/ext2.c:198-211 | the accounting of a session that ended carries over to the next one exactly if the table on disk agrees with the bitmaps, with another distance of the superblock counter |
| Format.TableFellBehind | src/ext2.c:189-194 | once the free total has moved on, a table that agreed no longer does |
| Format.FirstStart | src/ext2.c:198-201 | starting on an image without the signature yields a valid file system |
| Format.Restart | src/ext2.c:198-211 | shutting down and starting again yields the same file system exactly if the table on disk agrees, as it does once it is current |
| Format.FormatThenRestart | src/ext2.c:189-211 | formatting and starting again before anything was written does not yield a valid file system |
| RecursiveDelete.SpansUnique | src/ext2.c:1478-1553 | the tree below an inode is determined by the directories |
| RecursiveDelete.SiblingsDisjoint | src/ext2.c:1478-1553 | the trees below two children share no inode |
| RecursiveDelete.ParentOutside | src/ext2.c:1478-1553 | a directory is not among its own descendants |
| RecursiveDelete.ReadDirectory | src/ext2.c:234-258 | each code by its condition; loads the child directory, or the directory itself for a name that starts with a dot; the buffer is untouched on every other code and for a child larger than it |
| RecursiveDelete.EverySpans | src/ext2.c:1478-1553 | in a tidy graph a finite tree hangs below every live inode |
| RecursiveDelete.DeleteChild | src/ext2.c:1514-1528 | one round removes one child with everything below it |
| RecursiveDelete.DeleteChildren | src/ext2.c:1499-1537 | walking a copy of the directory while the directory shrinks removes every child exactly once |
| RecursiveDelete.DeleteTree | src/ext2.c:1478-1553 | on a given finite tree, terminates: -1 without a change for a parent over sixteen blocks; 1 with everything below gone but the directory itself where its record is passed over; else 0, with the whole tree and its record gone and every other inode, file and directory as it was if unlinking works, and a broken disk if not |
| RecursiveDelete.DeleteRecurDir | src/ext2.c:1478-1553 | the same with nothing known of the tree but that its directories are held in one block and list plain names: -1 exactly for a parent over 8192 bytes, else 1 exactly where the next record starts another block; the table on disk is current after code 0 |
| RecursiveDelete.GoneFrees | src/ext2.c:1478-1553 | exactly the blocks and inode bits of the tree were freed |
| Paths.ComponentsConcat | src/ext2.c:1139-1148 | a slash anywhere separates: components of the two sides, one after the other |
| Paths.ComponentsToken | src/ext2.c:1139-1148 | a piece without slashes is its own only component |
| Paths.ComponentsSlashes | src/ext2.c:1139-1150 | repeated and trailing slashes make no difference |
| Paths.LookupEntry | src/ext2.c:1157-1171 | one search is one lookup in the record sequence; names over 255 bytes are never found |
| Paths.Exist | src/ext2.c:1122-1193 | code and inode, outcome by outcome, are those of looking up the components one after the other, for every path under 512 bytes |
| Paths.SplitPath | src/ext2.c:1555-1583 | on any path: inside its arrays exactly if the path has a component and the last one starts before byte 512; then both buffers hold C strings: everything before the last component, or "./", and the last component onwards, cut at 255 |
| Paths.SplitResolves | src/ext2.c:1555-1583 | where the parent half leads to a directory, the path leads where the leaf leads from it, exactly unless a component over 255 bytes shadows a name |
| Paths.CutUnique | src/ext2.c:1555-1583 | where the last component starts is determined by the path |
| Paths.SplitSlash | src/ext2.c:1555-1583 | the path "/" is not read in bounds |
| Witnesses.FullDisk | src/ext2.c:291-370 | from any unformatted image, a file over all free blocks and then a directory: the file is stored short, the directory answers 0, the disk is broken |
| Witnesses.FullRoot | src/ext2.c:291-370 | from any unformatted image whose inode table blocks are zero, a file over all free blocks and then a second one whose name needs a new block of the root: the answer is 1, the disk is broken |
| Witnesses.Undeletable | src/ext2.c:372-402 | two files with 255-byte names in a fresh root: deleting the first answers 1 although it is listed |
| Witnesses.DeadName | src/ext2.c:372-402 | deleting the second instead, right after it was written, answers 0 and leaves a broken disk |
| Witnesses.FourListed | src/ext2.c:971-998 | the bytes of a root after four names, of 216, 255, 1 and 1 bytes, were listed in turn |
| Witnesses.LosesTheRest | src/ext2.c:1027-1038 | on these, deleting the second works, and then deleting the third cuts the fourth off: no chain of records is left |
| Witnesses.LongName | src/ext2.c:1555-1583 | a path of 256 bytes leads nowhere, its split-off leaf leads to a file |
| Processes.Ring.constructor | src/scheduler.c:21-24 | an empty ring |
| Processes.Ring.Enqueue | src/scheduler.c:4-11 | appends at the end, refused exactly with 31 waiting |
| Processes.Ring.Dequeue | src/scheduler.c:12-19 | takes the oldest, refused exactly when empty |
| Kernel.ProcessTable.constructor | src/process.c:12-17 | the zeroed static tables |
| Kernel.ProcessTable.InactiveIndex | src/process.c:23-39 | the first unused slot; -1 exactly if there is none |
| Kernel.ProcessTable.CurrentRunning | src/process.c:41-51 | the first used slot that is running or new |
| Kernel.ProcessTable.CreateUserProcess | src/process.c:77-176 | the code, step by step; on success the first unused slot holds a new process that starts at its entry with interrupts on, user selectors, the top of user memory as its stack and clear registers, in a directory that was unused; on failure the slot is cleared again |
| Kernel.LoadProcess | src/process.c:95-144 | directory and frames afterwards, for every way it can end |
| Kernel.CreateMemorySound | src/process.c:95-144 | whatever the outcome, frames stay counted, backed and exclusive |
| Kernel.CreateMemoryMaps | src/process.c:95-144 | on success the new directory holds the kernel, the page of the entry and that of the stack; every other directory is as it was |
| Kernel.FailureLosesMemory | src/process.c:95-144 | the code is 0, 3 or 4; the directory was unused and stays taken even on failure; of the failures exactly an unreadable program loses frames, two of them |
| Isolation.UnreadableLoses | src/process.c:95-144 | right after start-up an unreadable program costs a directory and two frames |
| Kernel.ProcessTable.SchedulerInit | src/scheduler.c:26-38 | queues the first new slot |
| Kernel.ProcessTable.Boot | src/kernel.c:208-210 | set-up ends in the boot state, which meets the invariant, with the shell ready to start |
| Kernel.ProcessTable.SaveContext | src/scheduler.c:40-65 | the current process keeps the context, becomes ready and queues up; without one nothing happens |
| Kernel.ProcessTable.SwitchToNext | src/scheduler.c:67-87 | the head of the queue runs and its context is handed over; an empty queue falls back on the latest pid |
| Kernel.ProcessTable.TimerInterrupt | src/interrupt.c:58-72 | scan, save and switch together are one step of the abstract machine, and keep its invariant |
| Kernel.ProcessTable.SpawnSyscall | src/interrupt.c:228-234 | on success creation and the loop over equal pids together queue exactly the new process, ready to start, and keep the invariant; on failure the invariant is lost; address spaces stay separate in both cases |
| Scheduler.GoodBoot | src/scheduler.c:26-38 | the invariant holds after set-up |
| Scheduler.GoodTick | src/scheduler.c:40-87 | every tick keeps it |
| Scheduler.GoodSpawn | src/interrupt.c:228-234 | every creation keeps it |
| Scheduler.FailedQueues | src/interrupt.c:228-234 | a failed creation queues the youngest process again, or all sixteen slots while the boot process is alone, and no number of dispatched processes meets the invariant |
| Scheduler.StraySlotRuns | src/scheduler.c:40-87 | after that, the third tick runs an unused slot with an empty context, and no running process is found |
| Scheduler.TickRotates | src/scheduler.c:40-87 | a tick moves the first token to the end, and that process runs |
| Scheduler.HeadInOrder | src/scheduler.c:67-78 | the next process to run has run before or is the lowest that has not |
| SchedulerRuns.RunAgrees | src/scheduler.c:40-87 | in every run the table holds for every process what the log says it has to resume with, and the scan finds the process on the processor |
| SchedulerRuns.RunIsFaithful | src/interrupt.c:60-71 | every dispatch hands over the state captured at that process's last preemption, or its start, in its own page directory |
| SchedulerRuns.OneRunning | src/process.c:41-51 | after the first tick exactly the process on the processor is marked running, and the scan finds it |
| SchedulerRuns.NewAbove | src/process.c:41-51 | slots that never ran lie above all that did |
| SchedulerRuns.Conserved | src/scheduler.c:4-38 | queue and running process are every process once and the boot process once more; the ring is never full |
| SchedulerRuns.TicksRotate | src/scheduler.c:40-87 | t ticks rotate the tokens t times |
| SchedulerRuns.RoundRobin | src/scheduler.c:67-87 | the t-th tick dispatches token t - 1, modulo N + 1 |
| SchedulerRuns.WithinRound | src/scheduler.c:67-87 | within N ticks exactly the processes other than a running non-boot one are dispatched; tick N + 1 returns to the running one |
| SchedulerRuns.RunningWaits | src/scheduler.c:67-87 | with two processes after two ticks the second one runs and neither of the next two ticks dispatches it |
| Isolation.RunSeparated | src/process.c:53-176 | in every run of ticks and successful program starts, every process has a page directory of its own that holds the kernel, its program and its stack, one that never ran is ready to start, and page tables are sound |
| Isolation.NoSharedFrame | src/paging.c:60-203 | at every moment of every such run, two different processes have no frame in common |
| Isolation.ReadyToStart | src/process.c:146-168 | at every moment of every such run a process that was never dispatched has interrupts enabled, privilege level 3 in its selectors, and user mappings of its own at its entry and its stack pointer |
| Isolation.OwnPages | src/process.c:95-144 | at every moment every process can write the page of its program and that of its stack, and the kernel is mapped for it but not for user code |
| Paging.PageManager.constructor | src/paging.c:7-32 | no frame used; the kernel mapped twice |
| Paging.PageManager.UpdateEntry | src/paging.c:34-44 | flags and address of one entry change |
| Paging.PageManager.AllocateFrame | src/paging.c:60-98 | the first unused frame becomes used, counted and mapped present, writable, for users and as a large page; false exactly when none is left |
| Paging.PageManager.FreeFrame | src/paging.c:100-128 | exactly user mappings are unmapped and their frames returned |
| Paging.PageManager.CreateDirectory | src/paging.c:151-186 | the first unused directory, holding the kernel entry alone: present, writable, large and not for users |
| Paging.PageManager.FreeDirectory | src/paging.c:188-203 | clears and returns a directory of the list, and no other |
| Paging.PowerOnSound | src/paging.c:7-32 | the static data meets the invariant and loses no frame |
| Paging.TakeSound | src/paging.c:60-98 | mapping the first unused frame keeps the counter right, user mappings backed, writable and large, and no frame mapped twice in any address spaces |
| Paging.GiveSound | src/paging.c:100-128 | so does unmapping |
| Paging.SetTableSound | src/paging.c:151-203 | so do creating and releasing directories, which hold no user mapping afterwards |
| Paging.TakeThenGive | src/paging.c:60-128 | mapping and unmapping restores frame map and counter, and the whole state exactly when the entry was clear |
| Paging.TakeLeaks | src/paging.c:60-98 | mapping loses a frame exactly when the page was mapped before |
| Paging.RemapLeaks | src/paging.c:60-98 | a run that loses a frame by mapping the start-up page again |
| Paging.ReleaseLeaks | src/paging.c:151-203 | a run that loses a frame by creating a directory, mapping a page in it and giving it back |
| Paging.GiveKeepsTrack | src/paging.c:100-128 | unmapping loses none |
| Paging.SetTableLeaks | src/paging.c:151-203 | clearing a directory loses frames exactly when user pages were left in it |
| Paging.RunSound | src/paging.c:60-203 | in every state of every run from start-up, with the boot mapping, the counter is the number of unused frames, and user mappings are backed, exclusive, writable and large |
| Words.ParseInputAll | src/user-shell.c:352-397 | fills eight argument buffers of 255 bytes with exactly the words of the specification |
| Words.ReadWord | src/user-shell.c:365-394 | one word, up to the next quote or delimiter, cut at 254 bytes, and where reading goes on |
| Words.Shell.constructor | src/user-shell.c:47-52 | the shell starts in the root directory |
| Words.Shell.GetAbsolutePath | src/user-shell.c:461-471 | writes the names joined by slashes and nothing behind them |
| Words.Shell.GetAbsolutePathLength | src/user-shell.c:473-482 | exactly the length of what is written |
| Words.TokensWeight | src/user-shell.c:352-397 | words never take more room than the input, and all of it only if each came out as it stands |
| Words.TokensQuoted | src/user-shell.c:367-374 | a quoted word is one word, whatever spaces it holds |
| Words.TokensPlain | src/user-shell.c:375-394 | so is a word without delimiter that does not start with a quote |
| Words.PathRoundTrip | src/user-shell.c:352-482 | printing and splitting gives back the components exactly when there are at most 8, each non-empty, under 255 bytes, without slash and not starting with a quote |
| Words.QuotedRoundTrip | src/user-shell.c:367-374 | quoting keeps any words without quotes apart, also empty ones and ones with spaces |

## Left out

- FileSystem.Write: the parent inode number has to be live. Where a new file cannot be listed, the slot of the inode about to be handed out must lead to
  allocatable blocks only (`Tame`); past that the code frees reserved blocks or indexes its descriptor table out of range. A directory named "." is left out too.
- FileSystem.Write: the data buffer has to be as long as the size rounded up to a block, because the code reads whole blocks; sizes within 511 of 2^32 wrap to zero blocks as in the code.
- ReadDelete.WriteThenRead: for safe writes alone; after any other there is no file system to read from, as `FileSystem.Write` shows.
- ReadDelete.Delete: the names "." and ".." of a directory are left out. A record with inode 0 that is still reached counts as no chain, because every record has to lead to a live inode;
  the code's own searches step over it, but `is_directory_empty` counts it.
- ReadDelete.Read: the parent inode number has to be live. File sizes are multiples of 512 in this file system, so the exact byte length of a file is not stored.
- RecursiveDelete.DeleteRecurDir: the directories from the named one down are held in one block and no name in them starts with a dot or contains a zero byte. The
  parent, which stays, may have any length.
- RecursiveDelete.ReadDirectory: comparing the first byte of the name with a dot is modelled as the code does it, so ".x" loads the directory itself.
- Directory.IsDirectoryEmpty: the code reads the inode through an uninitialised pointer; the model reads it into a local value.
- Paths.SplitPath: the path is a string without zero bytes, and the buffers have 512 and 256 bytes, as all callers pass them.
- Paths.Exist: the starting directory has to be a live directory.
- Cursor.LoadNextBlock: past the last block of the file, and triple indirection, are not covered; the recursive reader and the freer are covered at every depth.
- Cursor.LoadIndirectBlock: depths 1 and 2, all that a file of this disk can have.
- Allocation.AllocateIndirect: depths 1 and 2 only, as the code calls it; the loop condition also allows a third level that the disk is too small to reach.
- Kernel.ProcessTable.CreateUserProcess: fewer than 16 processes, an entry below the kernel, and one free frame, which is what its check asks for; where one of these
  checks fails the code clears a process block through a pointer it never set. Names are not modelled, and whether the program can be read is a given code.
- Kernel.ProcessTable.SaveContext: the clean-up of terminated processes is unreachable and left out; `process_destroy` is not modelled.
- Format.Restart: the superblock is read from the disk into a buffer that is dropped, so only the descriptor table is modelled as reloaded.
- Volumes.Volume.constructor: the ghost number of blocks that will be free once the image is mounted only fixes the distance `lead` that the proofs speak about.
- Inode free counters and directory counters wrap and drift (`sync_node` takes one off at every sync); they are modelled where the code tests them, and no law is stated about them.
- The unused `deallocate_blocks` appears only as the specification `ClearAll`.
- `copy_cp`, `move_mv`, the shell commands, input editing, history, drawing and playback are not part of this model.
- Port I/O, the disk controller, interrupts as hardware, TLB and control registers are abstracted away; block reads and writes are those of `src/external-inserter.c`.
