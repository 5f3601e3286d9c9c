# rCore: file system, address spaces, synchronisation and byte channels, verified

A Dafny model of the parts of the rCore tutorial operating system that carry state across many
calls, with proofs that hold for every input and every run. It has four components.

**easy-fs.** The device is a sequence of 512-byte blocks. A write-back cache of 16 blocks with
pinning and FIFO replacement sits in front of it; bitmaps, inodes with direct, indirect and doubly
indirect blocks, and a flat root directory are kept in those blocks byte for byte. The main result,
`FsRun.FreshRun`, says that from a freshly formatted device every sequence of create, write, read,
clear, list and remount operations answers exactly as a map from names to byte sequences does, and
leaves an image in which no block is shared and none is leaked. It rests on `EfsState.Consistent`: the
set bits of the data bitmap are exactly the blocks owned by some inode, none is shared, free blocks are
zero, and every inode's block list holds its file padded with zeros, with zero in every slot past its
end. That the image is in the format of easy-fs is said a second time and independently: `DiskFormat`
reads sizes, kinds, bytes, bitmaps and directory entries from the raw bytes at their offsets, and
`FreshRun` ends with a device from which it reads exactly the files.

**Sv39 memory.** Physical memory is a sequence of 4096-byte frames. A three-level page table is a
tree of pointers inside it, and is proved to behave as a finite map from page numbers to entries;
areas, their frames and the frame allocator are tied together by an ownership invariant; `fork`
gives an isolated copy; user buffers are translated into the physical addresses of their bytes. The
main result, `MemoryRun.FreshRun`, says that over every run of forks, mappings, unmappings, stores
and loads by any number of address spaces each of them behaves as a private memory, and every frame
in use has exactly one owner. The entry format and the walk of the hardware (`Sv39`) are those of
section 4.4 of the RISC-V Privileged Architecture, version 20211203: in every state of a run the walk
reaches the bytes and permissions the model has for each space (`MemoryRun.HardwareSees`).

**Scheduler and synchronisation.** The kernel is not preempted, so a system call is one step up to
the point where it switches away, and what is left of it is another step. The step system has
blocking and spinning mutexes, semaphores, condition variables, sleepers and timer interrupts. Over
every run each task is in exactly one place, requests are served in order, semaphore counts are
exact, and as long as tasks unlock only what they are inside of, at most one task is inside a mutex.
The kernel's methods are proved to go through such runs, whatever is asked of them
(`SyncKernel.Processor.Drive`), and a nap lasts as long as it was asked for (`SyncKernel.NapLasts`). Two user programs run on top of it, for any number of participants
and every interleaving, other tasks included: the dining philosophers and the bounded buffer with
many producers. Besides their safety it is proved when they can be brought to their end: the bounded
buffer from every state it can reach, and the dinner, with some task besides the philosophers awake,
exactly when no philosopher has to wait for a nap that never ends.

**Byte channels.** The pipe's ring buffer is a queue of 32 bytes, and over every schedule of any
number of readers and writers working on it the bytes arrive once and in order
(`PipeDevice.RunPipe`); for a reader and a writer it is decided exactly when either call can return.
The arguments `exec` lays out on the user stack are the ones `_start` finds there.

## How to read it

Operations that change state are methods of classes, or methods that take the cache or the physical
memory as a parameter, each tied to a function of the old state; the properties are lemmas about
those functions and invariants every step keeps. Out-of-memory panics are results (`None`, or
`ok == false` together with the statement that no frame is left), other panics are preconditions.

Some invariants are written `forall k :: XOpened(k) ==> ...` with `XOpened` always true. This only
keeps the verifier from unfolding a definition where it is not wanted; `assert XOpened(0)` unfolds it.

Files, bottom up:

- `Options`, `Basics`, `Bytes`, `Sums`: shared vocabulary.
- `BlockCache`, `Bitmap`, `InodeIndex`, `SpareSlots`, `FileContent`, `DiskInodeOps`, `DiskInodeData`,
  `GrowClear`, `EfsLayout`, `EfsState`, `EfsAlloc`, `Directory`, `DiskFormat`, `Vfs`, `FsRun`: the file
  system.
- `PhysMemory`, `PageTable`, `Sv39`, `MapArea`, `MemorySet`, `Fork`, `UserBuffer`, `Spaces`, `SpaceOps`,
  `MemoryRun`: memory.
- `Timers`, `Scheduler`, `SchedulerSafety`, `MutexInside`, `MutexHandoff`, `Turns`, `CallMeaning`,
  `SyncKernel`: scheduling and synchronisation; `Philosophers`, `DinnerProgress`, `DinnerLost`,
  `Mpsc`, `ShopProgress`: the two programs.
- `Pipe`, `PipeRuns`, `PipeProgress`, `PipeDevice`, `ExecArgs`: byte channels.

## Where the code does not do what one might expect

- `DiskInode::write_at` has no exit for an empty range, unlike `read_at`: an empty write at the end
  of a file whose size is a multiple of the block size asks for a block the file does not own. As a
  rule the lookup finds an unfilled slot and answers block 0, of which nothing is then overwritten.
  But when the block is number 28 or 156 + 128 a, the index block it would be listed in does not
  exist either, the super block is read in its place, and its magic number is taken for a block; and
  past the last number there is no index at all. `SpareSlots.LookupAtEnd` and `Vfs.WriteLooksUp` give
  the exact condition; the file operations require it (`Vfs.Lands`) and that the result fits.
- A directory entry keeps 27 bytes of a name and reads it back up to the first zero byte:
  `Directory.DirentRoundTrip` says exactly which names survive.
- `TimerCondVar` compares negated deadlines in 64-bit arithmetic, so deadlines above 2^63 sort before
  all others (`Timers.ComparesDeadlines`), and `sys_sleep` accepts any length. The clock never gets
  there, so while one such deadline is in the heap no check wakes anybody: `Timers.WakesExactlyTheDue`
  and `Timers.WokenSometime` give the exact conditions, `Timers.DueNotWoken` is an instance. What is
  woken is always woken in the order of the deadlines (`Timers.WakesInOrder`).
- `unlock` does not ask who calls it. When a task unlocks a mutex it is not inside of, two tasks can
  be between their own `lock` and `unlock` at once: `MutexHandoff.TwoInside` is such a run,
  `MutexInside.StepAgrees` says exactly which calls lead there, and `MutexInside.OneInside` covers
  every run without them. `MutexHandoff.StepGranted` says exactly when an unlock takes a mutex away
  from a task that was handed it, and `MutexHandoff.RobbedOfTheMutex` is a run in which `lock`
  returns without the mutex.
- Timer interrupts are taken only while a task runs, so when all tasks sleep nobody is ever woken:
  `Turns.CanHappen` says exactly when anything can happen, `DinnerLost.AllAsleep` is a dinner that ends
  that way when there is no other task. The program's main task waits in a loop that gives way. With
  such a task awake the dinner can still be lost to a deadline above 2^63 of any task:
  `DinnerLost.CanFinish` is the exact condition, `DinnerLost.NeverWoken` an instance.
- The loop of `translated_byte_buffer` over a range that is not empty stops only if the range ends below
  2^39: `UserBuffer.LoopProgress`.
- A `read` or `write` on a pipe whose user buffer is exactly used up keeps waiting: the `done` clause
  of `Pipe.PipeRingBuffer.ReadBurst` and `WriteBurst` says exactly when a call returns, and
  `PipeProgress.ReadCanReturn` and `PipeProgress.WriteCanReturn` exactly when it ever can.
- `exec` and `_start` agree on exactly the argument lists without zero bytes:
  `ExecArgs.ArgumentArrives`.

## Model

| member | source | states |
|---|---|---|
| `BlockCache.VictimExists` | easy-fs/src/block_cache.rs:96-107 | a full queue with one copy per block and fewer than 16 pinned blocks has an entry that can be dropped, so the panic for a cache that has run out cannot happen |
| `BlockCache.EvictKeepsView` | easy-fs/src/block_cache.rs:96-107 | writing a victim back if modified and dropping it changes what no client sees of any block |
| `BlockCache.SyncKeepsView` | easy-fs/src/block_cache.rs:60-66 | writing an entry back changes no block as clients see it |
| `BlockCache.FetchedExclusive` | easy-fs/src/block_cache.rs:87-117 | fetching a block nobody has pinned keeps every cached block pinned by at most one client |
| `BlockCache.OldestGoes` | easy-fs/src/block_cache.rs:87-117 | a cached block keeps its place in the queue; another one comes last, and of a full queue the first entry nobody holds goes, the others keeping their order |
| `BlockCache.BlockCacheManager.GetBlockCache` | easy-fs/src/block_cache.rs:87-117 | if the block is cached, the queue has room, or some entry is unpinned, the block is pinned in the queue afterwards and every block reads as before; the queue keeps at most 16 entries and one copy per block, and the device changes only where a modified victim is written back |
| `BlockCache.BlockCacheManager.Evict` | easy-fs/src/block_cache.rs:96-107 | dropping an unpinned entry keeps the view of all blocks and which of them are pinned |
| `BlockCache.BlockCacheManager.Lock` | easy-fs/src/block_cache.rs:125-132 | with fewer than 16 blocks pinned, pins one more and keeps the view: the cache never runs out |
| `BlockCache.BlockCacheManager.Read` | easy-fs/src/block_cache.rs:52-54 | reads the block of the view, whether cached or not |
| `BlockCache.BlockCacheManager.Write` | easy-fs/src/block_cache.rs:56-58 | changes exactly one block of the view |
| `BlockCache.BlockCacheManager.SyncAll` | easy-fs/src/block_cache.rs:134-139 | makes the device equal to the view, clears the mark of every entry and changes no block as clients see it |
| `Bitmap.AllOnesBits` | easy-fs/src/bitmap.rs:34-37 | a 64-bit group is all ones exactly when each of its bits is set, for bitmaps read as little-endian bytes |
| `Bitmap.FirstClear` | easy-fs/src/bitmap.rs:34-46 | finds the lowest clear bit of a block, or reports that all are set |
| `Bitmap.Alloc` | easy-fs/src/bitmap.rs:28-54 | sets the lowest clear bit of the whole bitmap: the marked set grows by the least number not in it; returns nothing exactly when all bits are set |
| `Bitmap.Dealloc` | easy-fs/src/bitmap.rs:56-64 | removes exactly one number from the marked set; the source's assertion that the bit was set is the precondition |
| `InodeIndex.DataSlotLocation` | easy-fs/src/layout.rs:123-146 | where `get_block_id` looks for a data block is the slot growth filled for it, across all three levels |
| `InodeIndex.DataSlotInjective` | easy-fs/src/layout.rs:123-146 | different data blocks of a file have different slots |
| `InodeIndex.SlotsForCovers` | easy-fs/src/layout.rs:99-122 | the number of blocks `total_blocks` computes reaches exactly to the slot of the last data block, so it counts the data blocks and the index blocks they need and no more |
| `InodeIndex.DataBlocksLeast` | easy-fs/src/layout.rs:96-101 | the number of data blocks is the least that holds the size |
| `InodeIndex.GrowComposes` | easy-fs/src/layout.rs:147-218 | growing with one list of blocks and then another equals growing once with their concatenation |
| `InodeIndex.GrowOwned` | easy-fs/src/layout.rs:147-218 | after growth the file owns its old blocks in their old slots followed by the supplied ones, and only index blocks of the file were written |
| `InodeIndex.PutSlotAt` | easy-fs/src/layout.rs:147-218 | recording a block in the next slot makes the lookup of that slot find it, and writes at most one index block of the file |
| `InodeIndex.DataBlocksUntouched` | easy-fs/src/layout.rs:147-218 | growth writes to no data block |
| `SpareSlots.SpareGrow` | easy-fs/src/layout.rs:147-218 | growing with zero blocks keeps every slot past the filled ones zero, across all three levels: a new index block lists nothing yet |
| `SpareSlots.LookupAtEnd` | easy-fs/src/layout.rs:123-146 | asked for the block right after the last, `get_block_id` answers block 0 unless the number is 28 or 156 + 128 a; and the lookup stays on the device if and only if the number is none of these, or the device is so large that it has a block with the magic number of the super block |
| `DiskInodeOps.GetBlockId` | easy-fs/src/layout.rs:123-146 | returns what the slot of the data block holds, reading index blocks through the cache: the block the file owns for every index it has, and beyond its end as far as the index blocks reach |
| `DiskInodeOps.IncreaseSize` | easy-fs/src/layout.rs:147-218 | the loops over the three levels do what recording the supplied blocks slot by slot does, consuming exactly the blocks needed |
| `DiskInodeData.ClearSize` | easy-fs/src/layout.rs:223-293 | returns exactly the blocks the file owns, data and index blocks, in the order they were supplied |
| `DiskInodeData.ClearedUnused` | easy-fs/src/layout.rs:223-293 | what clearing leaves of an inode whose unfilled slots are zero is an inode as freshly initialised |
| `GrowClear.GrowLeavesRest` | easy-fs/src/layout.rs:147-218 | slots growth does not reach keep their value |
| `GrowClear.TwoGrowths` | easy-fs/src/layout.rs:147-218 | from however many filled slots, growth to one size and then to another leaves the same inode and index blocks as growth to the second one |
| `GrowClear.ClearedIsUnused` | easy-fs/src/layout.rs:147-293 | growing a fresh inode to any size and clearing it gives the fresh inode back |
| `GrowClear.GrowTwiceThenClear` | easy-fs/src/layout.rs:147-293 | two growths and a clear hand back all supplied blocks in supply order, as many as `total_blocks` says, and the fresh inode |
| `DiskInodeData.ReadAt` | easy-fs/src/layout.rs:294-332 | returns as many bytes as are asked for and there are from the offset on, none past the end, each the byte of the file at its place, and changes nothing |
| `DiskInodeData.WriteAt` | easy-fs/src/layout.rs:334-370 | the blocks then hold the file with exactly the written range replaced and any gap filled with zeros, and only data blocks of the file were written; also for an empty write after the last block, where the super block is looked up and left as it is |
| `FileContent.SliceOfOverwrite` | easy-fs/src/layout.rs:294-370 | reading back a written range gives what was written |
| `EfsLayout.PlanOk` | easy-fs/src/efs.rs:20-44 | the five areas partition the device as asked for, the inode area holds exactly the inodes of its bitmap, and the number of data bitmap blocks is the least that covers the data area |
| `EfsLayout.InodePositions` | easy-fs/src/efs.rs:111-119 | inode positions lie in the inode area, and different inodes have different positions |
| `Vfs.InodesInLine` | easy-fs/src/efs.rs:111-119 | inode `i` is the 128 bytes at place `i` of the inode area, inside one block |
| `EfsLayout.InodeAtPut` | easy-fs/src/layout.rs:69-79 | an inode written into a block reads back, and the other three inodes of the block are unchanged |
| `EfsState.UsedCount` | easy-fs/src/efs.rs:125-133 | exactly as many data blocks are in use as the sizes of the files account for |
| `EfsState.ConsistentUpdate` | easy-fs/src/vfs.rs:164-185 | a change confined to the blocks of one file keeps the invariant of the whole image: bitmaps, ownership, zeroed free blocks and all other files |
| `EfsState.IntactAppend` | easy-fs/src/vfs.rs:94-128 | marking and initialising the next inode adds an empty file and leaves all others as they were |
| `EfsAlloc.AllocData` | easy-fs/src/efs.rs:130-133 | while fewer blocks are in use than the data area has, takes a free block that lies on the device, although the bitmap has spare bits past it |
| `EfsAlloc.AllocMany` | easy-fs/src/vfs.rs:83-90 | the blocks taken for a growth are distinct, were free, lie on the device and are now exactly the additional marked ones |
| `EfsAlloc.GrowFile` | easy-fs/src/vfs.rs:77-92 | a file grown for a write owns its old blocks and new zeroed ones, reads as before, and no other file is touched |
| `EfsAlloc.DeallocMany` | easy-fs/src/efs.rs:134-146 | gives exactly those blocks back, zeroed, and changes nothing else but the bitmap |
| `Directory.DirentRoundTrip` | easy-fs/src/layout.rs:379-408 | an entry read back yields the inode number, and the name exactly when it has at most 27 bytes and none of them is zero |
| `Directory.DirentAt` | easy-fs/src/vfs.rs:45-60 | entry `j` of the directory file is the one made for the `j`-th name, across block boundaries |
| `Vfs.WriteLooksUp` | easy-fs/src/layout.rs:334-352 | on a file grown for the write, all blocks the first lookup of a write goes through are on the device if and only if the write is not empty, starts inside the file or inside a block, or the number of its block is none of 28, 156 + 128 a and the one past the last; the exception is a device of more than 998244353 blocks |
| `Vfs.Format` | easy-fs/src/efs.rs:20-79 | formatting leaves a consistent image with the empty root directory as its only file |
| `Vfs.EasyFileSystem.Create` | easy-fs/src/efs.rs:20-79 | the new file system has an empty root directory, is consistent and written to the device |
| `Vfs.EasyFileSystem.Open` | easy-fs/src/efs.rs:81-101 | opening a device rebuilds the layout and finds the files that were stored |
| `Vfs.EasyFileSystem.ReadAt` | easy-fs/src/vfs.rs:159-162 | returns as many bytes as are asked for and there are from the offset on, none past the end, each the byte of the file at its place, and changes nothing |
| `Vfs.EasyFileSystem.ReadAll` | os/src/fs/inode.rs:30-43 | reading 512 bytes at a time until nothing comes returns the whole rest of the file from the offset, and leaves the offset behind it |
| `Vfs.EasyFileSystem.WriteAt` | easy-fs/src/vfs.rs:164-172 | replaces exactly the written range of one file, zeros in any gap, all other files unchanged, and the device is up to date; for every write that looks up blocks on the device, empty ones included |
| `Vfs.EasyFileSystem.Clear` | easy-fs/src/vfs.rs:174-185 | empties one file and returns exactly its blocks to the free ones; the source's check of their number holds |
| `Vfs.EasyFileSystem.Lookup` | easy-fs/src/vfs.rs:45-60 | finds the inode number allotted at creation, or nothing exactly when the name is not in the directory |
| `Vfs.EasyFileSystem.Find` | easy-fs/src/vfs.rs:62-75 | returns the position of the inode allotted when the name was created, also after later creations |
| `Vfs.EasyFileSystem.Ls` | easy-fs/src/vfs.rs:142-157 | lists the names in the order of their creation |
| `Vfs.EasyFileSystem.CreateFile` | easy-fs/src/vfs.rs:94-140 | returns nothing exactly when the name exists; otherwise adds the name at the end with an empty file and the next inode, names staying distinct |
| `FsRun.Perform` | easy-fs/src/vfs.rs:45-185 | every operation, remounting included, answers and leaves the files as one step of the abstract file system |
| `FsRun.PerformAll` | easy-fs/src/vfs.rs:45-185 | so does every sequence of operations that runs into none of the panics: no space, a name that cannot be stored, a lookup off the device |
| `FsRun.NamesAfter` | easy-fs/src/vfs.rs:94-157 | in the abstract file system creating a new name appends it, no other operation changes the list, and a listing is the list |
| `FsRun.FilesAfter` | easy-fs/src/vfs.rs:94-185 | an operation touches no file but the one it names; a new file and a cleared one are empty; writing, reading and clearing fail exactly for names that do not exist |
| `FsRun.ReadAnswers` | easy-fs/src/vfs.rs:159-162 | a read answers with the bytes of the range that the file has, and none past its end |
| `FsRun.EmptiedReadsEmpty` | easy-fs/src/vfs.rs:94-185 | after a clear, or right after its creation, every read of a file is empty |
| `FsRun.FreshRun` | easy-fs/src/efs.rs:20-101 | from a fresh device every such run answers as a map from names to byte sequences, and the device then holds exactly its files: a consistent image, no block shared, as many blocks in use as the files account for, so none leaked, and a reader of raw bytes finds sizes, kinds, contents and directory entries of exactly these files |
| `FsRun.HeldBytes` | easy-fs/src/layout.rs:123-146 | what the device of such a run holds of a file: the raw reader finds its size and, through the index blocks, each of its bytes |
| `DiskFormat.ReadsFiles` | easy-fs/src/layout.rs:69-146 | in every consistent image the raw reader, going by offsets and little-endian numbers only, finds the size, the kind and every byte of every file |
| `DiskFormat.ReadsBitmaps` | easy-fs/src/bitmap.rs:16-64 | and bit `k % 8` of byte `k / 8` of a bitmap is set exactly for the inodes and blocks in use |
| `DiskFormat.ReadsDirectory` | easy-fs/src/layout.rs:371-408 | and the bytes of the directory are 32 for each name, the name, zeros up to byte 28 and the inode number |
| `FsRun.WriteThenRead` | easy-fs/src/vfs.rs:159-172 | what is written is read back after any operations on other files, listings and remounts in between |
| `PhysMemory.PhysMem.Take` | os/src/mm/frame_allocator.rs:62-71 | hands out the frame last given back, or else the next one never used, or nothing exactly when none is left; free, recycled and owned frames stay a partition of the range |
| `PhysMemory.PhysMem.FrameAlloc` | os/src/mm/frame_allocator.rs:100-105 | the frame is cleared and no other memory changes |
| `PhysMemory.PhysMem.FrameDealloc` | os/src/mm/frame_allocator.rs:72-81 | gives an owned frame back, to be the first handed out again, so that one more is available and the partition stays |
| `PhysMemory.Cleared` | os/src/mm/frame_allocator.rs:13-20 | the loop over the bytes clears the frame |
| `PageTable.PteRoundTrip` | os/src/mm/page_table.rs:26-43 | an entry made of a frame number and flags yields them back and is valid exactly when V is among the flags |
| `PageTable.Indexes` | os/src/mm/address.rs:146-156 | the loop computes the three digits of a page number to the base 512, the highest first |
| `PageTable.IndexDigits` | os/src/mm/address.rs:146-156 | the three indexes are below 512 and make up the page number as its digits, the root index the highest |
| `PageTable.IndexInjective` | os/src/mm/address.rs:146-156 | the three indexes determine a 27-bit page number |
| `PageTable.SetLeaf` | os/src/mm/page_table.rs:113-122 | writing one leaf entry keeps the tree of tables and changes exactly one binding of the map it stands for |
| `PageTable.AddNode` | os/src/mm/page_table.rs:76-93 | linking a cleared frame as a new table keeps the frames an unshared tree and changes no binding |
| `PageTable.TreeFrame` | os/src/mm/page_table.rs:55-60 | writes outside its tables change no binding of a page table |
| `PageTable.Table.FindPteCreate` | os/src/mm/page_table.rs:76-93 | leads to the leaf entry of the page, making missing tables from free frames only, with all bindings as before |
| `PageTable.Table.FindPte` | os/src/mm/page_table.rs:95-111 | finds the leaf entry exactly when the tables above it exist |
| `PageTable.Table.Map` | os/src/mm/page_table.rs:113-118 | adds exactly one binding: a valid entry with this frame number and, V apart, these flags; the source's assertion that the page is not mapped is the precondition |
| `PageTable.Table.Unmap` | os/src/mm/page_table.rs:119-123 | removes exactly one binding |
| `PageTable.Table.Translate` | os/src/mm/page_table.rs:124-126 | returns the binding of a mapped page, and nothing or an invalid entry otherwise |
| `Sv39.WalkFindsBindings` | os/src/mm/page_table.rs:95-126 | the walk of the hardware, through entries that are valid and carry no other flag of a leaf, ends with an entry for a page exactly when the table binds it, and with that entry |
| `MapArea.MapPages` | os/src/mm/memory_set.rs:278-303 | maps every page of the range to a cleared frame of its own that was free before, by a valid entry whose flags, V apart, are the area's permissions, and writes nothing but table frames and these |
| `MapArea.UnmapPages` | os/src/mm/memory_set.rs:293-309 | removes exactly the area's bindings and returns exactly its frames |
| `MapArea.AreasPush` | os/src/mm/memory_set.rs:74-80 | an area over unmapped pages can be added: areas stay disjoint and hold exactly the mapped user pages |
| `MapArea.AreasRemove` | os/src/mm/memory_set.rs:63-72 | an area can be taken out: what remains still holds for all other areas |
| `MapArea.FramesPush` | os/src/mm/memory_set.rs:74-80 | each frame of a space has one owner: a table or one page of one area, also after an area was added |
| `MapArea.PageBound` | os/src/mm/memory_set.rs:238-240 | the entry of a page of an area is valid, leads to the frame the area keeps for the page, and has, V apart, the permissions of the area |
| `MemorySets.MemorySet.Insert` | os/src/mm/memory_set.rs:52-80 | adds an area backed by free, cleared frames and changes no other area, page or foreign frame |
| `MemorySets.MemorySet.Remove` | os/src/mm/memory_set.rs:63-72 | removes the first area with that start, its bindings and its frames, and nothing else; does nothing if there is none |
| `MemorySets.MemorySet.CopyData` | os/src/mm/memory_set.rs:311-332 | the area then holds the data, padded with zeros, and no other frame was written |
| `Fork.NewWithTrampoline` | os/src/mm/memory_set.rs:42-88 | a space with nothing but the trampoline, the highest page, readable and executable by the kernel only, in frames that were free |
| `Fork.FromExistedUser` | os/src/mm/memory_set.rs:212-230 | the child has the parent's pages and areas and the trampoline, each page with the parent's flags and the same bytes, in frames disjoint from the parent's, and the parent is unchanged |
| `Fork.InsertThenRemove` | os/src/mm/memory_set.rs:52-80 | inserting an area and removing it restores areas, pages and bindings and returns all its data frames; only newly made table frames stay in use |
| `Spaces.ShowsStill` | os/src/mm/memory_set.rs:238-240 | a space whose frames nobody else writes or frees stays sound and shows the same areas and bytes |
| `Spaces.WorldStep` | os/src/mm/memory_set.rs:52-80 | an operation of one space on its own frames and free ones keeps all spaces apart, changes what no other space shows, and leaves every frame in use with an owner |
| `Spaces.WorldGrows` | os/src/mm/memory_set.rs:212-230 | a new space on free frames joins the others in the same way |
| `SpaceOps.InsertArea` | os/src/mm/memory_set.rs:52-80 | what the space shows grows by the area and its cleared pages, and only its own and free frames were touched |
| `SpaceOps.RemoveArea` | os/src/mm/memory_set.rs:63-72 | what the space shows loses the first area with that start and its pages, and the frames are free again |
| `SpaceOps.StoreAt` | os/src/mm/memory_set.rs:238-240 | a store through the page table changes exactly that byte of what the space shows |
| `SpaceOps.LoadAt` | os/src/mm/memory_set.rs:238-240 | a load through the page table finds the byte the space shows |
| `SpaceOps.ForkSpace` | os/src/mm/memory_set.rs:212-230 | the child shows what the parent shows, on frames that were free |
| `MemoryRun.Perform` | os/src/mm/memory_set.rs:52-230 | every operation on any of the spaces changes all views as one step of a list of private memories |
| `MemoryRun.FreshRun` | os/src/mm/memory_set.rs:52-230 | so does every run from a machine with all frames free: each load answers as in a private memory, whatever other spaces, parents and children included, have stored; the run stops short only when no frame is left, and the answers given until then are the first of those |
| `MemoryRun.StoreThenLoad` | os/src/mm/memory_set.rs:311-336 | in the list of private memories a stored byte is loaded again, and every other byte of every space is as before |
| `MemoryRun.ForkThenLoad` | os/src/mm/memory_set.rs:212-230 | a child has the areas of its parent and loads at first what it does, and all others load what they did |
| `MemoryRun.InsertThenLoad` | os/src/mm/memory_set.rs:52-62 | a new area has the pages and permissions asked for, can be loaded from and reads as zeros, and the rest is as before |
| `MemoryRun.RemoveThenLoad` | os/src/mm/memory_set.rs:63-72 | removal takes away the first area that starts there, with its pages, and nothing else |
| `MemoryRun.RemoveNothing` | os/src/mm/memory_set.rs:63-72 | if no area starts there, nothing changes |
| `MemoryRun.HardwareSees` | os/src/mm/memory_set.rs:231-240 | in every state of a run the walk of the hardware from the root of a space reaches at each address of its areas the byte the private memory has there, with the permissions of the area, and outside them nothing but the trampoline |
| `MemoryRun.BufferBytes` | os/src/mm/page_table.rs:140-160 | and the bytes at the addresses a user buffer is translated to are those of the private memory of the space |
| `MemoryRun.OneOwner` | os/src/mm/frame_allocator.rs:47-81 | in every such state a frame is in use exactly when it belongs to one of the spaces, to no other, and there either to the table or to one page only |
| `UserBuffer.LoopProgress` | os/src/mm/page_table.rs:140-160 | the loop advances towards the end of the range if it ends below 2^39, and otherwise computes a next start that never reaches the end |
| `UserBuffer.TranslatedByteBuffer` | os/src/mm/page_table.rs:140-160 | the slices are non-empty, stay within a page, and list exactly the physical addresses of the bytes of the range in order |
| `UserBuffer.UserBufferIterator.Next` | os/src/mm/page_table.rs:233-249 | yields the next address of the slices, and nothing exactly when all have been visited |
| `UserBuffer.VisitAll` | os/src/mm/page_table.rs:140-249 | translation followed by iteration visits the physical addresses of `ptr` to `ptr + len - 1` in order and ends |
| `Timers.ComparesDeadlines` | os/src/timer.rs:38-44 | the comparison prefers the earlier deadline exactly when both are above 2^63 or neither is; a deadline above it always comes first |
| `Timers.FarBlocksAll` | os/src/timer.rs:62-73 | with a deadline above 2^63 in the heap a check wakes nobody and leaves the heap as it is, at every time the clock can show |
| `Timers.WakesExactlyTheDue` | os/src/timer.rs:62-73 | at every time the clock can show, the tasks woken are exactly the due ones if and only if no deadline above 2^63 is in the heap or nobody is due |
| `Timers.WokenSometime` | os/src/timer.rs:19-73 | some check at some time the clock can show wakes a sleeper if and only if the clock reaches its deadline and no deadline in the heap is above 2^63 |
| `Timers.DueNotWoken` | os/src/timer.rs:38-44 | a heap with one deadline above 2^63 and one that is due, of which a check wakes neither |
| `Timers.CheckEnds` | os/src/timer.rs:62-73 | the loop over the heap comes to an end from every heap |
| `Timers.WakesInOrder` | os/src/timer.rs:62-73 | at every time the clock can show, one check wakes sleepers in nondecreasing order of deadline |
| `SchedulerSafety.StepKeeps` | os/src/task/mod.rs:28-53 | every step of every call keeps the invariant of tasks, queues, holders and histories |
| `SchedulerSafety.EveryRun` | os/src/task/mod.rs:28-53 | so it holds after every run from a state with all tasks ready and fresh objects |
| `SchedulerSafety.ExactlyOnePlace` | os/src/task/manager.rs:18-35 | a task is in exactly one place: the processor, the ready queue, one wait queue or the timer heap |
| `SchedulerSafety.MutualExclusion` | os/src/sync/mutex.rs:67-88 | a mutex is locked exactly when it has been given to a task and not been unlocked since, by whomever; that is one task at a time, and tasks queue only for a locked mutex |
| `SchedulerSafety.FirstComeFirstServed` | os/src/sync/mutex.rs:67-88 | the grants of a blocking mutex or semaphore, and the wakeups of a condition, are a prefix of the requests, and the rest are its queue in order |
| `SchedulerSafety.ReadyFirstInFirstOut` | os/src/task/manager.rs:18-23 | over every run the tasks dispatched followed by those still ready are those ready at first followed by those made ready, in order |
| `SchedulerSafety.PermitsConserved` | os/src/sync/semaphore.rs:26-44 | count is initial plus ups minus downs, the queue is as long as the count is negative, and as many downs were granted as there were permits, or all |
| `SchedulerSafety.NoLostWakeup` | os/src/sync/condvar.rs:24-38 | a task inside `wait` is in that condition's queue or has been woken and is ready or running |
| `MutexInside.StepAgrees` | os/src/sync/mutex.rs:67-88 | that the kernel takes for the holder exactly the task inside, or handed the mutex and about to be, survives a step if and only if the step is not an unlock or wait with a locked mutex by a task not inside of it; the one exception is a holder that waits for itself |
| `MutexInside.OneInside` | os/src/sync/mutex.rs:24-88 | over every run in which tasks unlock only what they are inside of, at most one task is between the return of its `lock` or `wait` and its own `unlock` or `wait`, and the mutex is locked meanwhile |
| `MutexHandoff.TwoInside` | os/src/sync/mutex.rs:79-87 | a run in which a task that never locked unlocks once, and two tasks have come back from `lock` and neither has unlocked |
| `MutexHandoff.StepGranted` | os/src/sync/mutex.rs:67-88 | that queued lock calls keep their claim survives a step if and only if the step does not unlock under a task handed the mutex and not yet back |
| `MutexHandoff.DisciplinedNeverRobs` | os/src/sync/mutex.rs:79-87 | an unlock or wait by the holder never does that |
| `MutexHandoff.ReturnsHolding` | os/src/sync/condvar.rs:31-38 | in every run in which tasks unlock only what they are inside of, a task that returns from `lock` or `wait` holds the mutex, alone |
| `MutexHandoff.RobbedOfTheMutex` | os/src/sync/mutex.rs:79-87 | a run in which a task that never locked unlocks twice, and another comes back from `lock` without the mutex |
| `Turns.CanHappen` | os/src/task/processor.rs:36-57 | in every reachable state some event can happen if and only if a task has the processor or is ready |
| `Turns.LetRun` | os/src/task/mod.rs:28-53 | with one task awake that needs no mutex to get back to its code, any task that is running or ready, or asleep with its deadline past at a given clock time and no deadline above 2^63 in the heap, can be brought to run by dispatching, resuming, yielding and timer interrupts at that time alone |
| `CallMeaning.LockMeans` | os/src/sync/mutex.rs:24-77 | in every reachable state `lock` returns exactly when nobody holds the mutex, and then the caller alone does; otherwise the holder stays and the caller is last in the queue and not ready, or last of the ready ones when spinning |
| `CallMeaning.UnlockMeans` | os/src/sync/mutex.rs:39-87 | a mutex somebody waits for is afterwards held by the first waiter alone, who is ready behind the others and no longer queued; one nobody waits for is free |
| `CallMeaning.DownMeans` | os/src/sync/semaphore.rs:36-44 | `down` returns exactly when fewer downs were asked for before than there were permits; otherwise the caller is queued and not ready |
| `CallMeaning.UpMeans` | os/src/sync/semaphore.rs:26-34 | `up` wakes the first waiter exactly when there is one, so the test of the count and the queue never disagree; otherwise a permit is left |
| `CallMeaning.SignalMeans` | os/src/sync/condvar.rs:24-29 | `signal` wakes the first waiter, who is then no longer queued, and without a waiter changes nothing |
| `CallMeaning.WaitMeans` | os/src/sync/condvar.rs:31-38 | `wait` leaves the caller queued at the condition, not ready and without the mutex, which its first waiter holds alone, or nobody |
| `CallMeaning.SleepMeans` | os/src/syscall/sync.rs:6-12 | a task that goes to sleep is in the heap once, with its deadline, and nowhere else |
| `CallMeaning.ResumeMeans` | os/src/sync/condvar.rs:31-38 | a task dispatched inside a call is back in its own code, except after a wakeup of a condition or a spin, where it goes on as `lock` does |
| `SyncKernel.Processor.RunTask` | os/src/task/processor.rs:36-57 | keeps that, and finds a task exactly when any event is possible at all, namely the one that has been ready longest |
| `SyncKernel.Processor.MutexLock` | os/src/syscall/sync.rs:37-46 | keeps that the fields have gone through a run of the step system, now with this call; returns exactly when nobody held the mutex, the caller then holding it alone, and otherwise leaves the holder and has the caller queued, or ready again when spinning |
| `SyncKernel.Processor.MutexUnlock` | os/src/syscall/sync.rs:47-56 | keeps that, and leaves the mutex to its first waiter alone, who is ready and no longer queued, or free if nobody waits |
| `SyncKernel.Processor.SemaphoreDown` | os/src/syscall/sync.rs:87-95 | keeps that, and returns exactly when fewer downs were asked for before than there were permits; otherwise the caller is queued and not ready |
| `SyncKernel.Processor.SemaphoreUp` | os/src/syscall/sync.rs:78-86 | keeps that, and wakes the first waiter exactly when there is one, a permit being left otherwise |
| `SyncKernel.Processor.CondvarSignal` | os/src/syscall/sync.rs:117-125 | keeps that, and wakes the first waiter, who is no longer queued, or changes nothing |
| `SyncKernel.Processor.CondvarWait` | os/src/syscall/sync.rs:126-134 | keeps that, and leaves the caller queued at the condition without the mutex, which its first waiter holds alone, or nobody |
| `SyncKernel.Processor.Sleep` | os/src/syscall/sync.rs:6-12 | keeps that, and leaves the caller in the heap once and not ready, with a deadline that is `now + ms`, or 2^64 less if that does not fit a word |
| `SyncKernel.Processor.Resume` | os/src/sync/condvar.rs:31-38 | keeps that, and brings a dispatched task back to its own code, except after a wakeup of a condition or a spin, where it goes on as `lock` does, with the same outcome |
| `SyncKernel.Processor.CheckTimer` | os/src/timer.rs:62-73 | takes greatest elements off the heap while they are due, and appends their tasks to the ready queue in that order; nobody is woken early, and nobody who is due is left unless a deadline is above 2^63, when nobody is woken |
| `SyncKernel.Processor.TimerInterrupt` | os/src/trap/mod.rs:76-80 | wakes exactly the due sleepers, in the order of their deadlines, unless a deadline above 2^63 hides them, loses none, and the interrupted task is ready behind them |
| `SyncKernel.NapLasts` | os/src/syscall/sync.rs:6-12 | over every run after a nap of `ms` begun at `now`, as long as interrupts come before `now + ms` (2^64 less if that does not fit a word) the task neither runs nor is ready, and the next interrupt makes it ready exactly when it does not come before and no deadline in the heap is above 2^63 |
| `SyncKernel.Processor.LegalExact` | os/src/syscall/sync.rs:6-134 | in every state reached, a request can be served exactly when one of its events can happen in the step system |
| `SyncKernel.Processor.Drive` | os/src/syscall/sync.rs:6-134 | any sequence of requests is served up to the first impossible one, and the fields go through a run of the step system with one event of the right kind per request |
| `SyncKernel.Boot` | os/src/syscall/sync.rs:6-134 | so from the start, whatever is asked, each task is in exactly one place, and the count of each semaphore is the one it began with and one more for each `up` and one less for each `down` that was served |
| `SyncKernel.CountsUpAndDown` | os/src/sync/semaphore.rs:26-44 | over every run the count of a semaphore goes up by one with each `up` and down by one with each `down`, and changes with nothing else |
| `Philosophers.TableStep` | user/src/bin/phil_din_mutex.rs:34-64 | every event keeps that each philosopher holds, or waits for, exactly the forks its program has asked for at that point |
| `Philosophers.NeighboursNeverEatTogether` | user/src/bin/phil_din_mutex.rs:34-64 | for any number of philosophers and every interleaving, two that sit next to each other never eat at the same time |
| `Philosophers.FollowHolders` | user/src/bin/phil_din_mutex.rs:36-51 | from a philosopher waiting for a fork, following holders to ever higher forks ends at one that waits for nothing |
| `Philosophers.NoCircularWait` | user/src/bin/phil_din_mutex.rs:34-64 | as long as somebody has not finished, somebody who has not waits for no fork: it is running, ready or asleep |
| `DinnerProgress.NextCallEnabled` | user/src/bin/phil_din_mutex.rs:40-62 | an unfinished philosopher that runs can make the next call of its program: what it unlocks is locked, by itself |
| `DinnerProgress.OneMoreCall` | user/src/bin/phil_din_mutex.rs:34-64 | in every reachable state with somebody unfinished, a task besides the philosophers awake, and the sleeping philosophers due by a given clock time with no deadline above 2^63 in the heap, or nobody in need of a nap, some continuation with interrupts at that time has an unfinished philosopher make its next call, and leaves things that way for the time its nap ends |
| `DinnerProgress.NoDeadlock` | user/src/bin/phil_din_mutex.rs:66-80 | at any point of any dinner under that condition, if the clock has room for the naps to come, there is a continuation, with time running forward and naps of exactly the given lengths, in which all philosophers finish all rounds; for any number of philosophers and rounds |
| `DinnerLost.SleepsOn` | os/src/timer.rs:62-73 | a philosopher whose deadline the clock does not reach, or who sleeps while a deadline above 2^63 is in the heap, sleeps and makes no call in every continuation |
| `DinnerLost.CanFinish` | user/src/bin/phil_din_mutex.rs:34-80 | at any point of any dinner with another task awake, there is a continuation in which everybody finishes if and only if the clock can reach the deadlines of the sleeping philosophers, and no deadline in the heap is above 2^63 or everybody unfinished is awake and past the last nap |
| `DinnerLost.NeverWoken` | os/src/syscall/sync.rs:6-12 | a dinner of two with the main task awake in which a fourth task sleeps past 2^63, and the first philosopher, due at 10, makes no call in any continuation |
| `DinnerLost.AllAsleep` | os/src/task/processor.rs:36-57 | without such a task: a dinner of two in which both take their first nap and no event is possible any more |
| `Mpsc.Balance` | os/src/sync/semaphore.rs:26-44 | the permits tasks have taken and not returned add up to the initial count minus what is left |
| `Mpsc.OneInside` | user/src/bin/mpsc_sem.rs:25-49 | at most one task is between its down and its up on the mutex semaphore |
| `Mpsc.Room` | user/src/bin/mpsc_sem.rs:27-31 | a producer about to write finds fewer unread items than the buffer has cells |
| `Mpsc.Stock` | user/src/bin/mpsc_sem.rs:39-43 | the consumer about to read finds an unread item |
| `Mpsc.BufferPut` | user/src/bin/mpsc_sem.rs:28-31 | a producer overwrites no unread item |
| `Mpsc.ShopStep` | user/src/bin/mpsc_sem.rs:25-49 | every step of every task keeps the invariant of the semaphores, the tasks and the buffer |
| `Mpsc.FirstInFirstOut` | user/src/bin/mpsc_sem.rs:25-49 | for any number of producers, any buffer size and every interleaving, what was printed is a prefix of what was put, at most a bufferful behind, and the indices stay in range |
| `Mpsc.EverythingDelivered` | user/src/bin/mpsc_sem.rs:22-49 | when all have finished, all items have been printed, and each producer's number as often as it was to be put |
| `Mpsc.NoDeadlock` | user/src/bin/mpsc_sem.rs:25-49 | as long as somebody has not finished, somebody who has not is running or ready |
| `ShopProgress.OneMoreStep` | user/src/bin/mpsc_sem.rs:25-49 | in every reachable state with somebody unfinished, some continuation has an unfinished task take its next step, call or access to the buffer |
| `ShopProgress.CanFinish` | user/src/bin/mpsc_sem.rs:22-49 | every run, at any point, can be continued until all items have been put and printed, with no help from other tasks |
| `Pipe.PipeRingBuffer.WriteByte` | os/src/fs/pipe.rs:61-68 | appends to the queue of bytes; on a full ring the byte is then all there is |
| `Pipe.PipeRingBuffer.ReadByte` | os/src/fs/pipe.rs:69-77 | takes the first byte of the queue; on an empty ring 31 stale bytes appear |
| `Pipe.PipeRingBuffer.AvailableRead` | os/src/fs/pipe.rs:78-86 | the length of the queue |
| `Pipe.PipeRingBuffer.AvailableWrite` | os/src/fs/pipe.rs:87-93 | the room left of 32 bytes |
| `Pipe.PipeRingBuffer.WriteBurst` | os/src/fs/pipe.rs:143-165 | one turn of the writing loop appends as many bytes as are left and fit, and returns exactly when there is more room than bytes |
| `Pipe.PipeRingBuffer.ReadBurst` | os/src/fs/pipe.rs:115-142 | one turn of the reading loop takes as many as there are and are wanted, and returns exactly when there are more than wanted or no write end is open |
| `PipeRuns.StepKeeps` | os/src/fs/pipe.rs:115-165 | every burst of every call, as a move of a channel, keeps that each call's bytes went in, or came out, in order and once; `PipeDevice.Device.Perform` ties the moves to the ring |
| `PipeRuns.Conserved` | os/src/fs/pipe.rs:61-93 | over every schedule, what came out followed by what is in the ring is what went in, and the ring never overflows |
| `PipeRuns.WritesInOrder` | os/src/fs/pipe.rs:143-165 | the bytes of a write go in as a prefix of its data, and all of them if it has returned |
| `PipeRuns.ReadsInOrder` | os/src/fs/pipe.rs:115-142 | a read has got exactly the bytes that came out for it; if it returned short, no write end is open and nothing ever written is left |
| `PipeRuns.OneToOne` | os/src/fs/pipe.rs:115-165 | with one reader and one writer, what was read and what is in the ring make up what has been written |
| `PipeRuns.CallsBegun` | os/src/fs/pipe.rs:115-165 | the calls on a pipe are those begun by the moves of the schedule, in order and with their bytes and lengths, and a write end is open until they are closed |
| `PipeDevice.Device.Perform` | os/src/fs/pipe.rs:115-165 | a call begins with the bytes or the length it is made with; a burst of a write puts its next bytes behind those in the ring, as many as are left and fit into 32, and returns exactly when room is left over; a burst of a read takes the first bytes, as many as there are and are wanted, and returns exactly when some are left over or no write end is open; each on head, tail and status of the ring a move of the channel |
| `PipeDevice.RunPipe` | os/src/fs/pipe.rs:99-165 | so whatever the calls on a new pipe do, in any order: what was written is what was read followed by what the ring holds, at most 32 bytes; the writes are exactly those the schedule began, in order, and each has put in a prefix of the bytes it was called with, all if it has returned; the reads are exactly those it began, and each has got exactly what came out for it, short of what it was called for only when no write end is open and nothing is left |
| `PipeDevice.Device.LegalExact` | os/src/fs/pipe.rs:115-165 | the device can make a move exactly when the channel has it, so it makes every run of the channel |
| `PipeProgress.WriteCanReturn` | os/src/fs/pipe.rs:143-165 | in every valid state a write can be brought to return by its own turns and those of one read if and only if the bytes in the ring and those left to write are fewer than 32 and what the read may still take |
| `PipeProgress.ReadCanReturn` | os/src/fs/pipe.rs:115-142 | a read can be brought to return by its own turns and those of one write if and only if no write end is open, or the bytes in the ring and those left to write are more than it still wants; exactly as many are not enough |
| `PipeProgress.EveryWriteCanReturn` | os/src/fs/pipe.rs:143-165 | in every state of every run each write can return if somebody comes and reads |
| `PipeProgress.EveryReadCanReturn` | os/src/fs/pipe.rs:115-142 | and each read if somebody comes and writes a byte more than it wants, or at once if no write end is open |
| `ExecArgs.PushArguments` | os/src/task/process.rs:150-184 | writes `argv` and the strings as laid out, `argv` ending at the stack top, and returns `argv` and as stack pointer the highest multiple of 8 that is not above the last string |
| `ExecArgs.AllPlaced` | os/src/task/process.rs:154-172 | each string lies, terminated, where its `argv` entry points |
| `ExecArgs.StringsMeet` | os/src/task/process.rs:163-164 | each string with its terminator ends where the one pushed before it begins, the first where `argv` does |
| `ExecArgs.StringsApart` | os/src/task/process.rs:154-172 | with its terminator each string ends at or before the one pushed before it, and all of them before `argv`, which ends at the stack top: none overlaps another or `argv` |
| `ExecArgs.ArgvClosed` | os/src/task/process.rs:162 | `argv` ends with a null word |
| `ExecArgs.WordIs` | os/src/task/process.rs:154-165 | a word of `argv` is its eight bytes, the lowest first |
| `ExecArgs.RestUntouched` | os/src/task/process.rs:150-172 | nothing below the last string or above the stack top is written |
| `ExecArgs.ReadString` | user/src/lib.rs:42-50 | the search returns the bytes before the first zero byte |
| `ExecArgs.ReadArguments` | user/src/lib.rs:38-51 | collects the strings the entries of `argv` point to |
| `ExecArgs.ArgumentArrives` | user/src/lib.rs:38-51 | an argument arrives cut at its first zero byte, so whole if and only if it has none |
| `ExecArgs.ExecThenStart` | user/src/lib.rs:33-52 | `exec` followed by `_start` yields the same list if and only if no argument contains a zero byte |

## Left out

- Device drivers, SBI calls, console and stdio; the block device is a sequence of blocks.
- Context switching assembly, trap frames and `satp`; a switch is an atomic hand-over of the processor.
- ELF parsing in `from_elf`, the kernel heap allocator, identically mapped areas and the kernel's own address space.
- Process and thread teardown (`exit`, `waittid`, `recycle_data_pages`, drop order); memory spaces are live and tasks have not exited. A finished philosopher, producer or consumer only yields.
- Kernel-stack identifiers and other recycling allocators, which would repeat the frame allocator.
- Creation of synchronisation objects and threads while others run; the objects of a run exist from its start.
- The internals of `BinaryHeap`, `VecDeque` and `BTreeMap`; they are a sequence with a greatest element, a sequence and a map.
- `task_status`; a task is known by where it is. No timer interrupt is taken while no task is current, so an idle processor wakes nobody.
- Fairness: the results about deadlock say that from every reachable state there is a continuation that ends well, not that every schedule is one. In a run of the scheduler the times of interrupts are any the clock can show; in the continuations of a dinner they run forward.
- Vfs.EasyFileSystem.WriteAt: on a device of more than 998244353 blocks, the empty writes that take the magic number of the super block for a block and find it on the device are excluded with the others of their kind.
- The cache key ignores the device in the source; there is one device in the model. The lock on the cache and `Arc` counts are pin counts.
- Arithmetic past the sizes of the source's integers in `offset + len`; file sizes are limited to what the index levels can address, and running out of data blocks or inodes is excluded by precondition, as the source panics or leaves the data area there.
- UTF-8 checks on names and arguments; names and arguments are byte sequences.
- The buffer argument of reads is the returned sequence; a `DiskInode` borrowed from a locked block is a value that is stored back before the block is released.
- The latest time the clock can show is one constant, that of the board with 6500 ticks in a millisecond; on the other board it is 1475739525896764, and conditions that name the constant read with that number there. The counter behind it is not followed past 2^64.
- Vfs.EasyFileSystem.Open: takes the files to be found as a ghost argument, since they are whatever the device holds.
- SyncKernel.Processor.MutexLock: covers one turn of the spinning loop; the turns of a whole `lock` call are steps of the run.
- MutexInside.OneInside: runs in which some task unlocks a mutex it is not inside of are outside it, since two tasks can then be inside.
