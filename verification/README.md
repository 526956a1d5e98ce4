# NyxOS kernel: a verified model

This project models the stateful core of the NyxOS kernel (C, under `kernel/`) in Dafny and proves what
the kernel's own comments and structure promise. Each subsystem has the same three layers:

1. a class or loop method with the fields, arrays and loops of the C code;
2. a state machine on immutable values, one function per kernel operation, that every method is proved to follow exactly;
3. theorems over all operations, all runs and all reachable states of that machine.

`dafny verify dfyconfig.toml` checks everything.

## Main results

- **Copy-on-write fork refines an eager copy** (`CowRefinement.CowRefinesEager`). Over every run of fork, aborted fork, fault, map,
  unmap, protect, store, teardown and page-table growth, every address space holds the pages and bytes it would hold if fork had copied all memory at
  once, with at least the write access it would have. A step leaves exactly that access if and only if it does not take write access from a COW
  page (`ApplyAbs`), and a run without such a step ends with exactly that access (`CowRefinesExactly`).
  The machine's invariant says that the reference count of every frame equals the number of page-table entries that point to it, that
  a writable page has one holder, and that a free frame has none. The four-level page tables, the fault handler, the recursive
  teardown and the clone walk are proved to be steps of this machine (`Paging.Mmu`).
- **Fork followed by teardown gives everything back**, exactly when no reference count saturates (`CowRefinement.ForkTeardownConserves`).
- **ext2 is a map of names and files** (`Ext2Runs.DiskFollowsMap`). Over every sequence of create, mkdir, write, unlink and their failures, the bytes
  on the disk, written through five shared staging buffers, hold exactly what one simple step per call makes of a map from inodes to directories and
  files. A new name leaves every path that led somewhere as it was, a lost name only those that used it (`NewName`, `LostName`). Every step, except the
  two named below, keeps every name on a live inode and the links of a file at least as many as its names (`Ext2Sound.StepSound`, `NoDanglingNames`); a
  fresh volume, given byte by byte, starts that way (`Ext2Fresh.FreshVolume`). Create, write and unlink by path gives back both bitmaps, the four free counters
  and the directory's bindings (`Ext2Calls.CreateWriteUnlinkPath`).
- **No wake-up is lost, and an exit is reported at most once and with the right code** (`Processes.WaitsAreAnswered`), over every interleaving of
  exits, stops, waits, spurious wake-ups, pipe wake-ups, reaping and destruction in which kwait meets its exact condition below.
- **Bounded waiting of the scheduler** by the sum of the weights, plus what is left of the current quantum when the current task is not in its turn
  (`Scheduler.BoundedWaiting`); with nobody blocking, the waiting time is exact (`PickedExactly`).
- **Pipes**: with any number of readers, what was read plus what is buffered is what was written (`Pipes.RunStream`). While at most one reader is parked at a
  time, it is parked only as long as there is nothing to read and a writer remains (`Pipes.RunSafe`).
- **Kernel heap**: the blocks tile the arena and live allocations never overlap or move (`KernelHeap.RunTiled`, `RunKeeps`).
- **mmap tables**: regions of a group never overlap, no address is handed out twice between execs and every file snapshot has exactly one owner across fork, clone,
  exec and leader hand-over (`VmaGroups.RunInv`), with the exact conditions below.
- **ELF loading** succeeds if and only if the image is valid and the frames reach its last page. Then every byte of every page-disjoint segment is its
  file byte or zero if and only if there are frames for all pages and all the page tables they need, or the last page holds no byte of a segment
  (`ElfLoader.AddressSpace.Load`).
- **Minesweeper's** flood and chord open exactly the connected regions, and the closed-form **date** counts days.

## Where the code does not do what one would expect

Each point is a theorem with the exact condition, and a concrete counterexample where one is needed.

- Reference counts stop at 255 while 512 processes may share a frame: a fork keeps the accounting if and only if no shared frame is at the
  limit (`SpaceOps.ForkInv`); 255 spaces that share one are reached from boot (`CowLimits.SaturatedFork`).
- `vm_protect_range` says it applies the protection asked for, but a COW page asked to become read-only is still made writable by the next
  write fault. It is exact if and only if it grants write access or the range holds no COW page (`CowRefinement.ProtectAbs`,
  `CowLimits.LingeringWrite`).
- Granting write access to a frame that is mapped read-only in several places makes it shared and writable; the invariant survives if and only if no such
  page is in the range (`SpaceOps.ProtectInv`, `CowLimits.SharedGrant`).
- When a table cannot be allocated, `map_pml4` returns silently: the fault handler reports success, nothing is mapped and the fresh page stays with the
  kernel (the `StallOp` outcome of `Paging.Mmu.HandleFault`).
- For the same reason `elf_load_image` can report success without the last page of the image: when the frame for that page is there and one for its
  tables is not. A one-page program needs twelve frames with its page directory; with nine to eleven it is loaded without its page
  (`ElfLoader.OnePageNeeds`, `LosesItsPage`).
- `elf_load_image` asks for pages without write access, but `map_pml4` sets the write bit of every page: the rights are those asked for if and only if
  every segment that has a page asks for write access (`ElfLoader.AlwaysWritable`).
- A pipe remembers one waiting reader. A second one that parks takes its place, and no later write or close wakes the first: every parked reader stays
  known if and only if no reader parks behind another (`Pipes.NextSafe`, `StrandedStays`, `TwoReaders`).
- A reader destroyed while it is parked stays in the pipe's slot, and the next write makes the dead process runnable: a zombie stays one over a step if and
  only if the step is not that wake-up of it (`Processes.ZombieStays`, `RunsAgain`, `Pipes.PokesStale`).
- `kwait` on another process's child parks with nobody left to wake it: it is safe if and only if the target is the caller's own child, already a zombie, or absent
  (`Processes.KWaitInv`, `KWaitStranger`).
- `reap_user_process` removes a table entry by moving the last one into its place and leaves the current index alone: the index still names the same
  process if and only if that process is neither the one removed nor the last (`Processes.DestroyCursor`).
- `map_pml4` over a page that is mapped gives no reference back: the count of that page is one above its holders from then on, no other count differs
  (`SpaceOps.OverwriteCounts`).
- `do_fork` copies the mmap table of the calling thread, which only its leader keeps up to date. The child never hands out an inherited address again if
  and only if the caller's table has caught up with the leader's (`VmaGroups.ForkInv`, `StaleFork`). A caller can tell that it has from being the leader
  or from the two bump pointers (`LeaderCaughtUp`); that direction only.
- An exec by a group leader empties the table the other threads of the group allocate from while they stay in the old space. They are given no address
  twice if and only if nothing was handed out or there is no other thread (`VmaGroups.ExecUnrepeated`, `StaleExec`).
- A fork that fails after the snapshots were copied leaves the copies without an owner: nothing is lost if and only if none was copied
  (`VmaGroups.ForkFailInv`, `LeakedCopy`).
- An mmap length above 2^64 - 4096 rounds to zero and the same address is issued again (`Vmas.MappedOk`, `WrappedTwice`).
- A directory made by `ext2_mkdir` has two links, and `ext2_unlink` frees an inode only when one link is left. Removing a directory therefore gives back its
  inode and block if and only if its link count is one; after mkdir and unlink both stay in use (`Ext2Rmdir.FreedIffOneLink`,
  `Ext2Calls.MkdirUnlinkPath`). A step takes the inode of a directory away if and only if it unlinks that directory by its own name with one link left
  (`Ext2Sound.DirectoryStays`).
- `unlink("/d/.")` of an empty directory succeeds: "/d" is still there, one link poorer and without its dot, if and only if its link count was not one
  (`Ext2Rmdir.SelfStaysIff`, `Ext2Sound.SelfStanding`, `OwnDot`). With one link its inode and blocks are freed under the names that still lead to it:
  `unlink("/.")` and then `unlink("/..")` free the root of an empty volume (`Ext2Sound.RootLost`, `Ext2Fresh.UnlinkRoot`).
- The 16-bit link count of a directory wraps when it gains its 65536th link. A step on a sound file system keeps it sound if and only if it is no unlink of
  a directory by its own name and no mkdir that wraps the count of a parent other than the root (`Ext2Sound.StepSound`, `AddDirWraps`).

## Model

| member | source | states |
|---|---|---|
| `Frames.PageAllocator.ReserveLowPages` | kernel/memory.c:53-60 | the pages below the limit lose their free bit, no other page changes, and the free count stays the number of set bits |
| `Frames.PageAllocator.ReleaseRegion` | kernel/memory.c:91-104 | exactly the whole pages inside an available region become free; the free count stays exact |
| `Frames.AvailableBelowTop` | kernel/memory.c:83-89 | every page of an available region lies below the highest region end, by induction over the map |
| `Frames.PageAllocator.InitFromMap` | kernel/memory.c:72-127 | after boot a page is free iff an available region holds it whole and it lies above 1 MB and the kernel image; all accounting invariants hold |
| `Frames.PageAllocator.InitFlat` | kernel/memory.c:117-127 | without a memory map a page is free iff it lies above the kernel; all accounting invariants hold |
| `Frames.PageAllocator.AllocPage` | kernel/memory.c:129-146 | takes the lowest free page and no other, with one reference; fails only when no page is free |
| `Frames.PageAllocator.PageIncref` | kernel/memory.c:150-156 | one more reference, stopping at 255, on a used page; everything else unchanged |
| `Frames.PageAllocator.FreePage` | kernel/memory.c:170-191 | a shared frame loses one reference, pinned or not; the last reference frees the frame unless it is pinned; an out-of-range frame is untouched |
| `Frames.PageAllocator.PagePin` | kernel/memory.c:46-49 | only the pin of that frame changes and the accounting stays valid |
| `Frames.TakenValid` | kernel/memory.c:129-146 | allocation keeps: free count = number of free bits, free pages unreferenced and unpinned, page 0 never free |
| `Frames.DroppedValid` | kernel/memory.c:170-191 | releasing a reference keeps the same accounting |
| `AddressSpaces.FreeUnheld` | kernel/memory.c:129-146 | a free frame is no page table, not kernel-owned, not pinned and mapped nowhere |
| `AddressSpaces.HeldNotFree` | kernel/paging.c:537-571 | every mapped frame is allocated, counted at least once, and its entry is well-formed |
| `AddressSpaces.CountZero` | kernel/memory.c:164-168 | page_get_refcount answers zero exactly for frames that no entry, no table and not the kernel holds |
| `AddressSpaces.CountTellsSharing` | kernel/memory.c:164-168 | it answers at most one for a mapped frame exactly when that entry is the only holder, which is what the COW fault relies on |
| `SpaceOps.NewSpaceInv` | kernel/paging.c:175-188 | a new page directory keeps the invariant and is not an existing root |
| `SpaceOps.GrowInv` | kernel/paging.c:241-267 | allocating page tables keeps the invariant |
| `SpaceOps.MapOwnedInv` | kernel/paging.c:68-124 | mapping a freshly allocated page keeps the invariant |
| `SpaceOps.OverwriteCounts` | kernel/paging.c:68-124 | mapping over a present entry leaves the count of the page mapped before one above its holders and every other count exact |
| `SpaceOps.MapOverInv` | kernel/paging.c:68-124 | with that reference accounted to the kernel the invariant holds |
| `SpaceOps.MapSharedInv` | kernel/paging.c:273-279 | mapping a counted shared read-only page keeps the invariant |
| `SpaceOps.CowReuseInv` | kernel/paging.c:438-464 | the last holder of a COW page takes it over: the invariant holds and the entry is the only one for its frame |
| `SpaceOps.CowCopyInv` | kernel/paging.c:438-464 | a sharer gets its own copy: reference counts of both frames equal their holders again |
| `SpaceOps.ForkInv` | kernel/paging.c:537-571 | fork keeps the invariant if and only if no shared frame has its count at 255 |
| `SpaceOps.TeardownInv` | kernel/paging.c:199-221 | tearing a space down keeps the invariant: each entry gives back one reference, each table its frame |
| `SpaceOps.UnmapInv` | kernel/paging.c:472-487 | unmapping a range keeps the invariant |
| `SpaceOps.ProtectInv` | kernel/paging.c:492-526 | changing protection keeps the invariant if and only if write access is not granted to a shared page |
| `SpaceOps.StoreInv` | kernel/paging.c:320-466 | a store through a well-formed entry keeps the invariant |
| `CowRefinement.ApplyInv` | kernel/paging.c:320-571 | every enabled operation keeps: counts equal holders, writable means sole holder, free means unheld |
| `CowRefinement.ApplyAbs` | kernel/paging.c:320-571 | an operation does to the visible pages and rights exactly what the eager-copy machine does if and only if it does not take write access from a COW page |
| `CowRefinement.ApplyAgrees` | kernel/paging.c:320-571 | every operation does to pages, bytes, user and execute rights what the eager-copy machine does, and leaves at least its write access |
| `CowRefinement.AbortAbs` | kernel/paging.c:537-571 | a fork given up halfway and torn down again is invisible |
| `CowRefinement.ForkAbs` | kernel/paging.c:537-571 | after fork, parent and child see the same bytes and rights as after an eager copy |
| `CowRefinement.CowCopyAbs` | kernel/paging.c:438-464 | the COW copy is invisible: no space sees a different byte or right |
| `CowRefinement.CowReuseAbs` | kernel/paging.c:438-464 | the COW reuse is invisible |
| `CowRefinement.ProtectAbs` | kernel/paging.c:492-526 | protection takes effect as asked if and only if write is granted or no COW page is in range |
| `CowRefinement.CowRefinesEager` | kernel/paging.c:320-571 | for every run, aborted forks and every safe mprotect included, the copy-on-write system keeps its invariant and shows the pages and bytes of the eager-copy system, with at least its write access |
| `CowRefinement.CowRefinesExactly` | kernel/paging.c:320-571 | and equal write access when no step of the run takes write access from a COW page |
| `CowRefinement.ForkTeardownConserves` | kernel/paging.c:199-221 | fork then teardown of the child, even of a half-built child, restores spaces, tables and data; the frame pool is restored if and only if no count saturated |
| `CowRefinement.WriteGoesThrough` | kernel/paging.c:320-466 | a write to a page the user may write is possible now, or after one fault that makes the page private, given a free frame |
| `CowRefinement.StoreIsolated` | kernel/paging.c:537-571 | a store is seen by exactly one page of one space |
| `CowLimits.ForkTimes` | kernel/paging.c:537-571 | by a run from boot, for every k up to 255, k spaces come to share one frame |
| `CowLimits.SaturatedFork` | kernel/memory.c:150-156 | counterexample, reached from boot: with 255 spaces sharing a frame the next fork breaks the accounting |
| `CowLimits.SharedGrant` | kernel/paging.c:492-526 | counterexample, reached from boot: granting write after fork on a page mapped read-only breaks the invariant |
| `CowLimits.LingeringWrite` | kernel/paging.c:492-526 | counterexample, reached from boot: a COW page made read-only remains writable |
| `PageTables.NodePlaced` | kernel/paging.c:241-267 | the table the four-level walk reaches for a page belongs to that space, level and address prefix |
| `PageTables.PlacedNode` | kernel/paging.c:241-267 | and conversely every table is reached by the walk of each page it covers |
| `PageTables.SetLeafFlat` | kernel/paging.c:68-124 | writing one leaf entry changes the translation of exactly one page of one space |
| `PageTables.LinkTree` | kernel/paging.c:241-267 | hooking in an empty table keeps the four-level tree well-formed |
| `PageTables.LinkFlat` | kernel/paging.c:241-267 | hooking in an empty table changes no translation |
| `PageTables.RootFlat` | kernel/paging.c:175-188 | a new root is an empty space, with the kernel mirror outside it |
| `PageTables.SurvivorsFlat` | kernel/paging.c:199-221 | dropping the tables of one root removes exactly that space |
| `Paging.Mmu.constructor` | kernel/paging.c:600-662 | the boot page directory establishes the invariant with no user space |
| `Paging.Mmu.PtePtrCreate` | kernel/paging.c:241-267 | returns the table holding the entry of the page and changes no translation; NULL only when no frame is left |
| `Paging.Mmu.FindPte` | kernel/paging.c:241-267 | returns the table holding the entry, or NULL when the page is unmapped and the walk finds a zero entry |
| `Paging.Mmu.MapPageDir` | kernel/paging.c:68-132 | the walk for the page finds exactly the given frame and all other translations are unchanged; a page mapped there before keeps its reference; when it does nothing no frame is left |
| `Paging.Mmu.AllocPageDirectory` | kernel/paging.c:175-188 | an empty space on a fresh frame, or nothing at all when no frame is free |
| `Paging.Mmu.FreeRange` | kernel/paging.c:472-487 | the loop over pages equals removing the range in one step, dropping one reference per removed entry |
| `Paging.Mmu.ProtectRange` | kernel/paging.c:492-526 | the loop equals changing all entries of the range at once, and keeps the invariant if and only if the grant is safe |
| `Paging.Mmu.FillHeap` | kernel/paging.c:354-412 | a heap or stack fault gives a zeroed writable non-executable page, or stalls only when memory is exhausted |
| `Paging.Mmu.FillVma` | kernel/paging.c:367-397 | an mmap fault gives the page its file slice and protection, or fails only when memory is exhausted |
| `Paging.Mmu.FillDemand` | kernel/paging.c:422-436 | a demand marker becomes a zeroed page with the rights of the marker |
| `Paging.Mmu.CowCopyAt` | kernel/paging.c:438-464 | copies the page, drops one reference of the old frame, and fails only when memory is exhausted |
| `Paging.Mmu.CowFaultAt` | kernel/paging.c:438-464 | a COW write fault is a take-over or a copy according to the reference count |
| `Paging.Mmu.HandleFault` | kernel/paging.c:320-466 | whatever happens is one operation of the COW machine: a fault that is owed a page gets exactly that page, a COW write becomes private, a fault without claim is refused, and a rightful fault stalls only when no frame is free |
| `Paging.Mmu.FreeLeaves` | kernel/paging.c:199-221 | the innermost loop of the teardown releases every present page of one table once |
| `Paging.Mmu.FreeEntries` | kernel/paging.c:199-221 | an outer loop of the teardown releases everything below the entries visited, and each table once |
| `Paging.Mmu.FreeTable` | kernel/paging.c:199-221 | one table and everything below it is released |
| `Paging.Mmu.FreePageDirectory` | kernel/paging.c:199-221 | the nested walk equals removing the space: every entry one reference, every table one frame, nothing else |
| `Paging.Mmu.ShareEntry` | kernel/paging.c:537-571 | parent and child entry become read-only COW if writable, and the frame gains one reference |
| `Paging.Mmu.CopyLeaf` | kernel/paging.c:537-571 | one more page of the parent is shared with the child, or no frame is left |
| `Paging.Mmu.CloneLeaves` | kernel/paging.c:537-571 | the innermost clone loop advances the fork over one page table |
| `Paging.Mmu.CloneEntries` | kernel/paging.c:537-571 | an outer clone loop advances the fork over the entries visited |
| `Paging.Mmu.CloneCow` | kernel/paging.c:537-571 | the nested walk equals an atomic fork; when a table cannot be allocated the outcome is the aborted-fork step and no frame was left at that point |
| `Regions.RunsExact` | kernel/paging.c:284-316 | the region list expands to exactly the present user pages with their rights, in order, and no two neighbours could be merged |
| `Regions.RunsPrefix` | kernel/paging.c:284-316 | stopping early yields a prefix of the full list |
| `Regions.CollectRegions` | kernel/paging.c:284-316 | the walk returns the full maximal-run list, or its first `max` runs |
| `DiskBytes.GetPut32` | kernel/ext2.c:363-373 | a 32-bit little-endian field reads back and no other byte changes |
| `DiskBytes.MarkUnmark` | kernel/ext2.c:433-502 | freeing the bit that was just taken gives back the bitmap byte for byte |
| `Ext2Layout.InodesApart` | kernel/ext2.c:152-172 | two inodes in one table block never overlap |
| `Ext2Layout.InodeAfterWrite` | kernel/ext2.c:340-361 | writing an inode changes that inode and no other |
| `Ext2Trees.HangTop` | kernel/ext2.c:504-608 | hanging a fresh block on an empty top-level pointer keeps all block trees disjoint |
| `Ext2Trees.HangEntry` | kernel/ext2.c:504-608 | the same for an entry of an indirect block |
| `Ext2Trees.DataWrite` | kernel/ext2.c:504-608 | writing a data block changes no block pointer of any file |
| `Ext2Alloc.TakeStep` | kernel/ext2.c:433-502 | taking a bit marks exactly that bit and both free counters stay the number of clear bits |
| `Ext2Alloc.GiveStep` | kernel/ext2.c:740-820 | giving a bit back clears exactly that bit and both counters follow; giving it twice changes nothing |
| `Ext2Alloc.NewBlockTrees` | kernel/ext2.c:433-470 | the allocated block belongs to no file and no file changes |
| `Ext2Files.ReadBack` | kernel/ext2.c:299-324 | reading follows exactly the blocks that hold the data, for every length up to the indirect limit |
| `Ext2Files.SameRead` | kernel/ext2.c:299-324 | a file whose blocks are untouched reads the same |
| `Ext2Writing.TopStep` | kernel/ext2.c:504-608 | allocating a direct block or the indirect block keeps the write in progress consistent |
| `Ext2Writing.EntryStep` | kernel/ext2.c:504-608 | allocating through the indirect block keeps the write in progress consistent |
| `Ext2Writing.DataStep` | kernel/ext2.c:504-608 | writing one block extends the written prefix and disturbs no other file |
| `Ext2Volume.FinishStep` | kernel/ext2.c:504-608 | after the inode is written the file contains exactly the data, everything else is unchanged and the volume is well-formed |
| `Ext2Volume.AbandonStep` | kernel/ext2.c:504-608 | a write given up halfway leaves a well-formed volume and every other file unchanged |
| `Ext2Free.ReleaseSlot` | kernel/ext2.c:762-802 | freeing the block of one more tree slot releases exactly that block, the counters follow |
| `Ext2Free.AllSlotsCover` | kernel/ext2.c:762-802 | no block of a tree lies outside the walk of free_inode_blocks |
| `Ext2Dirents.InsertDeadAdds` | kernel/ext2.c:837-928 | reusing a dead record adds one entry at its place, keeps all others in order and the records still tile the block |
| `Ext2Dirents.InsertSplitAdds` | kernel/ext2.c:837-928 | splitting the slack of a live record does the same |
| `Ext2Dirents.KillRemoves` | kernel/ext2.c:1063-1105 | zeroing the inode of a record removes exactly that entry and the records still tile the block |
| `Ext2Dirs.BindingsInsert` | kernel/ext2.c:837-928 | inserting an unused name adds exactly one binding and keeps names unique |
| `Ext2Dirs.BindingsRemove` | kernel/ext2.c:1063-1105 | removing an entry removes exactly its binding |
| `Ext2Fs.AddInBlock` | kernel/ext2.c:837-928 | adding an entry in place adds one binding and changes no other file, inode or bit |
| `Ext2Fs.AddGrow` | kernel/ext2.c:837-928 | growing the directory adds one binding and one block and changes nothing else |
| `Ext2Fs.RemoveInBlock` | kernel/ext2.c:1063-1105 | removing an entry removes one binding and changes nothing else |
| `Ext2Fs.NodeDrop` | kernel/ext2.c:762-802 | freeing a tree leaves all other files and takes exactly its blocks out of the bitmap |
| `Ext2Names.CreatedStep` | kernel/ext2.c:643-683 | a created file is a new inode with one binding; all else is unchanged |
| `Ext2Names.UndoneStep` | kernel/ext2.c:643-683 | a failed creation is fully undone |
| `Ext2Names.UnlinkedLast` | kernel/ext2.c:1007-1134 | unlinking the last name frees the inode and exactly the blocks of the file |
| `Ext2Names.UnlinkedMore` | kernel/ext2.c:1007-1134 | unlinking one of several names changes the link count and the binding only |
| `Ext2Names.CreateWriteUnlink` | kernel/ext2.c:504-1134 | create, write and unlink restores the inode bitmap, the bindings of the directory, the block bitmap and all four free counters, up to the one block the directory may have gained |
| `Ext2Names.RoundTrip` | kernel/ext2.c:299-608 | the written file reads back with its length and every other file reads as before |
| `Ext2Names.FindInBindings` | kernel/ext2.c:242-277 | after one binding is added or removed, looking up that name gives the new answer and every other name its old one |
| `Ext2Names.NodesRest` | kernel/ext2.c:106-172 | a volume at rest is the file system of exactly the inodes in use, each read from the table |
| `Ext2Names.WriteKeepsNames` | kernel/ext2.c:504-608 | writing a regular file keeps every directory as it was |
| `Ext2Paths.LastComponent` | kernel/ext2.c:623-641 | cutting a path at its last slash splits off exactly its last component |
| `Ext2Paths.WalkAppend` | kernel/ext2.c:216-283 | resolving a longer path is one lookup in what the shorter path resolves to |
| `Ext2Mkdir.DotBlockLists` | kernel/ext2.c:930-1005 | the first block of a new directory tiles and lists exactly "." and ".." |
| `Ext2Mkdir.DirMadeStep` | kernel/ext2.c:930-1005 | inode, block and records together are a sound directory that no other file shares |
| `Ext2Mkdir.MadeDirStep` | kernel/ext2.c:930-1005 | mkdir adds one binding and one link to the parent and a directory with "." and ".."; two blocks at most are gained and all else is unchanged |
| `Ext2Mkdir.UnmadeStep` | kernel/ext2.c:930-1005 | when the parent has no room, block and inode are given back and nothing visible changed |
| `Ext2Rmdir.DotsOn` | kernel/ext2.c:1015-1049 | record by record, the emptiness scan decides whether anything but "." and ".." is listed |
| `Ext2Rmdir.RelinkedStep` | kernel/ext2.c:1007-1134 | with links left, the directory keeps its inode and block with one link less |
| `Ext2Rmdir.DroppedStep` | kernel/ext2.c:1007-1134 | with its last link the directory gives back its inode and blocks |
| `Ext2Rmdir.SelfStep` | kernel/ext2.c:1051-1134 | a directory unlinked by its own name, unless it had one link, loses that name and one link and keeps its inode; nothing else changes |
| `Ext2Rmdir.SelfFreedStep` | kernel/ext2.c:1112-1134 | with one link its inode and blocks are given back, the stale link count is written to its free slot, and no other file changes |
| `Ext2Rmdir.SelfStaysIff` | kernel/ext2.c:1112-1134 | a directory unlinked by its own name keeps its inode if and only if its link count was not one |
| `Ext2Rmdir.FreedIffOneLink` | kernel/ext2.c:1114-1128 | unlinking a directory frees its inode if and only if its link count was one |
| `Ext2Rmdir.MkdirUnlinkLeaks` | kernel/ext2.c:930-1134 | mkdir then unlink restores the bindings and link count of the parent but leaves the inode and its block in use |
| `Ext2Model.CreatedIs` | kernel/ext2.c:643-683 | on the map of names and files, create adds one empty file with one link under one free name |
| `Ext2Model.MadeDirIs` | kernel/ext2.c:930-1005 | mkdir adds a directory of two dots with two links, its name and one link of the parent |
| `Ext2Model.WroteIs` | kernel/ext2.c:504-608 | a write replaces the contents of one file |
| `Ext2Model.UnlinkedIs` | kernel/ext2.c:1007-1134 | unlink of a file removes one name and one link, and the file with its last link |
| `Ext2Model.RmdiredIs` | kernel/ext2.c:1007-1134 | unlink of a directory removes its name, one link of it and one of the parent |
| `Ext2Model.SelfIs` | kernel/ext2.c:1051-1134 | unlink of a directory by its own name removes that name and one link, or the whole directory when it had one link |
| `Ext2Walks.WalkIs` | kernel/ext2.c:216-283 | resolving a path on the disk is looking it up in the map |
| `Ext2Walks.AddPaths` | kernel/ext2.c:643-1005 | with a new name every path that led somewhere leads there still and the new path leads to the new inode |
| `Ext2Walks.RemovePaths` | kernel/ext2.c:1007-1134 | with a lost name every path that did not use it leads where it led, and every path through it leads nowhere |
| `Ext2Runs.StepView` | kernel/ext2.c:504-1134 | each call of the driver, unlink of a directory by its own name included, is its step on the map and keeps the disk well formed |
| `Ext2Runs.DiskFollowsMap` | kernel/ext2.c:504-1134 | over every sequence of create, mkdir, write, unlink and failures the disk holds exactly the file system of the map |
| `Ext2Runs.NewName` | kernel/ext2.c:643-1005 | after create or mkdir the path resolves to the new inode and every path that resolved resolves as before |
| `Ext2Runs.SameNames` | kernel/ext2.c:504-608 | a write, complete or given up, changes no path |
| `Ext2Runs.LostName` | kernel/ext2.c:1007-1134 | after unlink every path that does not use the lost name resolves as before and a path through it resolves to nothing |
| `Ext2Sound.LookLive` | kernel/ext2.c:216-283 | in a sound file system a path leads to a live inode or nowhere |
| `Ext2Sound.RmdirKeeps` | kernel/ext2.c:1114-1128 | a directory on the tree has at least two links, so unlink takes its name and never its inode |
| `Ext2Sound.StepSound` | kernel/ext2.c:504-1134 | a step keeps every name live, links at least names and the dots right, if and only if it is no directory unlinked by its own name and no mkdir that wraps the link count of a parent other than the root |
| `Ext2Sound.AddDirWraps` | kernel/ext2.c:987-1000 | a mkdir in a parent other than the root with 65535 links leaves an unsound file system |
| `Ext2Sound.SelfStanding` | kernel/ext2.c:1051-1134 | after a directory is unlinked by its own name the root is still there and no name is dead, if and only if its link count was not one |
| `Ext2Sound.RootLost` | kernel/ext2.c:1051-1134 | counterexample: on an empty volume unlink of "/." and then of "/.." take the root away |
| `Ext2Sound.DirectoryStays` | kernel/ext2.c:1007-1134 | a step from a sound file system takes the inode of a directory away if and only if it unlinks that directory by its own name with one link left |
| `Ext2Sound.OwnDot` | kernel/ext2.c:1007-1134 | after a directory with other than one link was unlinked by its own dot, every path that avoids the dot still leads where it led |
| `Ext2Sound.RunSound` | kernel/ext2.c:504-1134 | over every sequence of steps that meet the condition of StepSound the file system stays sound |
| `Ext2Sound.DirectoriesStay` | kernel/ext2.c:1007-1134 | over every such sequence every directory keeps its inode and stays a directory |
| `Ext2Sound.NoDanglingNames` | kernel/ext2.c:216-1134 | from a sound volume, after every such sequence of calls, every path of the disk resolves to a live inode or to nothing |
| `Ext2Fresh.BlankRest` | kernel/ext2.c:106-172 | the bytes of a small volume without files are a well-formed file system of no inodes |
| `Ext2Fresh.FreshVolume` | kernel/ext2.c:106-172 | with an empty root added by the proved allocation and mkdir steps, the bytes are a well-formed, sound volume: the start state of every run exists |
| `Ext2Fresh.Mount` | kernel/ext2.c:106-172 | a driver on those bytes meets every precondition of the calls by path |
| `Ext2Fresh.UnlinkRoot` | kernel/ext2.c:1007-1134 | the calls unlink("/.") and unlink("/..") on those bytes both succeed, and the root inode is free afterwards |
| `Ext2Calls.CreatePath` | kernel/ext2.c:643-683 | ext2_create_file is a create step or changes nothing visible; on success the path resolves to the new inode |
| `Ext2Calls.MkdirPath` | kernel/ext2.c:930-1005 | ext2_mkdir is a mkdir step or changes nothing visible; on success the path resolves to the new directory |
| `Ext2Calls.WriteNode` | kernel/ext2.c:512-608 | the writing part is a write step, or a given-up write that touches its own file only, or nothing |
| `Ext2Calls.WritePath` | kernel/ext2.c:504-608 | ext2_write_file, creating a missing file first: on success the path resolves to the inode that was written, by one step or by a create and a write |
| `Ext2Calls.UnlinkPath` | kernel/ext2.c:1007-1134 | ext2_unlink is an unlink step for what the path resolved to, a directory unlinked by its own name included; it fails only for a path that does not split, resolves to nothing or names a directory that lists more, and then changes nothing |
| `Ext2Calls.ReadPath` | kernel/ext2.c:299-324 | ext2_read_file returns the first bytes of the regular file the path resolves to, and fails exactly when there is none |
| `Ext2Calls.ListPath` | kernel/ext2.c:685-736 | ext2_readdir returns the first entries of the directory the path resolves to, and fails exactly when there is none |
| `Ext2Calls.ReadPrefix` | kernel/ext2.c:299-324 | a shorter read is a prefix of a longer one |
| `Ext2Calls.OneLink` | kernel/ext2.c:504-683 | after create and write the path is walkable and resolves to a file with one link |
| `Ext2Calls.CreateWriteUnlinkPath` | kernel/ext2.c:504-1134 | the three calls by path: when create and write succeed so does unlink, and everything is restored |
| `Ext2Calls.MkdirUnlinkPath` | kernel/ext2.c:930-1134 | the two calls by path: when mkdir succeeds so does unlink, and the inode and its block stay in use |
| `Ext2Driver.Ext2.FindFreeBit` | kernel/ext2.c:404-410 | the lowest clear bit below the limit, or -1 when all are set |
| `Ext2Driver.Ext2.AllocBlock` | kernel/ext2.c:433-470 | the lowest free block, zeroed, marked and counted; 0 only when the group is full |
| `Ext2Driver.Ext2.AllocInode` | kernel/ext2.c:472-502 | the lowest free inode, marked and counted; 0 only when all are in use |
| `Ext2Driver.Ext2.ReadInode` | kernel/ext2.c:152-172 | the 128 bytes of the inode asked for |
| `Ext2Driver.Ext2.WriteInode` | kernel/ext2.c:340-361 | read-modify-write of the packed table changes only that inode |
| `Ext2Driver.Ext2.ReadInodeBlock` | kernel/ext2.c:182-214 | the block the direct, indirect or double-indirect tree names, although the buffers are shared |
| `Ext2Driver.Ext2.ReadFile` | kernel/ext2.c:303-324 | a regular file yields its contents up to the smaller of size and limit; anything else is refused |
| `Ext2Driver.Ext2.PickBlock` | kernel/ext2.c:504-608 | the block for position k, allocated on the way if missing; fails only past the limit or on a full disk |
| `Ext2Driver.Ext2.WriteBlocks` | kernel/ext2.c:504-608 | all blocks hold the data, or the data is too long or the disk full |
| `Ext2Driver.Ext2.WriteFile` | kernel/ext2.c:512-608 | success means the contents are the data and nothing else changed; failure means not regular, too long or disk full, and spares every other file |
| `Ext2Driver.Ext2.FreeBlock` | kernel/ext2.c:740-760 | an in-range block is given back once; out-of-range numbers change nothing |
| `Ext2Driver.Ext2.FreeInodeBlocks` | kernel/ext2.c:762-802 | every block of the tree, pointer blocks included, is freed exactly once and no other |
| `Ext2Driver.Ext2.FreeInode` | kernel/ext2.c:804-820 | the inode bit is given back, reserved inodes are spared |
| `Ext2Driver.Ext2.FindInBlock` | kernel/ext2.c:242-277 | on any bytes the scan stays in the block; on a tiled block it finds the first live entry of that name |
| `Ext2Driver.Ext2.Lookup` | kernel/ext2.c:242-277 | the inode bound to the name, 0 if unbound |
| `Ext2Driver.Ext2.FindSpace` | kernel/ext2.c:837-928 | a record with room, or proof that no block of the directory has one |
| `Ext2Driver.Ext2.AddDirent` | kernel/ext2.c:837-928 | adds exactly one binding, or fails without any change and only when the entry cannot fit |
| `Ext2Driver.Ext2.Resolve` | kernel/ext2.c:216-283 | the inode reached by following the components of the path |
| `Ext2Driver.Ext2.SplitPath` | kernel/ext2.c:623-641 | parent and last component, whose components make up those of the path; fails exactly for paths that do not split |
| `Ext2Driver.Ext2.CreateIn` | kernel/ext2.c:643-683 | one new empty file under the name, or no visible change and only for lack of an inode or of room |
| `Ext2Driver.Ext2.CreateFile` | kernel/ext2.c:643-683 | the same for a path that did not resolve; failure names its cause and changes nothing visible |
| `Ext2Driver.Ext2.RemoveDirent` | kernel/ext2.c:1063-1105 | removes the binding exactly when the name is bound |
| `Ext2Driver.Ext2.NewDirectory` | kernel/ext2.c:930-985 | inode, block and dot records of a sound unnamed directory, or no visible change |
| `Ext2Driver.Ext2.MkdirIn` | kernel/ext2.c:930-1005 | the directory, its name, the link and the directory count; or no visible change, and only for lack of an inode, of blocks or of room |
| `Ext2Driver.Ext2.Mkdir` | kernel/ext2.c:930-1005 | the same for a path that did not resolve |
| `Ext2Driver.Ext2.AdjustDirCount` | kernel/ext2.c:380-386 | only the directory count of the group descriptor changes; it wraps upward and stops at zero |
| `Ext2Driver.Ext2.Reap` | kernel/ext2.c:1112-1128 | inode and blocks of a file without names are free again |
| `Ext2Driver.Ext2.UnlinkIn` | kernel/ext2.c:1051-1134 | the binding goes if it exists; inode and blocks go with the last link |
| `Ext2Driver.Ext2.DirEmpty` | kernel/ext2.c:1015-1049 | true exactly when only "." and ".." are listed |
| `Ext2Driver.Ext2.UnlinkDirIn` | kernel/ext2.c:1051-1134 | the binding and one link of the parent go, the directory count steps down, inode and block go only when the directory had one link |
| `Ext2Driver.Ext2.constructor` | kernel/ext2.c:46-62 | five buffers of one block each, apart from one another, around the given disk |
| `Ext2Driver.Ext2.LoseOwnLink` | kernel/ext2.c:1112-1128 | one link goes, or with the last link the inode and exactly its blocks; an inode without links is left alone |
| `Ext2Driver.Ext2.UnlinkSelf` | kernel/ext2.c:1051-1134 | the same when the directory is its own parent: the name and one link go; inode and blocks go exactly when it had one link |
| `Ext2Driver.Ext2.Unlink` | kernel/ext2.c:1007-1134 | removes exactly the binding the path names; refuses a directory that lists more; failure changes nothing and names its cause |
| `Ext2Driver.Ext2.ReadDir` | kernel/ext2.c:689-736 | the live entries of the directory in order, cut at the limit |
| `Processes.ExitInv` | kernel/process.c:1176-1184 | an exit wakes a parent that waits for it: no waiter is left without a live child |
| `Processes.StopInv` | kernel/process.c:1084-1142 | a stop keeps the invariant |
| `Processes.WaitInv` | kernel/process.c:1084-1142 | a waitpid pass reaps the first zombie child, reports a stop once, or parks only with a live child |
| `Processes.KWaitInv` | kernel/process.c:1149-1172 | kwait keeps the invariant if and only if it will not park on a process that is not its child |
| `Processes.KWaitAllInv` | kernel/process.c:1190-1210 | kwait_all parks only with a live child |
| `Processes.CollectInv` | kernel/process.c:1084-1142 | collecting a child reports its exit code to its parent and removes it, so at most once |
| `Processes.RemoveNoLost` | kernel/process.c:764-785 | removing a table entry loses no wake-up if and only if it is not the only child someone waits for |
| `Processes.DestroyInv` | kernel/process.c:764-785 | destroy_process loses no wake-up, whomever it destroys |
| `Processes.DestroyCursor` | kernel/process.c:745-785 | the current index still names the same process if and only if that one is neither removed nor the last of the table |
| `Processes.NextInv` | kernel/process.c:764-1210 | every step keeps: pids unique, no lost wake-up, every reported code is the one the child exited with |
| `Processes.WaitsAreAnswered` | kernel/process.c:764-1210 | the same over every run, with the log of reported exits only growing |
| `Processes.ZombieStays` | kernel/pipe.c:51-56 | over a step an exited process keeps its entry unchanged or leaves the table, if and only if the step is not the wake-up of that process as a pipe reader |
| `Processes.RunsAgain` | kernel/pipe.c:51-56 | counterexample: a process destroyed while parked is set running by the pipe wake-up |
| `Processes.KWaitStranger` | kernel/process.c:1149-1172 | counterexample: kwait on a stranger parks with nobody left to wake it |
| `ProcessTable.Table.FindProcess` | kernel/process.c:787-793 | the first table index with that pid |
| `ProcessTable.Table.WakeWaiters` | kernel/process.c:1176-1184 | wakes exactly the parent blocked on this child or on any child |
| `ProcessTable.Table.ExitProcess` | kernel/process.c:1176-1184 | is the exit step of the machine |
| `ProcessTable.Table.RemoveAt` | kernel/process.c:1052-1062 | swap-removal keeps every other entry and patches the current index |
| `ProcessTable.Table.WaitPass` | kernel/process.c:1084-1142 | the scan loop is the wait step of the machine and its result is what it logged |
| `ProcessTable.Table.KWaitPass` | kernel/process.c:1149-1172 | one pass is the kwait step; its result tells absent, exit code or parked |
| `ProcessTable.Table.KWaitAllPass` | kernel/process.c:1190-1210 | one pass is the kwait_all step; it parks exactly when a child is pending |
| `ProcessTable.Table.Destroy` | kernel/process.c:764-785 | is the destroy step of the machine |
| `ProcessTable.Table.ReapZombies` | kernel/process.c:1033-1066 | removes exactly zombies nobody will wait for, keeps the current process current, and leaves no such zombie |
| `Scheduler.TickProgress` | kernel/process.c:972-1022 | each tick a ready process is chosen with a full quantum, keeps running, or comes strictly closer to its turn |
| `Scheduler.PickedWithin` | kernel/process.c:972-1022 | a process that stays ready is chosen within its distance in quanta |
| `Scheduler.TickInTurn` | kernel/process.c:972-1022 | a current task within its turn stays so over every tick, and every task the tick switches to is |
| `Scheduler.WaitBound` | kernel/process.c:972-1022 | that distance is at most the sum of the weights, plus what is left of a current quantum that is out of turn |
| `Scheduler.BoundedWaiting` | kernel/process.c:972-1022 | a process that stays ready is chosen within that bound, whatever the others do |
| `Scheduler.TickExact` | kernel/process.c:972-1022 | when nobody blocks each tick brings a process exactly one closer to its turn |
| `Scheduler.PickedExactly` | kernel/process.c:972-1022 | when nobody blocks a process is chosen if and only if its distance has passed |
| `Scheduler.StrayCursor` | kernel/process.c:972-1022 | counterexample: a current task that is not eligible runs out its quantum first, beyond the sum of the weights |
| `Scheduler.RoundRobin.OnTick` | kernel/process.c:972-1022 | the loop of the timer tick is the tick of the model |
| `Pipes.NextStream` | kernel/pipe.c:28-133 | with any number of readers, every operation keeps: delivered plus buffered is what was accepted, and the buffer fits |
| `Pipes.RunStream` | kernel/pipe.c:28-133 | the same over every run |
| `Pipes.NextSafe` | kernel/pipe.c:28-133 | an operation keeps every parked reader known to the pipe, with nothing to read and a writer left, if and only if it is no read by a second reader while one is parked |
| `Pipes.RunSafe` | kernel/pipe.c:28-133 | the same over every run in which no reader parks behind another |
| `Pipes.WokenInTime` | kernel/pipe.c:51-87 | from such a state, a parked reader stays parked over an operation exactly when there is nothing to read and a writer left |
| `Pipes.StrandedStays` | kernel/pipe.c:51-133 | a parked reader that the pipe has forgotten stays parked over every run without a signal to it |
| `Pipes.TwoReaders` | kernel/pipe.c:104-133 | counterexample: two processes read an empty pipe, one byte is written, the first reader stays parked with the byte in the buffer |
| `Pipes.PokesStale` | kernel/pipe.c:51-56 | the process a wake-up makes runnable is a parked reader if and only if one is parked; a reader that left otherwise is made runnable all the same |
| `Pipes.RingPush` | kernel/pipe.c:75-87 | a byte stored behind the ring end appends to the buffered sequence |
| `Pipes.RingPop` | kernel/pipe.c:104-133 | a byte taken at the head is the first of the buffered sequence |
| `Pipes.PipeSlot.constructor` | kernel/pipe.c:10-26 | an unused slot with an empty ring |
| `Pipes.PipeSlot.Open` | kernel/pipe.c:28-39 | a fresh pipe with one reader, one writer and nothing buffered |
| `Pipes.PipeSlot.AddRef` | kernel/pipe.c:42-46 | one more reference on one end of a used pipe |
| `Pipes.PipeSlot.CloseEnd` | kernel/pipe.c:60-70 | one reference less; the last writer wakes the reader, the last reference frees the slot |
| `Pipes.PipeSlot.Put` | kernel/pipe.c:75-87 | accepts the longest prefix that fits and returns its length, -1 without reader |
| `Pipes.PipeSlot.Readable` | kernel/pipe.c:99-102 | true exactly when a read would not park |
| `Pipes.PipeSlot.Get` | kernel/pipe.c:104-133 | delivers the oldest bytes in order, end of file exactly when empty without writer; otherwise the calling process parks and becomes the one to wake, in place of any other |
| `KernelHeap.TiledDisjoint` | kernel/heap.c:15-49 | blocks that tile the arena do not overlap |
| `KernelHeap.AllocatedTiled` | kernel/heap.c:21-39 | splitting a block keeps the tiling |
| `KernelHeap.ReleasedTiled` | kernel/heap.c:41-49 | coalescing with the next block keeps the tiling |
| `KernelHeap.RunTiled` | kernel/heap.c:15-49 | after every sequence of allocations and frees the blocks tile the arena |
| `KernelHeap.RunKeeps` | kernel/heap.c:15-49 | a live allocation keeps its place and size until it is freed |
| `KernelHeap.Heap.constructor` | kernel/heap.c:15-19 | one free block is the whole arena |
| `KernelHeap.Heap.Allocate` | kernel/heap.c:21-39 | first fit over the linked headers; NULL exactly when no free block fits; the block returned is live and large enough |
| `KernelHeap.Heap.Release` | kernel/heap.c:41-49 | frees the block and merges it with a free successor; the headers stay linked in address order |
| `ElfLoader.InsideTable` | kernel/elf.c:37-41 | every accepted program header lies inside the file |
| `ElfLoader.CopyPart` | kernel/elf.c:124-131 | the bytes of a page below the file size are the bytes of the file at the right offset |
| `ElfLoader.ZeroPart` | kernel/elf.c:133-142 | the bytes between file size and memory size are zero and no other byte changes |
| `ElfLoader.FillPage` | kernel/elf.c:116-143 | each byte of the segment on this page is its file byte or zero, whatever the frame held before |
| `ElfTables.NeedMore` | kernel/paging.c:68-105 | mapping one more page costs its frame and one frame per table on its path that is not there yet |
| `ElfTables.NeedGrows` | kernel/paging.c:68-105 | more pages never cost fewer frames, and reaching a later page costs more than mapping all the earlier ones |
| `ElfLoader.AddressSpace.Descend` | kernel/paging.c:68-105 | the table walk of one mapping takes one frame per missing table and stops at the first that cannot be had |
| `ElfLoader.AddressSpace.MapStack` | kernel/elf.c:46-70 | succeeds if and only if the frames reach the last stack page; the stack pages are mapped, writable, not executable, and the entry frame is zero |
| `ElfLoader.LoadedHolds` | kernel/elf.c:113-143 | loaded pages together hold the whole memory range of the segment |
| `ElfLoader.AddressSpace.LoadSegment` | kernel/elf.c:113-143 | succeeds if and only if the frames reach its last page; then every page of it that is mapped is byte-exact with the rights installed, and no page outside it changes |
| `ElfLoader.AddressSpace.LoadSegments` | kernel/elf.c:80-144 | succeeds if and only if every segment passes the checks and the frames reach the last page; page-disjoint segments are then byte-exact wherever they are mapped |
| `ElfLoader.VisitsAre` | kernel/elf.c:80-144 | the pages the loader visits are exactly the pages of the loadable segments |
| `ElfLoader.Settled` | kernel/elf.c:80-144 | when only the last page may be missing, the image is fully loaded if and only if it is not, and holds every segment byte if and only if it is not or no segment byte lies on it |
| `ElfLoader.AddressSpace.Load` | kernel/elf.c:22-162 | succeeds if and only if the image is valid and the frames reach its last page; a page-disjoint image is then loaded in full if and only if there are frames for all pages and tables, otherwise its last page is missing; the break is the least page boundary above all segments |
| `ElfLoader.AlwaysWritable` | kernel/paging.c:68-105 | the rights of a loaded image are those its segments ask for if and only if every segment with a page asks for write access |
| `ElfLoader.OnePageNeeds` | kernel/elf.c:22-162 | a program of one page is valid, reaches its page with eight frames after the page directory and is complete with eleven |
| `ElfLoader.LosesItsPage` | kernel/elf.c:116-122 | counterexample: with nine to eleven frames free, loading that program succeeds and its only page is not mapped |
| `ElfLoader.AddressSpace.Checked` | kernel/elf.c:90-111 | the subtraction-first checks accept exactly segments inside the file and user space, without overflow |
| `MineField.LeastClosed` | kernel/minesweeper_win.c:84-105 | a set closed under opening that holds only reachable cells is the region |
| `MineField.RegionSafe` | kernel/minesweeper_win.c:84-105 | the region of a safe cell holds no mine |
| `MineField.WinExact` | kernel/minesweeper_win.c:120-130 | the count test means that exactly the safe cells are shown |
| `Minesweeper.Game.constructor` | kernel/minesweeper_win.c:45-52 | a new board is a valid game before its first click |
| `Minesweeper.Game.Reset` | kernel/minesweeper_win.c:29-43 | any board becomes a valid game before its first click, every cell hidden |
| `Minesweeper.Game.PlaceMines` | kernel/minesweeper_win.c:56-79 | the mines are the placement and every cell counts the mines around it |
| `Minesweeper.Game.Flood` | kernel/minesweeper_win.c:84-105 | shows exactly the hidden cells connected to the start through cells without neighbouring mines; the fixed stack never overflows |
| `Minesweeper.Game.Lose` | kernel/minesweeper_win.c:107-118 | shows exactly the mines without a flag |
| `Minesweeper.Game.CheckWin` | kernel/minesweeper_win.c:120-130 | the game is won exactly when all safe cells are shown |
| `MineField.OpensMore` | kernel/minesweeper_win.c:142-160 | flooding from one more neighbour opens nothing but regions of the cells hidden when the chord began |
| `MineField.OpensAll` | kernel/minesweeper_win.c:142-160 | with no hidden neighbour left, those regions are open in full |
| `Minesweeper.Game.Chord` | kernel/minesweeper_win.c:142-160 | unless a mine is hit, opens exactly the regions of the hidden safe neighbours; cannot lose when the flags cover the mines |
| `Minesweeper.Game.Reveal` | kernel/minesweeper_win.c:133-175 | opens the region of a hidden cell, loses exactly on a mine, chords only a satisfied number, and otherwise changes nothing |
| `Minesweeper.Game.ToggleFlag` | kernel/minesweeper_win.c:177-188 | flags a hidden cell, unflags a flagged one, spares shown ones |
| `Minesweeper.FlagsRight` | kernel/minesweeper_win.c:142-160 | as many flags as mines, all on mines, cover all mines |
| `Vmas.RoundUpExact` | kernel/mmap.c:51 | the 64-bit rounding is exact if and only if it does not wrap |
| `Vmas.MappedOk` | kernel/mmap.c:44-80 | a new region is disjoint from all others if and only if its length does not wrap |
| `Vmas.WrappedTwice` | kernel/mmap.c:44-80 | counterexample: a wrapping length is given the same address twice |
| `Vmas.UnmappedOk` | kernel/mmap.c:117-148 | unmapping keeps regions disjoint and in the window |
| `Vmas.Group.Find` | kernel/mmap.c:30-38 | a region containing the address, or proof that none does |
| `Vmas.Group.Mmap` | kernel/mmap.c:44-80 | reserves the next range in the first free slot, or fails without reserving when there is no slot, no room or no snapshot |
| `Vmas.Group.Munmap` | kernel/mmap.c:117-148 | drops exactly the covered regions and frees their snapshots; refuses ranges outside user space |
| `VmaGroups.MmapInv` | kernel/mmap.c:44-80 | a new snapshot has one owner |
| `VmaGroups.MunmapInv` | kernel/mmap.c:117-148 | a freed snapshot has no owner left |
| `VmaGroups.ForkInv` | kernel/process.c:268-279 | the child gets its own copies, or none when memory is short; the invariant holds if and only if the table of the caller has caught up with the ranges its leader handed out |
| `VmaGroups.LeaderCaughtUp` | kernel/process.c:268-279 | the half of that condition a caller can check: a leader has always caught up, and so has a thread whose bump pointer is not behind |
| `VmaGroups.StaleFork` | kernel/process.c:268-279 | counterexample, from boot: after clone and mmap by the leader, the child forked by the thread is given an inherited address again |
| `VmaGroups.ForkFailInv` | kernel/process.c:297-301 | a fork that fails late keeps one owner per snapshot if and only if no snapshot was copied |
| `VmaGroups.LeakedCopy` | kernel/process.c:297-301 | counterexample, from boot: the copy of a failed fork is live and nobody owns it |
| `VmaGroups.CloneInv` | kernel/process.c:462-470 | a thread shares its leader and owns no snapshot |
| `VmaGroups.ExecInv` | kernel/process.c:652-657 | exec frees the snapshots of the old image once |
| `VmaGroups.ExecUnrepeated` | kernel/process.c:652-657 | after a leader execs, the other threads of its group are given no address twice if and only if there are none or nothing was handed out |
| `VmaGroups.StaleExec` | kernel/process.c:652-657 | counterexample, from boot: after clone, mmap and exec of the leader, the thread is given the mapped address again |
| `VmaGroups.HandOverInv` | kernel/process.c:373-409 | when a leader dies its table moves to an heir: no snapshot is lost, shared or freed |
| `VmaGroups.LateHeirIs` | kernel/process.c:745-762 | the heir found after the swap-removal is the first of the group in the table as it then is |
| `VmaGroups.ReapInv` | kernel/process.c:745-762 | reaping keeps the invariant whether the heir is chosen before or after the swap-removal, and frees the snapshots of the last thread only |
| `VmaGroups.RunInv` | kernel/process.c:268-762 | over every run whose forks meet these conditions: regions disjoint, no address handed out twice between execs, and every live snapshot has exactly one owning slot, in a group leader |
| `Calendar.DaysCount` | kernel/ext2.c:72-86 | the closed form counts the days since 1970 for every valid date |
| `Calendar.DaysSuccessive` | kernel/ext2.c:72-86 | successive dates differ by one day |
| `Calendar.NowCounts` | kernel/ext2.c:72-86 | the time stamp is the number of seconds modulo 2^32 |

## Left out

- Paging.Mmu.CloneCow: requires that no shared frame is at the count limit; the fork step itself is characterised without that condition by SpaceOps.ForkInv and CowRefinement.ForkTeardownConserves.
- Paging.Mmu.MapPageDir: mapping over a page that the kernel itself holds is excluded, SpaceOps.OverwriteCounts states the counts for it too; kernel mappings and the shared-libc mapping in its call site are not modelled.
- Paging.Mmu.HandleFault: the error-code bits are tied to the entry found; a stale TLB is not modelled, nor are faults in kernel mode.
- TLB flushes, CR3 switching, the kernel half of the page tables and huge pages in user space.
- Frames.PageAllocator.InitFromMap: address sums are unbounded integers, and the 32-bit truncation of page numbers and the used-memory statistic are not modelled; bitmap words are modelled as their bits.
- The nested loops of the clone and teardown walks are one method per level, called recursively, with the same order of visits.
- Multi-core scheduling, the per-core run records and their locks; processes are stepped one at a time, as with interrupts masked.
- Signals appear as spurious wake-ups; the futex and sleep queues are not modelled.
- ext2: one block group; the ATA driver always succeeds; buffers are always there; files beyond the single indirect block are read and freed but, as in the driver, never written.
- Ext2Driver.Ext2.Resolve: paths that run through something other than a directory are excluded; the driver would read file bytes as records.
- Ext2Driver.Ext2.CreateFile: inode 1 is in use, as on every ext2 volume; otherwise the driver would hand out an inode below the root.
- Ext2Driver.Ext2.Mkdir: the same two exclusions.
- Ext2Driver.Ext2.Unlink: the path must be walkable and must not lead to a dead inode, which Ext2Sound.NoDanglingNames shows of every sound volume; after a directory was freed under names that still lead to it, paths through those names are outside the model.
- Ext2Sound.StepSound: speaks of one step from a sound file system; what is still true after an exceptional step is stated by Ext2Sound.SelfStanding and OwnDot only.
- Ext2Sound.RunSound: the sequence has no unlink of a directory by its own name and no mkdir that wraps the link count of a parent other than the root.
- Ext2Sound.DirectoriesStay: the same; Ext2Sound.DirectoryStays states one step without that condition.
- Ext2Sound.NoDanglingNames: the same.
- Ext2Calls.CreatePath: the exclusions of Resolve and CreateFile above.
- Ext2Calls.MkdirPath: the same.
- Ext2Calls.WritePath: the same.
- Ext2Calls.UnlinkPath: the exclusions of Unlink above.
- Ext2Calls.ReadPath: the exclusions of Resolve above.
- Ext2Calls.ListPath: the exclusions of Resolve above.
- Ext2Fresh.FreshVolume: a volume of ten blocks and sixteen inodes without lost+found; mkfs itself is not modelled.
- Pipes.RunSafe: with several readers parked at once only the stream of bytes is claimed (Pipes.RunStream), and that the forgotten ones stay parked (Pipes.StrandedStays).
- Processes.ZombieStays: the pipe wake-up may name any entry; that a pipe's waiter is always a table entry is not claimed.
- Ext2Driver.Ext2.WriteFile: a write that fails halfway keeps the volume well-formed but may leave blocks allocated that no file uses; that they are given back is not claimed because the driver does not.
- ElfLoader.AddressSpace.Load: argv, the shared libc and the release of frames after a failure are not modelled; when segments share a page the contents are not stated.
- KernelHeap.Heap.Release: the pointer must be a live allocation or NULL; the code does not check it.
- Minesweeper.Game.PlaceMines: any placement that spares the neighbourhood of the first click stands for the random one; drawing, timing and input are not modelled.
- Minesweeper.Game.Chord: when a chord hits a mine, the cells opened before it are not given.
- VmaGroups.ExecInv: the tables only; the pages that other threads of the group still see in the old space are not modelled.
- The protection stored in an mmap region by mprotect, file descriptors handed over between threads, and SYS_SBRK.
- The slab allocator, VFS, network stack, drivers, shell, window system and user programs are not part of this model.
