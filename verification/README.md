# Bazzulto kernel: a verified model

Bazzulto is an AArch64 kernel written in Rust. This project models the parts of it whose correctness
spans many functions, states what they are for, and proves it for all inputs, all runs or all reachable
states. Each stretch of kernel code between two block points runs with interrupts off and is one atomic
step; threads interleave freely only around the spinlock.

| area | files | main results |
|---|---|---|
| physical frames, page tables | PhysicalMemory, PageTables, Mapping | `Mapping.MapPage`, `Mapping.UnmapRange` |
| eager copy with rollback | TableCount, TableCopy, TableCensus, DeepCopy | `DeepCopy.DeepCopyUser` |
| copy-on-write fork and faults | CowPages, CopyOnWrite, CowCopy, AddressSpaces, LoadsAndStores, MemoryWitnesses | `CowCopy.CowCopyUser`, `AddressSpaces.Spaces.Run`, `LoadsAndStores.HistoryTells` |
| kernel heap | HeapBlocks, HeapMemory, KernelHeap, GlobalAllocator | `KernelHeap.Heap.AllocBytes`, `GlobalAllocator.Run` |
| processes and scheduler | ForkGuard, Processes, SchedulerInvariant, ReadyQueued, Fairness, Lifecycles, Scheduler | `SchedulerInvariant.RunKeeps`, `ReadyQueued.StepQueues`, `Fairness.RoundRobin`, `Lifecycles.StepFates`, `Lifecycles.CodeDelivered` |
| FAT32 tables, files, long names | FatDisk, FatChains, FatVolume, FatContent, FatFiles, FatNames, FatLookup, FatDirectory, FatSlots, FatOpen, FatItems, FatShort, FatWrite, FatWitnesses | `FatVolume.Volume.FreeChain`, `FatWrite.WriteAt`, `FatDirectory.CreateListUnlink`, `FatSlots.CreateEntry`, `FatItems.ListItems`, `FatShort.ShortRoundTrip` |
| pipes, descriptor tables, message queues | Pipes, DescriptorTables, MessageQueues | `Pipes.RunIsFine`, `DescriptorTables.System.Run`, `MessageQueues.NextKeeps`, `MessageQueues.RunKeeps` |
| SHA-256 | Sha256, Sha256Constants, Sha256Standard | `Sha256.HashPieces`, `Sha256Constants.RoundConstantIs`, `Sha256Standard.AbcDigest` |
| ticket spinlock | TicketLock | `TicketLock.ExclusiveIff`, `TicketLock.FirstComeFirstServed` |

Memory is modelled as the code uses it: a page table is 512 words in a physical frame, a free frame
holds its own list link, heap headers and freelist links are words between the payloads, the FAT and
directories are bytes of disk sectors. Ghost structures (the forest of tables, the tiling of the heap,
the chains of the FAT, the queue inside a ring) are tied to those words by each class's `Valid()`.

`dafny verify dfyconfig.toml` checks the whole project.

## Where the code falls short of a property

Each of these is stated with the exact condition under which the property holds. A member named
after "Input" exhibits a case in which it fails.

- A `map` that runs out of frames frees the tables it made but leaves them linked
  (`Mapping.MapPage`, `Mapping.RollbackDangles`): the tables stay sound if and only if the list was
  empty. Input: `MemoryWitnesses.TornMap`.
- `unmap_range` frees a frame whether or not another leaf maps it: sound if and only if none does
  (`Mapping.UnmapRange`). Input: `MemoryWitnesses.UnmapShared`.
- The comment on `cow_copy_user` says that a failed copy frees the child's tables; the code also frees
  the pages shared so far, which the parent still maps, and `fork` returns before the parent's
  `cow_pages` is rebuilt. All is well if and only if the list was too short to reach the first page
  (`CowCopy.CowCopyUser`, `AddressSpaces.Spaces.ForkSpace`). Input: `MemoryWitnesses.TornFork`.
- `handle_page_fault` throws away the result of `map` and reports the fault handled: with one frame
  free that frame is lost, with more but too few the tables break
  (`AddressSpaces.Spaces.PageFault`). Input: `MemoryWitnesses.TornFault`.
- Heap growth is sized without the new block's header (`HeapMemory.GrowthServes`). Input:
  `HeapMemory.WholePages`.
- A fork that finds a slot and then too few frames leaves a Ready process in no queue
  (`ReadyQueued.StepQueues`); the guard is the one `CowCopy.CowCopyUser` obeys (`ForkGuard.ForkFits`).
  Input: `ReadyQueued.LostAtBoot`.
- The FAT sector cache is filled under a key relative to the partition and invalidated under an absolute
  one: it can go stale only with a non-zero partition start (`FatVolume.WriteCache`). Input:
  `FatVolume.StaleCache`.
- `free_chain` also writes at the end-mark index: harmless if and only if every copy of the table the
  device has holds zero there, or a word the freeing clears anyway (`FatVolume.EndBefore`,
  `FatVolume.Volume.FreeChain`). Input: `FatWitnesses.EndMarkHit`.
- `find_n_free_dir_slots` gives up a cluster at a 0x00 slot that leaves too little room and puts the
  entry behind it, where no listing sees it (`FatSlots.ChosenInSight`, `FatNames.WrittenTooFar`). Input:
  `FatSlots.OutOfSight`. A later set that fills the slots up to such an entry brings it back
  (`FatNames.UncoversIff`, `FatSlots.CreateEntry`). Input: `FatSlots.OldEntryReturns`.
- `lookup` hands a file the first cluster of its directory with the index inside the cluster where the
  entry was found: the entry's own place if and only if it is in the first cluster (`FatOpen.Open`), so a
  later size update misses an entry further back (`FatOpen.EntryMissed`). Input: `FatOpen.SecondCluster`.
- `needs_lfn` splits a name at its last dot and `name_to_short` at its first: a name stored without long
  slots comes back if and only if what follows its first dot fits and is in one case
  (`FatShort.ShortRoundTrip`). Input: `FatShort.TwoDots`.
- `write_at` takes the end mark for a cluster: a file with clusters does not grow by writing at its end,
  a first write stops after one cluster, and a write further out lands behind the chain, not at its
  offset (`FatWrite.WriteAt`, `FatWrite.SizeFits`). Input: `FatWitnesses.BeyondTheEnd`.
- A message queue receive with too small a buffer puts the message behind its equals and can consume
  a wake-up; a signal leaves its process in the waiter list (`MessageQueues.NextKeeps`). Inputs:
  `MessageQueues.Overtakes`, `MessageQueues.LostWakeUp`, `MessageQueues.StaleWaiter`.
- The comment on the spinlock promises exclusion without naming a bound on threads; the exact bound is
  2^32 (`TicketLock.ExclusiveIff`, `TicketLock.TwoHolders`).

## Model

| member | source | states |
|---|---|---|
| `PhysicalMemory.PhysicalAllocator.constructor` | kernel/src/memory/physical.rs:60-68 | a new allocator has an empty list threaded through the memory it is given |
| `PhysicalMemory.PhysicalAllocator.Alloc` | kernel/src/memory/physical.rs:120-131 | takes the head of the list and no word of memory changes; None exactly on an empty list |
| `PhysicalMemory.PhysicalAllocator.FreePage` | kernel/src/memory/physical.rs:139-145 | pushes the frame on the front without asking where it was, overwriting only the two link words in it; a well-formed list stays one if and only if the frame was not on it |
| `PhysicalMemory.PhysicalAllocator.CreateTable` | kernel/src/memory/virtual_memory.rs:225-234 | the new table is the old list head with every word zero, or None and nothing changed |
| `PageTables.IndicesOfPage` | kernel/src/memory/virtual_memory.rs:209-215 | the four table indices are the base-512 digits of the 48-bit page number |
| `PageTables.SlotIffPage` | kernel/src/memory/virtual_memory.rs:209-215 | two addresses use the same leaf slot if and only if they lie in the same page |
| `PageTables.WalkFollowsForest` | kernel/src/memory/virtual_memory.rs:238-265 | a hardware walk from a root ends in the table the forest holds at that path, and fails where it holds none |
| `PageTables.LookupIsTranslate` | kernel/src/memory/virtual_memory.rs:238-265 | the flat page map read off the forest is what a four-level walk finds, for every address |
| `PageTables.AddTable` | kernel/src/memory/virtual_memory.rs:296-326 | linking a zeroed frame adds one empty table, keeps tables, leaves and free frames apart, and changes no translation |
| `PageTables.SetLeaf` | kernel/src/memory/virtual_memory.rs:337-340 | storing a leaf changes that slot of that table and nothing else, and keeps the separation |
| `Mapping.GetOrCreate` | kernel/src/memory/virtual_memory.rs:296-326 | follows a valid entry, else links a fresh zeroed table and records it; None exactly when that needed a frame and the list was empty |
| `Mapping.FreeAll` | kernel/src/memory/virtual_memory.rs:314-322 | the rollback pushes the created tables back in reverse and touches no other frame |
| `Mapping.CreatedIsMissing` | kernel/src/memory/virtual_memory.rs:296-335 | the tables created are exactly the levels the walk misses, and creation stops only when they outnumber the free list |
| `Mapping.EnsureTables` | kernel/src/memory/virtual_memory.rs:296-335 | the three table levels exist afterwards if and only if the free list covered the missing ones; existing translations are unchanged |
| `Mapping.MapPage` | kernel/src/memory/virtual_memory.rs:278-360 | succeeds if and only if the free list covers the missing levels, and then remaps exactly its own page in its own space; on failure the free set is restored but, unless the list was empty to begin with, a walk ends in a freed frame |
| `Mapping.RollbackDangles` | kernel/src/memory/virtual_memory.rs:314-322 | after the rollback of a partial walk the deepest old table still points at a frame that is free again |
| `Mapping.DanglingIsUnsound` | kernel/src/memory/virtual_memory.rs:314-322 | no separated forest can contain such a dangling walk: the failed map leaves the tables unsound |
| `MemoryWitnesses.TornMap` | kernel/src/memory/virtual_memory.rs:314-322 | two free frames and three missing tables: `map` fails and no forest over that root is sound any more |
| `Mapping.FindLeaf` | kernel/src/memory/virtual_memory.rs:519-538 | the three-level walk finds the leaf table if and only if the page is mapped |
| `Mapping.UnmapNoFree` | kernel/src/memory/virtual_memory.rs:466-504 | exactly that page loses its translation, its frame is returned and nothing is freed |
| `Mapping.FreedLeafIff` | kernel/src/memory/virtual_memory.rs:540-543 | freeing the frame of a cleared leaf keeps free and mapped frames apart if and only if no other leaf names it |
| `Mapping.UnmapOne` | kernel/src/memory/virtual_memory.rs:510-557 | one round clears one slot and pushes its frame; a sound state stays sound if and only if the frame was mapped nowhere else, and a frame once free and mapped, or free twice, stays so |
| `Mapping.MappedStep` | kernel/src/memory/virtual_memory.rs:510-557 | a page that the range meets twice contributes its frame once |
| `Mapping.PrivateBack` | kernel/src/memory/virtual_memory.rs:510-557 | while the pages before it were private, the next page of a range is private now if and only if it was at the start |
| `Mapping.UnmapRange` | kernel/src/memory/virtual_memory.rs:510-557 | exactly the range loses its mapping and exactly the frames behind it are pushed; the result is sound if and only if no page of the range was mapped elsewhere, in the range or outside it |
| `MemoryWitnesses.UnmapShared` | kernel/src/memory/virtual_memory.rs:510-557 | a frame mapped at two addresses: unmapping one leaves the other translating to a free frame |
| `TableCopy.CopyPage` | kernel/src/memory/virtual_memory.rs:778-801 | copying a page into a fresh frame keeps every invariant of a copy under way |
| `TableCopy.SharePage` | kernel/src/memory/virtual_memory.rs:920-939 | sharing a page write-protected and marked in both spaces keeps them too |
| `TableCopy.EagerLeaf` | kernel/src/memory/virtual_memory.rs:772-802 | after the eager step slot i of the child holds the same flags and contents in its own new frame |
| `TableCopy.LazyLeaf` | kernel/src/memory/virtual_memory.rs:914-940 | after the lazy step both spaces map the same frame, read-only and marked where it was writable |
| `TableCopy.CopyLeaves` | kernel/src/memory/virtual_memory.rs:772-802 | the level-3 loop copies all 512 slots, or stops where the list ran out; it succeeds if and only if the list covers its pages, and touches no table outside the two subtrees |
| `TableCopy.CopyEntry` | kernel/src/memory/virtual_memory.rs:731-804 | one valid entry above level 3: a table is linked for the child and everything below it copied, if and only if the list covers the table and what is below it |
| `TableCopy.CopyTable` | kernel/src/memory/virtual_memory.rs:697-811 | the loops at levels 0 to 2, lower half only at level 0: all entries are copied if and only if the list holds the frames they take, and the lazy copy has shared a page if and only if the list held the tables walked before the first page |
| `TableCount.LeadIsCost` | kernel/src/memory/virtual_memory.rs:840-948 | up to the first page the walk takes every table it passes; after it, no later table counts |
| `TableCount.TallyStop` | kernel/src/memory/virtual_memory.rs:840-948 | a copy that stops at one entry stops short of every later bound, and whether a page was shared by then is decided by the frames it started with |
| `TableCensus.CostIsCensus` | kernel/src/memory/virtual_memory.rs:697-811 | what the loops take entry by entry is the number of tables below, plus the number of pages where they are copied |
| `TableCensus.UserCost` | kernel/src/memory/virtual_memory.rs:840-963 | besides its root a lazy copy takes one frame per user table, an eager copy one per user table and one per user page |
| `DeepCopy.FreeBelow` | kernel/src/memory/virtual_memory.rs:1019-1061 | pushes exactly the tables and leaves below a table, children before parents, and changes no other frame; the list stays well formed when no page is mapped twice there |
| `DeepCopy.Rollback` | kernel/src/memory/virtual_memory.rs:863-867 | `free_partial_copy` and the root: exactly the frames of the half-built space join the list, whoever else maps them |
| `DeepCopy.FreshDistinct` | kernel/src/memory/virtual_memory.rs:697-811 | leaf frames of the copy are pairwise distinct and were all free before |
| `DeepCopy.AfterRollback` | kernel/src/memory/virtual_memory.rs:697-811 | freeing what is below the new root and the root itself restores the free set of before the copy |
| `DeepCopy.DeepCopyUser` | kernel/src/memory/virtual_memory.rs:697-811 | succeeds if and only if the list holds a frame for the root, each user table and each user page; then the new space maps the same pages with the same flags and contents in fresh distinct frames and no other space changes; when frames run out at any point of the four loops, the free set and every frame outside it are as before |
| `CowPages.SlotOfAddress` | kernel/src/memory/virtual_memory.rs:972-1011 | the address assembled from the indices of a slot walks back to that slot |
| `CowPages.CollectTable` | kernel/src/memory/virtual_memory.rs:972-1011 | one level: exactly the marked pages below the visited entries were added |
| `CowPages.CollectCowPages` | kernel/src/memory/virtual_memory.rs:972-1011 | afterwards the map has gained exactly the marked user pages, each with its frame |
| `CopyOnWrite.ForkedLookups` | kernel/src/memory/virtual_memory.rs:840-963 | the finished lazy copy, read as translations: child and parent agree on every user page and differ from before only in write permission and mark |
| `CopyOnWrite.ForkedPages` | kernel/src/memory/virtual_memory.rs:840-963 | no process sees a page change through a fork, and the child sees the parent's pages |
| `CopyOnWrite.ForkedCowParent` | kernel/src/scheduler/mod.rs:668-700 | after the fork the parent's `cow_pages` is exactly its marked leaves |
| `CopyOnWrite.ForkInv` | kernel/src/scheduler/mod.rs:661-769 | the memory part of fork keeps: every user-writable frame has one owner, and each `cow_pages` equals the marked leaves |
| `CopyOnWrite.PokedPages` | kernel/src/memory/mod.rs:204-247 | a store to a writable page shows in that page of that process and nowhere else |
| `CopyOnWrite.PokedInv` | kernel/src/memory/mod.rs:204-247 | a store to a mapped frame changes no translation and keeps the invariant |
| `CopyOnWrite.TakenMapped` | kernel/src/memory/mod.rs:134-173 | a frame off the list, filled and mapped, is one new private page; all else is as before |
| `CopyOnWrite.NewPageInv` | kernel/src/memory/mod.rs:204-247 | making a page private, or bringing in a new one, keeps the invariant with that page gone from `cow_pages` |
| `CowCopy.MapsFreeUnsound` | kernel/src/memory/virtual_memory.rs:1047-1052 | where some address translates to a free frame no forest of tables is sound |
| `CowCopy.PageRuins` | kernel/src/memory/virtual_memory.rs:1047-1052 | while some address translates to a free frame, no forest of tables over that root is sound |
| `CowCopy.WalkRuins` | kernel/src/memory/virtual_memory.rs:314-322 | the same where a walk reaches a free table |
| `CowCopy.OtherWalk` | kernel/src/memory/virtual_memory.rs:1019-1061 | the rollback of one space leaves every walk in every other space as it was |
| `CowCopy.SharedIsFree` | kernel/src/memory/virtual_memory.rs:1019-1061 | after a rollback past the first shared page the parent maps a free frame |
| `CowCopy.CowCopyUser` | kernel/src/memory/virtual_memory.rs:840-963 | succeeds if and only if the list holds a frame for the root and one per user table; then the lower halves share all frames, write-protected and marked where they were writable, and no page changed. When it fails, free set and memory are as before if and only if the list was shorter than the root and the tables walked before the first page; otherwise the parent is left mapping free frames |
| `MemoryWitnesses.TornFork` | kernel/src/memory/virtual_memory.rs:840-963 | a parent with two pages under different entries and four free frames: the failing fork leaves it mapping a free frame |
| `AddressSpaces.WorldForked` | kernel/src/memory/virtual_memory.rs:840-963 | the kernel's fork is the eager fork of the reference world |
| `AddressSpaces.WorldCow` | kernel/src/memory/mod.rs:204-247 | resolving a copy-on-write fault changes nothing any process can see |
| `AddressSpaces.WorldDemand` | kernel/src/memory/mod.rs:122-175 | a demand fault is the reference world's first touch: the page is there and all zero |
| `AddressSpaces.WorldWrite` | kernel/src/memory/mod.rs:204-247 | a store into a private page is the reference world's store |
| `AddressSpaces.TouchedFirst` | kernel/src/memory/mod.rs:122-175 | touching a page first does not change what a later access sees |
| `AddressSpaces.LostFrame` | kernel/src/memory/mod.rs:134-173 | a frame taken and never mapped changes nothing any process can see |
| `AddressSpaces.ForkUndone` | kernel/src/memory/virtual_memory.rs:863-867 | a rollback that restores the free set and every frame outside it keeps the invariant and the world |
| `AddressSpaces.Spaces.constructor` | kernel/src/memory/virtual_memory.rs:247-263 | with no process yet the invariant holds and the world is empty |
| `AddressSpaces.Spaces.Walk` | kernel/src/memory/virtual_memory.rs:209-241 | returns the leaf the hardware would use |
| `AddressSpaces.Spaces.Install` | kernel/src/memory/mod.rs:134-173 | a frame is taken if and only if there is one, and mapped if and only if the list also holds the missing tables; then exactly that page is new. Unmapped, the frame is lost when it was the only one, and otherwise the tables lead into the free list and no forest makes them sound |
| `AddressSpaces.Spaces.PageFault` | kernel/src/memory/mod.rs:104-248 | handled if and only if a frame is left and the page is in a demand region, or a write meets a marked page; a fault whose page was mapped leaves it writable and the world as the reference says; one whose `map` failed is called handled all the same, and the invariant then holds if and only if exactly one frame was free; otherwise no forest makes the tables sound |
| `MemoryWitnesses.TornFault` | kernel/src/memory/mod.rs:134-173 | an empty space with a demand region and two free frames: the fault is reported handled, the page is not mapped, and the tables are ruined |
| `AddressSpaces.Spaces.SpawnSpace` | kernel/src/memory/virtual_memory.rs:256-263 | an empty space is one more process in the world, or no frame was left and nothing changed |
| `AddressSpaces.Spaces.ForkSpace` | kernel/src/scheduler/mod.rs:661-769 | succeeds if and only if the list holds the root and every user table of the parent, and the world is then the eager fork of the old one; when it fails the invariant holds, and the world is unchanged, if and only if the list was too short to reach the first page, and otherwise no forest makes the parent sound |
| `AddressSpaces.Spaces.ReadWord` | kernel/src/memory/mod.rs:104-248 | a load returns what the reference world returns, faulting pages in as needed; the free frames tell beforehand when it is a fault for want of memory instead, and when it breaks the tables |
| `AddressSpaces.Spaces.WriteWord` | kernel/src/memory/mod.rs:104-248 | a store has the effect and outcome of the reference world, breaking sharing as needed, with the same two exceptions |
| `AddressSpaces.Spaces.Step` | kernel/src/scheduler/mod.rs:661-769 | every operation refines its eager counterpart, or is refused and changes nothing anyone sees, or breaks the tables so that nothing makes them sound; the free frames and the table counts before the call decide which, and the invariant is lost exactly in the last case |
| `AddressSpaces.Spaces.Run` | kernel/src/scheduler/mod.rs:661-769 | over every run of spawns, forks, loads and stores by any number of processes each answer is that of a world in which every fork copied all pages at once, or a refusal the free frames called for; cleanly refused forks and faults are answered and the run goes on; it ends early, with the invariant lost, if and only if an operation breaks the tables |
| `AddressSpaces.NeverShort` | kernel/src/scheduler/mod.rs:661-769 | a run that is never short of frames shows exactly the observations and the final world of the reference |
| `LoadsAndStores.StoreThenLoad` | kernel/src/memory/mod.rs:104-248 | in the reference world a load returns the store before it, and every other word of every process reads as before |
| `LoadsAndStores.ForkThenLoad` | kernel/src/memory/virtual_memory.rs:840-963 | after a fork parent and child read what the parent read, and everyone else as before |
| `LoadsAndStores.LoadThenLoad` | kernel/src/memory/mod.rs:122-175 | a load changes no later load |
| `LoadsAndStores.FirstLoad` | kernel/src/memory/mod.rs:122-175 | an untouched page reads zero in a demand region and faults elsewhere |
| `LoadsAndStores.HistoryTells` | kernel/src/scheduler/mod.rs:661-769 | over every run from the empty machine, short of frames or not, each answer is told by the history alone: a load returns the last store to that word by the process or, before its fork, by its ancestor, zero where nobody stored in a demand region, and a fault elsewhere or where the free frames called for one |
| `LoadsAndStores.RunFromBoot` | kernel/src/scheduler/mod.rs:661-769 | a machine started on any valid memory answers every run that way |
| `LoadsAndStores.StoreLoad` | kernel/src/memory/mod.rs:104-248 | a store that was done is what the next load of that word returns, however few frames are left |
| `HeapBlocks.Apart` | kernel/src/memory/heap.rs:648-704 | blocks of a tiling share no byte, headers included |
| `HeapBlocks.CarveTiled` | kernel/src/memory/heap.rs:540-566 | splitting keeps the tiling and hands out at least the request, at most 80 bytes more |
| `HeapBlocks.Merged` | kernel/src/memory/heap.rs:689-704 | coalescing keeps the tiling and every used block and leaves no two adjacent free blocks |
| `HeapBlocks.MergeRoom` | kernel/src/memory/heap.rs:689-704 | after coalescing a block fits if and only if before it some run of adjacent free blocks did, counting the headers between them |
| `HeapBlocks.TailFreeMerge` | kernel/src/memory/heap.rs:648-704 | coalescing does not change how many free bytes end the heap |
| `HeapBlocks.GrowTiled` | kernel/src/memory/heap.rs:648-687 | growth extends the tiling to the new end |
| `HeapBlocks.GrowRoom` | kernel/src/memory/heap.rs:648-687 | growing a coalesced heap without a fit makes one if and only if free tail and new bytes together hold the request and a header |
| `HeapMemory.ClassFrom` | kernel/src/memory/heap.rs:96-103 | the smallest class that holds the size, None exactly above 4096 bytes |
| `HeapMemory.CarveConsistent` | kernel/src/memory/heap.rs:540-566 | carving keeps headers, ownership and freelists consistent and every owner's bytes |
| `HeapMemory.GlueConsistent` | kernel/src/memory/heap.rs:689-704 | joining two free neighbours keeps all of that |
| `HeapMemory.GrowConsistent` | kernel/src/memory/heap.rs:648-687 | so does wiring in new pages |
| `HeapMemory.FreeConsistent` | kernel/src/memory/heap.rs:337-376 | so does marking a live block free after scribbling over its payload only |
| `HeapMemory.PopConsistent` | kernel/src/memory/heap.rs:456-470 | popping a slab freelist yields an aligned slot of that class inside the heap that no caller owns |
| `HeapMemory.PushConsistent` | kernel/src/memory/heap.rs:491-510 | pushing a live slab slot back keeps everything consistent |
| `HeapMemory.PokeConsistent` | kernel/src/memory/heap.rs:771-815 | a caller's store inside its own bytes disturbs no header, freelist or other owner |
| `HeapMemory.FreshPointer` | kernel/src/memory/heap.rs:337-376 | an owned pointer is preceded by a used header and names a used block |
| `HeapMemory.GrownRoom` | kernel/src/memory/heap.rs:271-329 | whether the request fits after growing, for each outcome of the two mapping attempts |
| `HeapMemory.PageBytes` | kernel/src/memory/heap.rs:582-591 | the pages asked for are the request and the rest of its last page |
| `HeapMemory.GainedIs` | kernel/src/memory/heap.rs:582-621 | bytes grown: the batch or the whole pages of the request, whichever is more; only the latter when the batch fails, and then only below the batch |
| `HeapMemory.GrowthServes` | kernel/src/memory/heap.rs:271-329 | growth serves a request that no run holds if and only if the free tail and the slack of the last page take a header, or the tail and a batch take the request and a header; with only the minimum mapped, if and only if the former and the request is below the batch |
| `HeapMemory.HeaderInSlack` | kernel/src/memory/heap.rs:582-591 | the slack alone takes the header if and only if the request ends inside a page and leaves a header free there |
| `HeapMemory.WholePages` | kernel/src/memory/heap.rs:582-621 | a request of a whole number of pages, at least a batch, that no run holds is not served by growth unless the last block was free |
| `KernelHeap.Heap.constructor` | kernel/src/memory/heap.rs:230-252 | an empty heap at a page boundary is consistent |
| `KernelHeap.Heap.MarkUsed` | kernel/src/memory/heap.rs:540-566 | the chosen block is carved and owned by a pointer nobody owned; other owners keep their bytes |
| `KernelHeap.Heap.FindFreeBlock` | kernel/src/memory/heap.rs:540-566 | first fit: the first block that holds the request is carved, None exactly when none does |
| `KernelHeap.Heap.GlueNext` | kernel/src/memory/heap.rs:689-704 | one join in place |
| `KernelHeap.Heap.Coalesce` | kernel/src/memory/heap.rs:689-704 | the in-place pass computes the fully merged list, and terminates |
| `KernelHeap.Heap.FindTail` | kernel/src/memory/heap.rs:665-670 | the last block |
| `KernelHeap.Heap.RegisterGrownPages` | kernel/src/memory/heap.rs:648-687 | new pages extend a free tail or append a block |
| `KernelHeap.Heap.GrowForSize` | kernel/src/memory/heap.rs:582-621 | the heap end moves by the batch, by the whole pages of the request, or not at all, in bytes; the list is tiled on |
| `KernelHeap.Heap.FirstFit` | kernel/src/memory/heap.rs:271-329 | succeeds if and only if some run of adjacent free blocks holds the request, or it may grow and growth serves it, told in sizes before the call |
| `KernelHeap.Heap.AllocBytes` | kernel/src/memory/heap.rs:271-329 | succeeds if and only if the size is legal and some run holds the rounded size, or the caller may wait and growth serves it; the block is fresh and nobody else's bytes change |
| `KernelHeap.Heap.Poison` | kernel/src/memory/heap.rs:337-376 | fills exactly the given words |
| `KernelHeap.Heap.FreeBytes` | kernel/src/memory/heap.rs:337-376 | frees and poisons exactly a live pointer; out-of-range, already free and foreign pointers are told apart and change nothing |
| `KernelHeap.Heap.ClassFor` | kernel/src/memory/heap.rs:96-103 | the table loop finds the class |
| `KernelHeap.Heap.SlabAlloc` | kernel/src/memory/heap.rs:447-482 | a slot of the smallest class that fits, from its freelist, or from the first-fit heap under the same condition |
| `KernelHeap.Heap.SlabFree` | kernel/src/memory/heap.rs:491-510 | the slot is poisoned behind its link word and becomes a free slot of its class |
| `GlobalAllocator.AllApart` | kernel/src/memory/heap.rs:771-815 | allocations are 16-byte aligned, inside the heap, at least as large as asked, and disjoint from each other and from every free slot |
| `GlobalAllocator.Allocate` | kernel/src/memory/heap.rs:771-797 | routed by size; served exactly when the chosen layer can; the pointer is one no caller holds |
| `GlobalAllocator.Deallocate` | kernel/src/memory/heap.rs:799-815 | the matching route gives the block or slot back and no other allocation changes |
| `GlobalAllocator.Step` | kernel/src/memory/heap.rs:771-815 | after each matched call the heap still holds every word every caller stored |
| `GlobalAllocator.Run` | kernel/src/memory/heap.rs:771-815 | over every run of matched calls from an empty heap, both routes and any growth, blocks tile the heap and live payloads keep their contents and stay disjoint from each other and from all free slots |
| `Processes.Search` | kernel/src/scheduler/mod.rs:102-139 | the cyclic search returns a free index, and None only when every index is taken |
| `Processes.TrailingZeros` | kernel/src/scheduler/mod.rs:247-258 | the lowest set bit |
| `Processes.FindZombie` | kernel/src/scheduler/mod.rs:1110-1131 | the first matching zombie child, None exactly when there is none |
| `SchedulerInvariant.LevelOfNice` | kernel/src/process/mod.rs:350-352 | legal nice values map one to one, in order, to the 40 levels |
| `SchedulerInvariant.PopBest` | kernel/src/scheduler/mod.rs:247-258 | `pop` gives the oldest PID of the best non-empty level, None exactly when no PID is queued |
| `SchedulerInvariant.PopQueue` | kernel/src/scheduler/mod.rs:247-258 | the popped PID is in the pool, Ready, not idle and nowhere else queued |
| `SchedulerInvariant.RemoveQueue` | kernel/src/scheduler/mod.rs:284-292 | `remove` drops the PID from every level and the bitmap stays exact |
| `SchedulerInvariant.DueAre` | kernel/src/scheduler/mod.rs:448-466 | the woken sleepers are exactly those whose time has come, each once |
| `SchedulerInvariant.ChildrenAre` | kernel/src/scheduler/mod.rs:987-998 | the collected children are exactly the processes whose parent it is, each once |
| `SchedulerInvariant.WakeParentMid` | kernel/src/scheduler/mod.rs:1527-1551 | reporting a zombie leaves its parent not waiting for it |
| `SchedulerInvariant.AdoptMid` | kernel/src/scheduler/mod.rs:1000-1010 | moving an orphan to init keeps the invariant, a zombie orphan being reported to init |
| `SchedulerInvariant.ScheduleKeeps` | kernel/src/scheduler/mod.rs:441-583 | a scheduler pass keeps the whole invariant |
| `SchedulerInvariant.ForkKeeps` | kernel/src/scheduler/mod.rs:661-769 | so does a fork, whatever frames it finds |
| `SchedulerInvariant.ExitKeeps` | kernel/src/scheduler/mod.rs:957-1097 | so does exit with its reparenting and wake-ups |
| `SchedulerInvariant.WaitKeeps` | kernel/src/systemcalls/process.rs:268-322 | so does one round of wait |
| `SchedulerInvariant.SignalKeeps` | kernel/src/scheduler/mod.rs:1225-1289 | so does a signal |
| `SchedulerInvariant.UnblockKeeps` | kernel/src/scheduler/mod.rs:1176-1188 | so does an unblock |
| `SchedulerInvariant.StepKeeps` | kernel/src/scheduler/mod.rs:387-1289 | every event keeps: queued PIDs are queued once, in the pool, Ready and at the level of their nice value; the current process is Running and unqueued; the bitmap is exact; parents are occupied and no zombies; nobody waits for a child that is already its zombie |
| `SchedulerInvariant.RunKeeps` | kernel/src/scheduler/mod.rs:387-1289 | so every reachable state does |
| `SchedulerInvariant.BootInv` | kernel/src/scheduler/mod.rs:345-361 | the state after boot satisfies the invariant |
| `SchedulerInvariant.ZombieIsReapable` | kernel/src/scheduler/mod.rs:1110-1131 | every zombie has a living parent that is not waiting for it, and `reap` from that parent finds it with its exit code |
| `SchedulerInvariant.NoInheritedChildren` | kernel/src/scheduler/mod.rs:102-139 | a process in a reused slot is nobody's parent |
| `SchedulerInvariant.QueuedOnce` | kernel/src/scheduler/mod.rs:224-293 | a PID occurs at most once in all levels, is Ready and is not the current one |
| `Fairness.TickIs` | kernel/src/scheduler/mod.rs:441-583 | a tick with nobody due puts the running process at the back of its level and runs the head of the best level |
| `Fairness.DueSorted` | kernel/src/scheduler/mod.rs:448-466 | sleepers that are due are woken in slot order |
| `Fairness.FullTick` | kernel/src/scheduler/mod.rs:441-583 | any tick: behind whoever is queued come the sleepers that are due, in slot order, then the running process; the head of the best level runs |
| `Fairness.TickTurns` | kernel/src/scheduler/mod.rs:441-583 | while nobody better is queued a tick turns the ring of the level by one |
| `Fairness.RoundRobin` | kernel/src/scheduler/mod.rs:441-583 | after any number of ticks the ring has turned that far |
| `Fairness.EachTakesItsTurn` | kernel/src/scheduler/mod.rs:441-583 | the process at position i of the best level runs at tick i + 1 and not before |
| `Fairness.StepAdvances` | kernel/src/scheduler/mod.rs:224-293 | no event moves a queued process back: it runs, is stopped, or keeps its level and is no further from the head |
| `Fairness.RunAdvances` | kernel/src/scheduler/mod.rs:387-1289 | the same over every run |
| `Lifecycles.ExitFate` | kernel/src/scheduler/mod.rs:957-1097 | an exit makes the process a zombie with its code, hands its children to init, and makes Ready exactly those who wait for it or for a zombie orphan of it |
| `Lifecycles.WaitTold` | kernel/src/scheduler/mod.rs:1110-1149 | a wait parks if and only if there is a child and no zombie child to take, and reaps the first such one in slot order |
| `Lifecycles.StepFates` | kernel/src/scheduler/mod.rs:387-1289 | every event does to every process what a table by process says: state, parent, nice value, birth and burial |
| `Lifecycles.SwitchReady` | kernel/src/scheduler/mod.rs:1032-1097 | whoever is given the processor was Ready |
| `Lifecycles.ZombieStays` | kernel/src/scheduler/mod.rs:1110-1131 | an event leaves a zombie and its code alone, or is a wait of its parent that returns both |
| `Lifecycles.CodeDelivered` | kernel/src/scheduler/mod.rs:1110-1131 | over every run a zombie keeps its code until its parent reaps it and is told that code |
| `ReadyQueued.CreateIffRoom` | kernel/src/scheduler/mod.rs:102-139 | a process is created if and only if some index is free, wherever the search starts |
| `ReadyQueued.StepQueues` | kernel/src/scheduler/mod.rs:387-1289 | a step loses a runnable process, Ready but in no queue, if and only if it is a fork that finds a free slot and fewer frames than the root and user tables of its parent need |
| `ReadyQueued.LostAtBoot` | kernel/src/scheduler/mod.rs:661-769 | straight after boot, a fork that finds no frame loses its child |
| `ReadyQueued.RunQueues` | kernel/src/scheduler/mod.rs:387-1289 | over every run without such a fork every Ready process is queued |
| `ReadyQueued.BootQueues` | kernel/src/scheduler/mod.rs:345-361 | nobody is lost at boot |
| `ReadyQueued.BootedRunQueues` | kernel/src/scheduler/mod.rs:387-1289 | from boot on, a run in which every fork fits loses no one |
| `Scheduler.Core.constructor` | kernel/src/scheduler/mod.rs:345-361 | boot: idle runs, init is queued and registered, the invariant holds |
| `Scheduler.Core.AllocateSlot` | kernel/src/scheduler/mod.rs:102-139 | the loop computes the cyclic search and pads the pool |
| `Scheduler.Core.CreateProcess` | kernel/src/scheduler/mod.rs:375-385 | a fresh Ready process in the found slot |
| `Scheduler.Core.LowestBit` | kernel/src/scheduler/mod.rs:247-258 | the bit scan |
| `Scheduler.Core.PopPid` | kernel/src/scheduler/mod.rs:247-258 | pop in place |
| `Scheduler.Core.RemovePid` | kernel/src/scheduler/mod.rs:284-292 | remove in place |
| `Scheduler.Core.Retain` | kernel/src/scheduler/mod.rs:284-292 | the level without the PID, order kept |
| `Scheduler.Core.SwitchAway` | kernel/src/scheduler/mod.rs:1032-1097 | the next process is Running and current; old and new process are both in the pool, so neither panic is reachable |
| `Scheduler.Core.WakeSleepers` | kernel/src/scheduler/mod.rs:448-466 | the due sleepers become Ready in slot order |
| `Scheduler.Core.ScheduleNext` | kernel/src/scheduler/mod.rs:441-583 | a full pass refines its value form and keeps the invariant |
| `Scheduler.Core.ForkChild` | kernel/src/scheduler/mod.rs:661-769 | a queued child of the running process when the frames suffice, and a Ready process in no queue when they do not |
| `Scheduler.Core.AdoptOrphans` | kernel/src/scheduler/mod.rs:984-1014 | all children go to init one by one |
| `Scheduler.Core.ExitCurrent` | kernel/src/scheduler/mod.rs:957-1097 | exit refines its value form and keeps the invariant |
| `Scheduler.Core.ReapZombie` | kernel/src/scheduler/mod.rs:1110-1131 | the first matching zombie leaves the pool |
| `Scheduler.Core.AnyChildren` | kernel/src/scheduler/mod.rs:1139-1149 | true exactly when some process has it as parent |
| `Scheduler.Core.WaitChild` | kernel/src/systemcalls/process.rs:268-322 | reap a child or become Waiting, atomically |
| `Scheduler.Core.BlockCurrent` | kernel/src/scheduler/mod.rs:1163-1170 | Blocked, and another process runs |
| `Scheduler.Core.SleepUntil` | kernel/src/systemcalls/time.rs:87-99 | Sleeping until a tick, and another process runs |
| `Scheduler.Core.SendSignal` | kernel/src/scheduler/mod.rs:1225-1289 | stop, continue or cut a wait short, by signal |
| `Scheduler.Core.Run` | kernel/src/scheduler/mod.rs:387-1289 | any run of allowed events drives the core through the states of the value form, every one satisfying the invariant |
| `FatDisk.SetEntryReads` | kernel/src/fs/fat32.rs:279-310 | writing an entry makes its low 28 bits readable and changes no other entry of the sector |
| `FatDisk.SetEntryChanges` | kernel/src/fs/fat32.rs:279-310 | the sector changes if and only if the entry does |
| `FatDisk.FatApart` | kernel/src/fs/fat32.rs:219-231 | entries of different copies or sectors never share a sector |
| `FatDisk.Layout` | kernel/src/fs/fat32.rs:219-231 | the table copies follow each other, cluster 2 begins right behind the last one, and each cluster where the one before ends |
| `FatDisk.WritesMirror` | kernel/src/fs/fat32.rs:279-310 | after writing all copies every copy holds the updated table |
| `FatDisk.FirstCopy` | kernel/src/fs/fat32.rs:279-310 | of the first copy only the entry's own sector is rewritten |
| `FatChains.AllocOk` | kernel/src/fs/fat32.rs:387-412 | a free cluster is in no chain; appending it to one chain, or starting one, keeps all chains disjoint, terminated and covering every used entry |
| `FatChains.FreeOk` | kernel/src/fs/fat32.rs:414-434 | zeroing the clusters of one chain keeps the rest that way |
| `FatVolume.WriteCache` | kernel/src/fs/fat32.rs:279-310 | after a write the sector cache is right if and only if the write did not make it stale, which can only happen when the partition does not start at sector 0 |
| `FatVolume.StaleCache` | kernel/src/fs/fat32.rs:279-310 | a volume whose cache goes stale by one write |
| `FatVolume.EndMarkWrite` | kernel/src/fs/fat32.rs:414-434 | writing zero at the end mark as if it were a cluster changes nothing if and only if the word there is zero in every copy the write reaches |
| `FatVolume.EndBefore` | kernel/src/fs/fat32.rs:414-434 | that condition on the disk before is the one on the disk after the links are cleared |
| `FatVolume.EndOutside` | kernel/src/fs/fat32.rs:414-434 | where the end mark lies past the tables it says just that the words there are zero |
| `FatVolume.Volume.constructor` | kernel/src/fs/fat32.rs:737-815 | mounting: the bitmap agrees with the table |
| `FatVolume.Volume.BuildBitmap` | kernel/src/fs/fat32.rs:345-360 | each bit is set exactly when the entry is non-zero |
| `FatVolume.Volume.ReadFatEntry` | kernel/src/fs/fat32.rs:257-277 | returns the entry of the table, through the cache |
| `FatVolume.Volume.WriteFatEntry` | kernel/src/fs/fat32.rs:279-310 | sets the entry in every copy the device has, in order up to the first missing sector, and leaves the data area alone; the cache stays right exactly when not stale |
| `FatVolume.Volume.FindFree` | kernel/src/fs/fat32.rs:336-343 | the lowest free cluster, None exactly when all are used |
| `FatVolume.Volume.ClusterAtIndex` | kernel/src/fs/fat32.rs:362-371 | the cluster at that index of the chain; at the chain's length the end mark itself; beyond, None |
| `FatVolume.Volume.GetLastCluster` | kernel/src/fs/fat32.rs:373-385 | the walk terminates at the last cluster of the chain |
| `FatVolume.Volume.Claim` | kernel/src/fs/fat32.rs:387-412 | bitmap and table gain an end-marked cluster |
| `FatVolume.Volume.Relink` | kernel/src/fs/fat32.rs:387-412 | a used entry points elsewhere |
| `FatVolume.Volume.Release` | kernel/src/fs/fat32.rs:414-434 | bitmap and table lose a cluster |
| `FatVolume.Volume.AllocCluster` | kernel/src/fs/fat32.rs:387-412 | appends one previously free cluster to exactly one chain, or starts one; None exactly when the volume is full; bitmap, chains and data area stay right, and the cache does if and only if the partition starts at sector 0 or the chain is new and its sector was not cached |
| `FatVolume.Volume.FreeChain` | kernel/src/fs/fat32.rs:414-434 | releases exactly that chain in table and bitmap; the disk is otherwise unchanged if and only if, on the disk before the call, the word at the end mark is zero in every copy reached or is one the freeing clears anyway, and the cache is then right if and only if the partition starts at sector 0 |
| `FatWitnesses.EndMarkHit` | kernel/src/fs/fat32.rs:414-434 | a one-file volume on a device that reaches the end-mark sector: freeing the file clears a word outside table and file |
| `FatContent.FileAt` | kernel/src/fs/fat32.rs:229-251 | cluster k of a chain holds the file's bytes from k cluster sizes on |
| `FatContent.FileUpdate` | kernel/src/fs/fat32.rs:229-251 | overwriting one cluster of a chain replaces exactly its stretch of the file |
| `FatContent.OtherFile` | kernel/src/fs/fat32.rs:229-251 | a file whose chain lacks the cluster is untouched |
| `FatFiles.ReadCluster` | kernel/src/fs/fat32.rs:233-241 | the bytes of the cluster, None exactly for a cluster number below 2 or outside the device |
| `FatFiles.WriteCluster` | kernel/src/fs/fat32.rs:243-251 | exactly the cluster changes, or nothing when it lies outside the device |
| `FatFiles.ReadChunk` | kernel/src/fs/fat32.rs:1711-1749 | the part of a stretch that lies in one cluster |
| `FatFiles.ReadAt` | kernel/src/fs/fat32.rs:1711-1749 | returns content[offset .. min(offset + n, size)] of the flat file, whatever the chain |
| `FatFiles.UpdateDirEntry` | kernel/src/fs/fat32.rs:821-847 | patches size and first cluster of one 32-byte entry, which then read back, and nothing else |
| `FatNames.ShortSlotReads` | kernel/src/fs/fat32.rs:1123-1139 | the 8.3 slot reads back its attribute, cluster and size |
| `FatNames.GatherName` | kernel/src/fs/fat32.rs:1180-1245 | scanning the long-name slots, last part first, gathers the name, for every NUL-free ASCII name of 1 to 255 characters |
| `FatNames.SetScans` | kernel/src/fs/fat32.rs:1180-1268 | from any state of the scan the written set adds exactly its entry and leaves a clean state |
| `FatNames.ListWithoutRun` | kernel/src/fs/fat32.rs:1180-1268 | free slots list nothing and do not join their neighbours, whatever stands behind the first 0x00 slot |
| `FatNames.WriteThenList` | kernel/src/fs/fat32.rs:1032-1139 | writing the set over free slots that no 0x00 slot precedes lists what was before the run, the new name, and what is behind it; nothing old comes back if and only if the set ends before the first 0x00 slot or nothing is listed behind the run |
| `FatNames.UncoversIff` | kernel/src/fs/fat32.rs:1180-1268 | when an entry behind the first 0x00 slot comes back |
| `FatNames.WrittenTooFar` | kernel/src/fs/fat32.rs:1180-1268 | a set written behind a 0x00 slot is never listed |
| `FatNames.UnlinkRestores` | kernel/src/fs/fat32.rs:1498-1520 | deleting the slots of the set restores the old listing under the same condition |
| `FatLookup.LookupNew` | kernel/src/fs/fat32.rs:555-663 | the new name is found at its own slots whenever no 0x00 slot precedes them |
| `FatLookup.CreateUnlink` | kernel/src/fs/fat32.rs:1492-1525 | unlinking what lookup then finds restores the old listing if and only if nothing was uncovered |
| `FatDirectory.ScanCluster` | kernel/src/fs/fat32.rs:1180-1268 | the loop over one cluster is the scan of its slots |
| `FatDirectory.ListDir` | kernel/src/fs/fat32.rs:1180-1268 | the directory listing across all clusters of the chain is the scan of its slots |
| `FatDirectory.PlaceSlot` | kernel/src/fs/fat32.rs:1060-1139 | one slot at the cursor, flushing and following the chain at a cluster border |
| `FatDirectory.WriteLfnAnd83` | kernel/src/fs/fat32.rs:1032-1139 | on disk exactly the run of slots is replaced by the set, across cluster borders, the position of the 8.3 slot is returned, and no other cluster changes |
| `FatDirectory.EraseInCluster` | kernel/src/fs/fat32.rs:1150-1163 | the inner loop marks the slots of one cluster |
| `FatDirectory.MarkEntriesDeleted` | kernel/src/fs/fat32.rs:1144-1173 | exactly `count` slots lose their first byte, across cluster borders |
| `FatDirectory.CreateListUnlink` | kernel/src/fs/fat32.rs:1032-1268 | the whole round on disk: the listing gains exactly the new name, and after the slots are marked deleted it is what it was if and only if nothing was uncovered |
| `FatSlots.ScanRunFinds` | kernel/src/fs/fat32.rs:980-1008 | the scan of a cluster finds its first free run, and none only when there is none |
| `FatSlots.ChosenInSight` | kernel/src/fs/fat32.rs:966-1022 | the place chosen is at or before the first 0x00 slot if and only if there is no 0x00 slot or some cluster holds a free run of that length up to it |
| `FatSlots.FindInCluster` | kernel/src/fs/fat32.rs:980-1008 | the loop over one cluster |
| `FatSlots.FindExisting` | kernel/src/fs/fat32.rs:966-1012 | the search through the directory returns the cluster and index of the chosen run |
| `FatSlots.AppendCluster` | kernel/src/fs/fat32.rs:1012-1024 | one zeroed cluster behind the directory adds unused slots and touches no other file, and takes exactly one free cluster; None exactly when the volume is full |
| `FatSlots.FindFreeSlots` | kernel/src/fs/fat32.rs:966-1024 | returns the chosen run, in as many new clusters as it takes when there is none; None if and only if, before the call, there is no run and fewer clusters are free than it takes, and those are then used up |
| `FatSlots.CreatedLists` | kernel/src/fs/fat32.rs:1389-1397 | with the set at the chosen place the listing gains the new name if and only if that place is in sight, and otherwise stays what it was; it gains that name and nothing else if and only if the place is in sight and nothing is uncovered |
| `FatSlots.CreateEntry` | kernel/src/fs/fat32.rs:1389-1397 | choosing, extending and writing on disk: when there is no place, told from the state before; where the entry lands; and that the directory gains exactly the new name if and only if the place is in sight and nothing is uncovered; no other file changes |
| `FatSlots.OutOfSight` | kernel/src/fs/fat32.rs:966-1022 | a cluster with 15 of 16 slots in use: a set of two goes behind the 0x00 slot |
| `FatSlots.OldEntryReturns` | kernel/src/fs/fat32.rs:1032-1139 | a 16-slot cluster with two 0x00 slots before an old entry: a set of two goes there and brings the entry back |
| `FatOpen.LookCluster` | kernel/src/fs/fat32.rs:577-657 | the loop over one cluster is the search over its slots, and what it finds has that index |
| `FatOpen.LookupInDir` | kernel/src/fs/fat32.rs:555-663 | on disk, across clusters: finds a name if and only if the search over the slots of the directory does, and returns that slot with its cluster and index |
| `FatOpen.Open` | kernel/src/fs/fat32.rs:1335-1351 | opens what the search finds; the place a file remembers is its own if and only if its slot number is below the slots of one cluster |
| `FatOpen.Reopen` | kernel/src/fs/fat32.rs:1374-1386 | creating a file that exists opens it, and the place it remembers is always its own |
| `FatOpen.EntryMissed` | kernel/src/fs/fat32.rs:1335-1351 | an entry behind the first cluster keeps its bytes when only the first cluster is patched |
| `FatOpen.SecondCluster` | kernel/src/fs/fat32.rs:1335-1351 | a directory of two clusters: the name is found in slot 16 and the place handed on is slot 0 |
| `FatItems.ShortNameIs` | kernel/src/fs/fat32.rs:445-467 | an entry without long name is shown as its base, and a dot and its extension if there is one, each in small letters exactly when its bit of the case byte says so |
| `FatItems.AbcSlot` | kernel/src/fs/fat32.rs:1060-1122 | the long-name slot of "abc", byte by byte |
| `FatItems.ChecksumDetects` | kernel/src/fs/fat32.rs:507-513 | changing one byte of a short name always changes its checksum |
| `FatItems.ReadmeChecksum` | kernel/src/fs/fat32.rs:507-513 | the checksum of "README  TXT" |
| `FatItems.ListItems` | kernel/src/fs/fat32.rs:1180-1268 | a directory written down as long entries, short entries, labels, dot entries and deleted slots lists exactly the long and the short ones, in order, with name, kind, size and cluster |
| `FatItems.LookupItems` | kernel/src/fs/fat32.rs:555-663 | a lookup finds the first entry that has the name, with the place of its slots, and nothing when none has |
| `FatItems.SomeMatch` | kernel/src/fs/fat32.rs:555-663 | so it finds something if and only if some entry has the name |
| `FatItems.NamesMatch` | kernel/src/fs/fat32.rs:515-522 | names match if and only if they agree but for the case of Latin letters |
| `FatItems.ListEntries` | kernel/src/fs/fat32.rs:1180-1268 | the same listing read off the disk |
| `FatItems.FindEntry` | kernel/src/fs/fat32.rs:555-663 | the same lookup on disk |
| `FatShort.ShortRoundTrip` | kernel/src/fs/fat32.rs:476-506 | a name stored without long-name slots is shown as it was given if and only if what follows its first dot is one to three characters in one case, or it has no dot |
| `FatShort.ShortFound` | kernel/src/fs/fat32.rs:476-506 | a lookup matches it if and only if nothing was cut off behind the first dot |
| `FatShort.CreateInPlace` | kernel/src/fs/fat32.rs:1398-1412 | such an entry in a deleted slot: the listing gains it there and keeps everything else |
| `FatShort.CreateAtEnd` | kernel/src/fs/fat32.rs:1398-1412 | at the first 0x00 slot, the same when no used slot stands behind it |
| `FatShort.TwoDots` | kernel/src/fs/fat32.rs:886-903 | "ab.cd.ef" gets no long-name slots and is not found again |
| `FatWrite.WriteStep` | kernel/src/fs/fat32.rs:1768-1799 | one round of the write loop: inside the chain the bytes go to the cluster of the position; against the end mark nothing is written; past it a new cluster is taken behind the chain, None on a full volume, and written at the offset inside a cluster |
| `FatWrite.StandingPast` | kernel/src/fs/fat32.rs:1768-1799 | past the chain every full round ends past it again, except behind the first cluster of an empty file |
| `FatWrite.WriteData` | kernel/src/fs/fat32.rs:1768-1799 | the loop: where the bytes are, which clusters were added, and why it stopped |
| `FatWrite.ShortWrite` | kernel/src/fs/fat32.rs:1768-1799 | inside the chain or right behind it a write is short by exactly what does not fit: the file never grows |
| `FatWrite.SizeFits` | kernel/src/fs/fat32.rs:1801-1820 | the new size is backed by the chain if and only if the write starts inside it or at its end, or in the first cluster of an empty file when one is free |
| `FatWrite.WriteAt` | kernel/src/fs/fat32.rs:1751-1821 | at every offset: exactly the stated stretch of this file changes, the directory entry at the place the caller remembers reads back the new size and first cluster, no other file changes, and the size is backed by the chain exactly under that condition |
| `FatWrite.PatchReads` | kernel/src/fs/fat32.rs:1711-1821 | the stretch written reads back and any stretch beside it reads as before |
| `FatWrite.WriteThenRead` | kernel/src/fs/fat32.rs:1711-1821 | a write inside the chain or at its end, then a read: what was written comes back |
| `FatWitnesses.BeyondTheEnd` | kernel/src/fs/fat32.rs:1751-1821 | a file of one full cluster: a byte at its end is not written, and one further on is not either but leaves a size past the chain |
| `Pipes.WrapIsModulo` | kernel/src/fs/pipe.rs:78-114 | one conditional subtraction is the modulus |
| `Pipes.RingAppend` | kernel/src/fs/pipe.rs:78-96 | filling the free part, in at most two pieces, appends to the contents |
| `Pipes.RingDrop` | kernel/src/fs/pipe.rs:98-114 | advancing the head takes bytes off the front |
| `Pipes.PipeBuffer.constructor` | kernel/src/fs/pipe.rs:46-56 | empty |
| `Pipes.PipeBuffer.CopyIn` | kernel/src/fs/pipe.rs:78-96 | one piece |
| `Pipes.PipeBuffer.WriteBytes` | kernel/src/fs/pipe.rs:78-96 | accepts as much as fits, at the back, in order |
| `Pipes.PipeBuffer.ReadBytes` | kernel/src/fs/pipe.rs:98-114 | returns the oldest bytes and keeps the rest |
| `Pipes.ReadFine` | kernel/src/fs/pipe.rs:267-313 | a read keeps: bytes delivered and then buffered are the bytes accepted; a parked reader means an empty buffer and an open write end; a parked writer a full buffer and an open read end |
| `Pipes.WriteFine` | kernel/src/fs/pipe.rs:332-369 | so does a write |
| `Pipes.NextFine` | kernel/src/fs/pipe.rs:201-369 | so does every event |
| `Pipes.RunIsFine` | kernel/src/fs/pipe.rs:201-369 | over every run nothing is lost, duplicated or reordered and reader and writer are never both parked |
| `Pipes.Pipe.constructor` | kernel/src/fs/pipe.rs:249-255 | one handle on each end, nothing buffered |
| `Pipes.Pipe.ReadStretch` | kernel/src/fs/pipe.rs:267-313 | on the ring and the waiter records, one stretch is the abstract read: data, end of file or park |
| `Pipes.Pipe.WriteStretch` | kernel/src/fs/pipe.rs:332-369 | the write loop up to its return or block point is the abstract write: all, broken pipe, or part and park |
| `Pipes.Pipe.DropReadEnd` | kernel/src/fs/pipe.rs:201-228 | with the last read handle a parked writer wakes |
| `Pipes.Pipe.DropWriteEnd` | kernel/src/fs/pipe.rs:201-228 | with the last write handle a parked reader wakes |
| `Pipes.Pipe.Happen` | kernel/src/fs/pipe.rs:201-369 | every event refines its abstract form |
| `Pipes.Pipe.Run` | kernel/src/fs/pipe.rs:201-369 | every run of the two processes, of handles coming and going and of interrupted waits refines the abstract run |
| `DescriptorTables.FirstFree` | kernel/src/fs/vfs.rs:271-288 | the first free slot |
| `DescriptorTables.LowestIs` | kernel/src/fs/vfs.rs:271-288 | a number is given out if and only if it is free, all below it are taken, and the table may have it |
| `DescriptorTables.NewAt` | kernel/src/fs/vfs.rs:271-288 | a new descriptor changes exactly that number |
| `DescriptorTables.InsteadAt` | kernel/src/fs/vfs.rs:292-302 | installing at a number changes exactly that number |
| `DescriptorTables.PipeAt` | kernel/src/systemcalls/io.rs:411-445 | a pipe takes the two lowest free numbers, read end first, or no number changes |
| `DescriptorTables.CallAt` | kernel/src/fs/vfs.rs:260-410 | each other call, by what it does to one descriptor of one table |
| `DescriptorTables.BornAt` | kernel/src/fs/vfs.rs:260-266 | a child has its parent's descriptors, a new process none |
| `DescriptorTables.Dropped` | kernel/src/fs/pipe.rs:201-241 | dropping one handle keeps every count exact, the pipe disappearing with the last handle of both ends |
| `DescriptorTables.AllNamed` | kernel/src/fs/vfs.rs:260-410 | no handle in any table names a freed buffer |
| `DescriptorTables.System.constructor` | kernel/src/fs/vfs.rs:252-254 | no tables, no pipes |
| `DescriptorTables.System.CloneHandle` | kernel/src/fs/pipe.rs:184-199 | one more handle, counts exact |
| `DescriptorTables.System.DropHandle` | kernel/src/fs/pipe.rs:201-241 | one handle less, counts exact, buffer freed once at zero |
| `DescriptorTables.System.DropDescriptor` | kernel/src/fs/pipe.rs:201-241 | non-pipe descriptors carry no count |
| `DescriptorTables.System.DupDescriptor` | kernel/src/fs/vfs.rs:64-90 | the duplicate in hand is counted |
| `DescriptorTables.System.Install` | kernel/src/fs/vfs.rs:271-288 | the lowest free number, growing to the limit; a descriptor that does not fit is dropped with its count |
| `DescriptorTables.System.InstallAt` | kernel/src/fs/vfs.rs:292-302 | the slot is replaced and what was there is closed; -1 beyond the limit |
| `DescriptorTables.System.Close` | kernel/src/fs/vfs.rs:312-320 | exactly that slot is emptied |
| `DescriptorTables.System.CloseAll` | kernel/src/fs/vfs.rs:355-359 | every slot is emptied |
| `DescriptorTables.System.Dup` | kernel/src/fs/vfs.rs:401-411 | lowest free number, -9 for a closed source, -1 when full |
| `DescriptorTables.System.Dup2` | kernel/src/fs/vfs.rs:372-396 | replaces the destination; source equal to destination changes nothing |
| `DescriptorTables.System.CloneForFork` | kernel/src/fs/vfs.rs:260-266 | the child's table equals the parent's, every handle counted once more |
| `DescriptorTables.System.MakePipe` | kernel/src/fs/pipe.rs:249-255 | a fresh buffer with one handle on each end |
| `DescriptorTables.System.CreatePipe` | kernel/src/systemcalls/io.rs:411-445 | both ends in the two lowest free slots, or no pipe left behind |
| `DescriptorTables.System.Do` | kernel/src/fs/vfs.rs:260-410 | each call changes the tables as its value form says and keeps every count exact |
| `DescriptorTables.System.Run` | kernel/src/fs/vfs.rs:260-410 | over every run on any number of tables each pipe's end counts equal its live handles, its buffer is freed exactly once when both reach zero, and no live handle names a freed buffer |
| `MessageQueues.Place` | kernel/src/ipc/mqueue.rs:110-117 | the insertion point |
| `MessageQueues.InsertOrdered` | kernel/src/ipc/mqueue.rs:110-117 | a newcomer goes behind its equals and before everything lower |
| `MessageQueues.InsertContents` | kernel/src/ipc/mqueue.rs:110-117 | exactly one message is added |
| `MessageQueues.FairHandOver` | kernel/src/ipc/mqueue.rs:600-610 | one more unit in stock and one waiter woken for it: no wake-up is lost |
| `MessageQueues.SendSound` | kernel/src/ipc/mqueue.rs:554-610 | a send keeps: never over-full, in order, and waiting receivers or senders imply that messages or free slots are spoken for by those woken and yet to run |
| `MessageQueues.ReceiveSound` | kernel/src/ipc/mqueue.rs:637-700 | so does a receive that fits, which takes a message before all others in priority and age |
| `MessageQueues.SendAccounts` | kernel/src/ipc/mqueue.rs:554-610 | a send keeps the accounts of what was sent, received and is queued |
| `MessageQueues.ReceiveAccounts` | kernel/src/ipc/mqueue.rs:637-700 | so does a receive |
| `MessageQueues.ShortReceive` | kernel/src/ipc/mqueue.rs:643-652 | a receive that does not fit leaves the queue sound if and only if no other message shares the top priority and the wake-up it uses up is not needed; it then changes nothing else |
| `MessageQueues.SignalSound` | kernel/src/scheduler/mod.rs:1260-1289 | a signal leaves the queue sound if and only if the process is in no waiter list |
| `MessageQueues.NextKeeps` | kernel/src/ipc/mqueue.rs:554-700 | a call or signal keeps queue and accounts sound if and only if it does not upset them, told from the state before |
| `MessageQueues.RunKeeps` | kernel/src/ipc/mqueue.rs:554-700 | over every run of any number of processes in which nothing upsets the queue no wake-up is lost, every message is received once or still queued, and messages of one priority are received in sending order |
| `MessageQueues.WaitersAdvance` | kernel/src/ipc/mqueue.rs:600-700 | whoever waits longest is woken first: a message or free place wakes the first waiter and moves the others up, and nothing moves anyone back |
| `MessageQueues.SentAsOffered` | kernel/src/ipc/mqueue.rs:554-610 | what counts as sent is what senders that found room offered, with that priority and data, in order |
| `MessageQueues.EmptyKeeps` | kernel/src/ipc/mqueue.rs:86-103 | a new queue is sound and owes nothing |
| `MessageQueues.MessageQueue.constructor` | kernel/src/ipc/mqueue.rs:86-103 | an empty queue |
| `MessageQueues.MessageQueue.Enqueue` | kernel/src/ipc/mqueue.rs:110-117 | the scan inserts at that point |
| `MessageQueues.MessageQueue.SendStretch` | kernel/src/ipc/mqueue.rs:554-610 | one stretch of send, in place |
| `MessageQueues.MessageQueue.ReceiveStretch` | kernel/src/ipc/mqueue.rs:637-700 | one stretch of receive, in place, for any buffer; the queue stays sound if and only if it is not upset |
| `MessageQueues.MessageQueue.Run` | kernel/src/ipc/mqueue.rs:554-700 | every run in place that does not upset the queue is the abstract run |
| `MessageQueues.PutBackOrder` | kernel/src/ipc/mqueue.rs:643-652 | putting a message back keeps the order if and only if no other shares the top priority |
| `MessageQueues.PutBackWake` | kernel/src/ipc/mqueue.rs:643-652 | it loses a wake-up if and only if it used one up, others wait and every message was spoken for |
| `MessageQueues.LostWakeUp` | kernel/src/ipc/mqueue.rs:643-652 | two receivers park, one message is sent, the first comes back with too small a buffer: from the empty queue to a receiver asleep next to a message |
| `MessageQueues.Overtakes` | kernel/src/ipc/mqueue.rs:643-652 | from the empty queue: a receive that does not fit lets the younger of two equal messages overtake |
| `MessageQueues.StaleWaiter` | kernel/src/ipc/mqueue.rs:690-700 | from the empty queue: a signalled receiver stays listed |
| `Sha256.ZeroCount` | kernel/src/crypto/sha256.rs:98-121 | the padding fills the last block with the fewest zeros |
| `Sha256.DigitsSpell` | kernel/src/crypto/sha256.rs:113-118 | the length bytes spell the bit count |
| `Sha256.AbsorbPrefix` | kernel/src/crypto/sha256.rs:61-95 | later bytes do not change what earlier blocks make |
| `Sha256.FillSchedule` | kernel/src/crypto/sha256.rs:146-168 | the table holds the message schedule |
| `Sha256.CompressBlock` | kernel/src/crypto/sha256.rs:146-201 | the loops compute the compression function of section 6.2.2 of FIPS 180-4 |
| `Sha256.PadSplits` | kernel/src/crypto/sha256.rs:98-121 | the last one or two blocks of the message padded per section 5.1.1 of FIPS 180-4 |
| `Sha256.Hasher.constructor` | kernel/src/crypto/sha256.rs:51-58 | no input yet |
| `Sha256.Hasher.Fill` | kernel/src/crypto/sha256.rs:69-71 | copies into the buffer |
| `Sha256.Hasher.TopUp` | kernel/src/crypto/sha256.rs:66-80 | completes the buffered block and hashes it when full |
| `Sha256.AbsorbCut` | kernel/src/crypto/sha256.rs:61-95 | absorbing may be cut at any block boundary |
| `Sha256.WholeBlocks` | kernel/src/crypto/sha256.rs:82-88 | hashes exactly the whole blocks of the input, in order |
| `Sha256.Hasher.Update` | kernel/src/crypto/sha256.rs:61-95 | the state has absorbed every whole block of all input so far and the buffer holds the rest, whatever the split |
| `Sha256.Hasher.ZeroFrom` | kernel/src/crypto/sha256.rs:106-117 | zero fill |
| `Sha256.Hasher.SpillBlock` | kernel/src/crypto/sha256.rs:105-112 | a block without room for the length is completed and hashed |
| `Sha256.Hasher.Finalize` | kernel/src/crypto/sha256.rs:98-132 | the digest is that of the whole message under FIPS 180-4 |
| `Sha256.ToBytes` | kernel/src/crypto/sha256.rs:126-131 | the state words, most significant byte first |
| `Sha256.HashPieces` | kernel/src/crypto/sha256.rs:61-132 | for every message under 2^61 bytes and every split into updates the digest is the hash of the message |
| `Sha256Constants.PrimesInOrder` | kernel/src/crypto/sha256.rs:20-39 | the table of 64 primes is the primes in order from 2 |
| `Sha256Constants.RoundConstantIs` | kernel/src/crypto/sha256.rs:22-39 | each round constant is the first 32 fractional bits of the cube root of its prime |
| `Sha256Constants.InitialHashIs` | kernel/src/crypto/sha256.rs:15-18 | each initial hash word is the first 32 fractional bits of the square root of its prime |
| `Sha256Standard.SigmaBits` | kernel/src/crypto/sha256.rs:146-201 | the four sigma functions, bit by bit |
| `Sha256Standard.ChooseBits` | kernel/src/crypto/sha256.rs:170-201 | the first word chooses between the other two, bit by bit |
| `Sha256Standard.MajorityBits` | kernel/src/crypto/sha256.rs:170-201 | two of three votes decide each bit |
| `Sha256Standard.WordOfBytes` | kernel/src/crypto/sha256.rs:126-168 | words and bytes turn into each other, most significant byte first |
| `Sha256Standard.AbcDigest` | kernel/src/crypto/sha256.rs:136-201 | the digest of "abc" is that of the standard |
| `TicketLock.Outstanding` | kernel/src/sync/spinlock.rs:58-74 | tickets not yet released are held by as many threads |
| `TicketLock.TakeKeeps` | kernel/src/sync/spinlock.rs:58-61 | taking a ticket keeps the invariant across wrap-around |
| `TicketLock.EnterKeeps` | kernel/src/sync/spinlock.rs:65-74 | a thread whose number is served is the oldest waiter, and nobody holds the lock |
| `TicketLock.ReleaseKeeps` | kernel/src/sync/spinlock.rs:119-128 | so does a release |
| `TicketLock.RunKeeps` | kernel/src/sync/spinlock.rs:58-128 | every interleaving keeps it |
| `TicketLock.FirstComeFirstServed` | kernel/src/sync/spinlock.rs:58-74 | in every interleaving entries are made in ticket order |
| `TicketLock.EntersWhenServed` | kernel/src/sync/spinlock.rs:65-74 | a waiting thread enters at its next step if and only if every earlier ticket was released, and otherwise changes nothing |
| `TicketLock.ExclusiveIff` | kernel/src/sync/spinlock.rs:58-128 | mutual exclusion holds over all interleavings if and only if there are at most 2^32 threads |
| `TicketLock.TwoHolders` | kernel/src/sync/spinlock.rs:58-128 | with more threads, a schedule after which two hold the lock |
| `TicketLock.SpinLock.constructor` | kernel/src/sync/spinlock.rs:43-49 | both counters zero |
| `TicketLock.SpinLock.Interleave` | kernel/src/sync/spinlock.rs:58-128 | any interleaving ends exclusive and in ticket order |

## Left out

- FatSlots.AppendCluster: stated for a partition that starts at sector 0, like its callers.
- FatSlots.FindFreeSlots: stated for a partition that starts at sector 0, where the sector cache is right; `AllocCluster` says when it is elsewhere.
- FatSlots.CreateEntry: the same, and the name is one that needs a long entry; the short-alias choice is an input.
- FatWrite.WriteStep: stated for a partition that starts at sector 0 and a device that ends before the cluster an end mark would name.
- FatWrite.WriteData: the same.
- FatWrite.WriteAt: stated for a partition that starts at sector 0 and a device that ends before the cluster an end mark would name; file sizes are unbounded, so the cut to 32 bits at 4 GiB is not modelled.
- AddressSpaces.Spaces.ReadWord: what the hardware finds in broken tables after the access runs again is not followed.
- KernelHeap.Heap.FreeBytes: pointers that are not aligned, or whose preceding bytes imitate a header, are not covered.
- Short-alias generation; resolving a path through several directories; names outside ASCII.
- FatShort.CreateInPlace: the short path of `create` is followed on entries, not through the sectors.
- The FAT `free_clusters` counter, I/O errors on existing sectors, truncation and FSInfo.
- Demand regions backed by files, shared mappings, `map_block`, block descriptors, accesses at or above 2^47, and freeing a process's frames at exit.
- The physical allocator's boot loop over the memory map and its byte statistics.
- Heap statistics and alignments above 16.
- Multi-core scheduling, work stealing, futex wake-ups, thread creation, alarms and the pending-signal mask; SIGSTOP aimed at the running process; init exiting.
- Several readers or writers on one pipe end at once, non-blocking descriptors, close-on-exec masks.
- Message queue creation, removal and message size limits.
- Memory ordering below sequentially consistent atomics, and `force_unlock`.
- Hardware access, TLB maintenance, drivers, system call decoding, other file systems and SMP start-up.
