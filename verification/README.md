# Models of the ucore-mp64 kernel

ucore-mp64 is a small multiprocessor operating system written in C. This project models the
parts of it that carry real invariants and proves what they promise. Each part is a fast or stateful
structure that stands for something simple:

| part | files | stands for |
|---|---|---|
| private memory with copy-on-write and swap | `PagingState`, `PagingClauses`, `PagingSteps`, `PagingSpec`, `PagingFacts`, `Paging`, `PagingExamples` | a memory of its own for each process |
| red-black tree | `RbShape`, `RbHeap`, `RbFacts`, `RbTree` | a sorted list |
| areas of an address space | `VmaState`, `VmaFacts`, `VmaSpec`, `Vma` | a partial map from addresses to flags |
| buddy page allocator | `Bits`, `BuddyShape`, `BuddyState`, `Buddy` | a set of free pages |
| radix-heap timers | `CrhDigits`, `Crh`, `Timer` | a set of deadlines |
| TLB shootdown between CPUs | `Shootdown` | page tables that every CPU agrees on |
| mailboxes | `MboxState`, `Mbox`, `MboxData` | a bounded queue of messages |
| scheduler | `SchedState`, `Sched` | runnable processes, each in one place |
| delta-list timers | `DeltaTimer` | a remaining time for each timer |
| pid allocation | `Pid` | the next unused number |
| slab caches | `Slab` | a set of live objects that do not overlap |
| boot memory map | `MemMap` | the usable addresses |
| file-system image builder | `Mksfs` | files as lists of blocks |

`Common` holds lists without duplicates and counting. Code that updates things in place is a class whose
methods follow the C functions branch by branch; references become indices, linked lists become
sequences, and what a proof has to remember besides is ghost. The shootdown is a state machine over
single accesses to shared memory, because its point is how the CPUs interleave.

Every method that changes state promises the invariant of its class and the new state. `Run` methods take
an arbitrary sequence of operations, so what they promise holds for every history.

## What the code does and does not promise

Where the code falls short of what one would expect, a member gives the exact condition, in terms of the
state before the call, and another one an input at which it happens.

- A write fault on a page that is already mapped rewrites the entry without its dirty bit. If the store
  were not repeated, the page could be dropped as clean and an older copy read back from disk. The
  fault and its repeated store are therefore one step (`Paging.Pager.Store`). `Paging.Pager.DoPgfault` states
  exactly when the fault alone loses the bit, `PagingExamples.LoseDirty` reaches such a state from boot by
  the modelled operations, and `PagingExamples.DirtyLost` shows the old value coming back.
- `do_pgfault` may report success without mapping the page: exactly on a permitted write to a swap entry
  whose page is cached and shared, with no frame free (`SilentFailure` in `Paging.Pager.DoPgfault`);
  `PagingExamples.SilentSuccess` gets there from boot.
- A first-touched page is not cleared: it shows the old contents of the frame (`Paging.Pager.FaultEmpty`), in
  `PagingExamples.StaleRead` a word that another process stored. Isolation is about memory a process has,
  not about what freed frames still hold.
- `memmap_test` accepts a range that begins in or after the last usable range and reaches past its end.
  `MemMap.MemoryMap.Test` states that it is right for all other ranges and wrong for exactly these;
  `MemMap.TestExample` is one.
- `buddy_free_pages` asserts that its order stays small. `Buddy.Allocator.FreePages` returns whether the
  assertion held: if and only if fewer than 2^17 pages are left at the next multiple of 2^17.
  `Buddy.WholeZone` frees an aligned range of 2^17 pages, where it does not.
- `mm_brk` may fail after it has unmapped its range. `VmaManager.Mm.MmBrk` states exactly when;
  `VmaManager.BrkHalfDone` is an address space in which it does.
- A length so large that address plus length wraps round is accepted by `mm_map`, `mm_unmap` and `mm_brk` if the
  sum lies on the page of the address, and then means that page; a length of 0 at an address inside a page
  means the page too. `VmaFacts.RangeIs` states exactly when, `VmaManager.HugeLength` is an input.
  `user_mem_check` refuses both.
- A message that could not be stored goes back to the front of a mailbox even beyond `max_slots`.
  `Mbox.BoundStep` says that nothing else breaks the bound, `Mbox.BoundedHistory` by how much a history can
  break it, and `Mbox.Overfull` is a history that does.
- After going round, `get_pid` may hand out the number of an idle process, which is not on its list.
  `Pid.PidAllocator.GetPid` states exactly when, `Pid.IdleExample` is an input, and `Sched.Scheduler.DoFork`
  shows that the assertion in `wakeup_proc` stops the kernel then.
- `init_kmem_cache` panics when no order suits; `Slab.InitCache` states exactly when, and `Slab.SlabInit` that
  it does not for the caches the kernel makes.

## Model

| member | source | states |
|---|---|---|
| `Paging.Pager.Run` | src/kern-ucore/mm/vmm.c:701-833 | For every interleaving of stores, loads, forks, unmaps, swap-outs, laundering (with the disk write in two steps), refills, process creation and exit: every state on the way satisfies the full invariant, no frame and no slot is lost, and the memory the processes see develops as in a world where each has its own. A store or load fails exactly when the page is neither mapped for it nor mapped by the fault; fork, unmap, spawn and exit happen exactly when that world allows them; the work of kswapd is invisible there, and what it does to entries, lists and disk is stated for each of its steps |
| `Paging.Pager.Step` | src/kern-ucore/mm/vmm.c:701-833 | One operation has an allowed outcome, the new world is that outcome applied to the old one, frames and slots are conserved, and a store or load succeeds if and only if the page is mapped for it or the fault maps it |
| `PagingSpec.Isolation` | src/kern-ucore/mm/vmm.c:782-825 | In every such history a process's pages keep their contents until the process acts itself |
| `PagingSpec.LoadSeesStore` | src/kern-ucore/mm/vmm.c:782-825 | A load returns what the process last stored at that word, whatever other processes and kswapd did in between, and whatever the process itself did to other pages and other words |
| `PagingSpec.StoreThenLoad` | src/kern-ucore/mm/vmm.c:701-833 | In every history: a store that is done, any operations that leave the word alone, and a load that succeeds give back the stored value |
| `PagingSpec.WordKept` | src/kern-ucore/mm/vmm.c:782-825 | In every history in which no operation overwrites the word, the word keeps its value |
| `PagingSpec.ChildHasCopy` | src/kern-ucore/glue-ucore/pmm.c:385-429 | In every history after a fork the child has each word of the parent as it was at the fork, until it stores to it or unmaps the page itself |
| `PagingSpec.UnmappedIsGone` | src/kern-ucore/glue-ucore/pmm.c:267-338 | In every history after an unmap exactly the pages outside the range are left, until the process acts again |
| `PagingSpec.ComesAndGoes` | src/kern-ucore/process/proc.c:508-605 | A process comes if and only if there is room, goes if and only if it has given up its memory, and no other operation changes which processes there are |
| `PagingSpec.Accounting` | src/kern-ucore/glue-ucore/pmm.c:193-244 | In every reachable state page->ref is the number of present entries that name the frame, mem_map counts the swap entries that name the slot, no frame in use is free, and a slot has at most one cached page |
| `PagingSpec.WritableAlone` | src/kern-ucore/mm/vmm.c:782-825 | In every reachable state a writable entry is the only reference to its frame and to the frame's slot |
| `PagingSpec.UnusedExactly` | src/kern-ucore/mm/swap.c:243-352 | A slot is marked SWAP_UNUSED if and only if no entry and no cached page uses it |
| `PagingSpec.MemoryDetermined` | src/kern-ucore/mm/vmm.c:782-825 | The memory a process sees is a function of entries, frames, cache and disk; the model adds nothing to it |
| `PagingSpec.InitialInv` | src/kern-ucore/mm/swap.c:158-191 | The state after swap_init satisfies the invariant |
| `Paging.Pager.constructor` | src/kern-ucore/mm/swap.c:158-191 | After swap_init no process has memory, every frame is free and the invariant holds |
| `Paging.Pager.Store` | src/kern-ucore/mm/vmm.c:701-833 | A store changes one word of one page of one process and nothing any other process sees; it is done if and only if the page is mapped writable or the fault maps it, and a first touch shows the old contents of a free frame around the word |
| `Paging.Pager.Load` | src/kern-ucore/mm/vmm.c:701-833 | A load returns the page of the process's own memory and sets the accessed bit; it succeeds if and only if the page is mapped or the fault maps it, and on a first touch returns the old contents of a free frame |
| `Paging.Pager.DoPgfault` | src/kern-ucore/mm/vmm.c:701-833 | The fault changes nobody's contents. It maps the page if and only if the access is allowed and: on a first touch a frame is free; on a mapped page a frame is free or no copy is needed; on a swap entry, the same if the page is cached, and otherwise the read succeeds with two frames free, or one if the area is not writable. It reports success if and only if it maps the page or, without mapping it, a write needs a copy of a cached page and no frame is free. The whole invariant survives if and only if it is not a permitted write to a page that need not be copied and whose D bit is the only record that it differs from its disk copy. A page mapped writable is shared with nobody |
| `PagingExamples.DirtyLost` | src/kern-ucore/glue-ucore/pmm.c:225-244 | Once the fault has dropped the D bit, swap-out and laundering drop the page, and the process would read the old value from the disk |
| `PagingExamples.OnlyDirtyBit` | src/kern-ucore/glue-ucore/pmm.c:225-244 | By stores, swap-outs, laundering, a fork and an unmap from boot: a mapped page that a write fault need not copy and whose D bit is the only record of a store |
| `PagingExamples.LoseDirty` | src/kern-ucore/mm/vmm.c:782-825 | The write fault in that state breaks the invariant |
| `PagingExamples.SilentSuccess` | src/kern-ucore/mm/vmm.c:782-825 | From boot: a write fault reports success and the page is not mapped for writing |
| `PagingExamples.StaleRead` | src/kern-ucore/mm/vmm.c:758-763 | From boot: a first load returns a word that another process stored before it gave its page up |
| `Paging.Pager.FaultEmpty` | src/kern-ucore/mm/vmm.c:758-763 | A first touch maps a new page and changes no other contents; the page shows the old contents of a free frame; it fails if and only if no frame is free, and then changes nothing |
| `Paging.Pager.FaultPresent` | src/kern-ucore/mm/vmm.c:782-825 | A write to a shared page copies it, to an unshared one reuses it; contents stay, and the entry is then the only reference; it fails if and only if the page is shared and no frame is free; the exact condition under which the dirty state is lost |
| `Paging.Pager.FaultSwapped` | src/kern-ucore/mm/vmm.c:782-825 | A fault on a swap entry brings the page back with the right contents, shared read-only or as the only reference; it maps the page, and it reports success without mapping it, under exactly the conditions given at DoPgfault |
| `Paging.Pager.InsertCopy` | src/kern-ucore/mm/vmm.c:812-824 | Replacing an entry by a private copy of its page changes no contents and gives up the old reference |
| `Paging.Pager.InsertCached` | src/kern-ucore/mm/vmm.c:812-824 | Mapping the cached page keeps contents and returns the spare page |
| `Paging.Pager.PageInsert` | src/kern-ucore/glue-ucore/pmm.c:225-244 | With another frame: the old reference is dropped, counts stay exact and the process sees the new frame; with the same frame: only the bits of the entry change |
| `Paging.Pager.PageRemovePte` | src/kern-ucore/glue-ucore/pmm.c:193-215 | The entry goes, its page or slot is released exactly when nothing else uses it, a dirty page stays marked, and nobody else's memory changes |
| `Paging.Pager.RemoveAnon` | src/kern-ucore/glue-ucore/pmm.c:193-215 | The same for a page that is not in the swap cache: the frame is freed with its last reference |
| `Paging.Pager.CopyPte` | src/kern-ucore/glue-ucore/pmm.c:404-425 | Copying one entry shares page or slot so that neither side can write it alone, and the child sees the parent's contents |
| `Paging.Pager.CopyRange` | src/kern-ucore/glue-ucore/pmm.c:385-429 | After a fork the child's pages in the range are exactly the parent's and nothing else changed |
| `Paging.Pager.UnmapRange` | src/kern-ucore/glue-ucore/pmm.c:267-338 | Exactly the pages in the range disappear, from this process only |
| `Paging.Pager.SwapHashFind` | src/kern-ucore/mm/swap.c:276-287 | The search through one hash list finds the page cached for the slot if there is one, in whatever list order |
| `Paging.Pager.TryAllocSwapEntry` | src/kern-ucore/mm/swap.c:289-333 | Returns an unused slot, evicting a page whose slot has no entry if need be, and 0 only when every slot is in use; its assertion never fails and nobody's memory changes |
| `Paging.Pager.EvictZero` | src/kern-ucore/mm/swap.c:315-326 | The cached page of a slot without entries leaves the cache, freed unless it is mapped, and the slot becomes unused |
| `Paging.Pager.SwapRemoveEntry` | src/kern-ucore/mm/swap.c:335-352 | One swap reference less; the slot and its unmapped cached page are released exactly with the last one |
| `Paging.Pager.FreeZeroSlot` | src/kern-ucore/mm/swap.c:342-350 | The release of a slot nothing refers to, with its page |
| `Paging.Pager.SwapInPage` | src/kern-ucore/mm/swap.c:373-420 | Afterwards the returned page is the one cached for the slot, with the slot's contents; it fails if and only if the page is not cached and the read fails or no frame is free |
| `Paging.Pager.SwapPageCount` | src/kern-ucore/mm/swap.c:354-363 | The number of page-table entries that name the page's slot, and one more while the page is being written to the disk; 0 for a page outside the swap cache |
| `PagingFacts.SlotRoom` | src/kern-ucore/mm/swap.c:365-371 | In every reachable state a slot in use has room for one more reference, so the assertion of swap_duplicate never fails |
| `Paging.Pager.SwapOutPte` | src/kern-ucore/mm/swap.c:552-586 | An accessed page only loses its accessed bit; otherwise the entry becomes a swap entry unless no slot can be had; no process sees a difference |
| `Paging.Pager.Unmap` | src/kern-ucore/mm/swap.c:569-573 | Exchanging a present entry for the swap entry of its cached page keeps counts and contents |
| `Paging.Pager.SwapOutVma` | src/kern-ucore/mm/swap.c:529-589 | The result is the number of entries that were mapped and now name a slot, at most the required number, all in the range; every other entry of the range is as it was or has lost its accessed bit; if fewer go out, no page left mapped there has the bit; no process notices |
| `Paging.Pager.LaunderTake` | src/kern-ucore/mm/swap.c:474-490 | The first inactive page is reactivated exactly if mapped, freed exactly if unmapped and clean or without entries, and otherwise handed to the disk write; no contents change |
| `Paging.Pager.LaunderDone` | src/kern-ucore/mm/swap.c:490-507 | After the write, during which the page may have been mapped and dirtied again: it is freed exactly if unmapped, written and clean, and otherwise put on the right list |
| `Paging.Pager.PageLaunder` | src/kern-ucore/mm/swap.c:468-509 | As many frames become free as it counts, what remains inactive is dirty, nothing remains if every write succeeds, and no contents change |
| `Paging.Pager.FreeOff` | src/kern-ucore/mm/swap.c:502-506 | Freeing a laundered page frees its slot if nothing else uses it and loses no contents |
| `Paging.Pager.RefillInactiveScan` | src/kern-ucore/mm/swap.c:510-527 | Exactly the unmapped active pages move to the inactive list |
| `PagingExamples.Reclaimed` | src/kern-ucore/mm/swap.c:468-527 | When every entry has been swapped out and the disk can be written, refilling and laundering leave no page cached and every frame free, with all contents on disk |
| `RbTree.RbTree.Insert` | src/kern-ucore/libs/rb_tree.c:132-172 | The tree stays a red-black tree with correct parent links, and its sorted listing gains exactly the node, after all nodes that are not greater |
| `RbTree.RbTree.InsertBinary` | src/kern-ucore/libs/rb_tree.c:113-130 | The new leaf hangs where the sorted listing needs it |
| `RbTree.RbTree.InsertFixup` | src/kern-ucore/libs/rb_tree.c:138-172 | From one red node below a red node the loop restores a red-black tree with the same listing |
| `RbTree.RbTree.Rotate` | src/kern-ucore/libs/rb_tree.c:79-98 | Both rotations turn the subtree in place, anywhere in the tree, without touching other nodes |
| `RbTree.RbTree.Delete` | src/kern-ucore/libs/rb_tree.c:295-328 | The tree stays a red-black tree and its listing loses exactly the node |
| `RbTree.RbTree.DeleteFixup` | src/kern-ucore/libs/rb_tree.c:246-289 | From one black too few the loop restores a red-black tree with the same listing, although it compares with a root saved before the rotations |
| `RbTree.RbTree.FixTurn` | src/kern-ucore/libs/rb_tree.c:250-276 | One turn keeps the listing and moves the missing black up, or ends with a red-black tree whose saved root is black |
| `RbTree.RbTree.Splice` | src/kern-ucore/libs/rb_tree.c:300-311 | A node with at most one child is cut out |
| `RbTree.RbTree.TakePlace` | src/kern-ucore/libs/rb_tree.c:315-324 | The successor takes over place, colour and children of the deleted node |
| `RbTree.RbTree.Neighbour` | src/kern-ucore/libs/rb_tree.c:179-225 | Successor and predecessor are the neighbours in the listing, nil at its ends |
| `RbTree.RbTree.Search` | src/kern-ucore/libs/rb_tree.c:232-240 | Finds a node that compares equal if there is one |
| `RbTree.RbTree.constructor` | src/kern-ucore/libs/rb_tree.c:29-65 | An empty tree |
| `RbFacts.HeightBound` | src/kern-ucore/libs/rb_tree.c:132-172 | A red-black tree of n nodes is at most 2 log2(n+1) high |
| `VmaManager.Mm.Run` | src/kern-ucore/mm/vmm.c:305-517 | In every state of every history of map, unmap and brk calls an address is mapped, with given flags, exactly as the outcomes so far say, and each outcome is determined by the state before the call; list, tree, cache and count agree; each call may or may not get memory for the tree |
| `VmaManager.Mm.Step` | src/kern-ucore/mm/vmm.c:305-517 | The same for one call, whose outcome (done, failed without effect, or unmapped only) is a function of the state before it |
| `VmaManager.Mm.MmMap` | src/kern-ucore/mm/vmm.c:305-334 | Succeeds only on a free range and maps exactly the pages that the bytes asked for touch, as an area of its own; refused if and only if the rounded range is not user memory or overlaps an area; out of memory if and only if it is free and no descriptor is; failure changes nothing |
| `VmaManager.Mm.MmUnmap` | src/kern-ucore/mm/vmm.c:368-429 | Afterwards no byte asked for is mapped, and an address on any other page is mapped as before; unmap_range is called on exactly the mapped addresses of those pages; refused if and only if the range is not user memory; out of memory if and only if an area encloses the range and no descriptor is free |
| `VmaManager.Mm.UnmapInside` | src/kern-ucore/mm/vmm.c:382-391 | Splitting one area removes exactly the range |
| `VmaManager.Mm.UnmapAcross` | src/kern-ucore/mm/vmm.c:393-428 | Trimming and deleting any number of areas removes exactly the range |
| `VmaManager.Mm.Detach` | src/kern-ucore/mm/vmm.c:393-403 | Exactly the areas that meet the range are taken out, in reverse order |
| `VmaManager.Mm.Reattach` | src/kern-ucore/mm/vmm.c:405-427 | What sticks out of the range goes back, trimmed, and the unmapped parts are exactly what was removed |
| `VmaManager.Mm.MmBrk` | src/kern-ucore/mm/vmm.c:495-517 | Every byte asked for ends up mapped read-write and no other page changes; unmap_range is called on exactly what was mapped there. It fails for want of a descriptor if and only if the unmap does, or no read-write area ends at the start and the last descriptor is gone after the unmap (an area enclosing the range takes one, an area inside it gives one back); the range is then unmapped exactly if the unmap succeeded |
| `VmaManager.Mm.MapThenUnmap` | src/kern-ucore/mm/vmm.c:305-429 | Mapping a range and unmapping it leaves every address as it was, and the unmapping never fails |
| `VmaManager.BrkHalfDone` | src/kern-ucore/mm/vmm.c:495-517 | With one read-only area of two pages and one descriptor, brk from its second page on fails and leaves only the first page mapped |
| `VmaManager.UnmapLast` | src/kern-ucore/mm/vmm.c:368-429 | Unmapping the only mapped page, as a step of a history, is done and leaves nothing mapped |
| `VmaManager.HugeLength` | src/kern-ucore/mm/vmm.c:305-334 | A length of 2^64 - 256 is accepted and maps one page |
| `VmaFacts.RangeIs` | src/kern-ucore/mm/vmm.c:305-310 | In plain arithmetic: without wrap-round the range is user memory if and only if the bytes are and touch a page, and consists of exactly the pages they touch; with wrap-round it is accepted if and only if the sum lies past the beginning of the page of the address, and is that page |
| `VmaSpec.FullAfter` | src/kern-ucore/mm/vmm.c:368-429 | After unmapping a range no descriptor is free if and only if an area enclosed the range and one was free before, or none was free and no area lay inside the range |
| `VmaManager.Mm.Grow` | src/kern-ucore/mm/vmm.c:507-511 | Extending an area over a free range maps exactly that range more |
| `VmaManager.Mm.FindVma` | src/kern-ucore/mm/vmm.c:147-177 | Through cache, tree or list, always the lowest area that ends after the address |
| `VmaManager.Mm.FindVmaRb` | src/kern-ucore/mm/vmm.c:126-145 | The search in the tree finds the lowest area that ends after the address |
| `VmaManager.Mm.FindVmaList` | src/kern-ucore/mm/vmm.c:157-170 | The search in the list finds the same |
| `VmaManager.Mm.InsertVma` | src/kern-ucore/mm/vmm.c:216-266 | An area that overlaps nothing goes where its start belongs, in list and tree; the tree is built if and only if the count has reached 32 and there is memory for it |
| `VmaManager.Mm.InsertVmaRb` | src/kern-ucore/mm/vmm.c:205-214 | The tree gains the area and names its predecessor |
| `VmaManager.Mm.BuildTree` | src/kern-ucore/mm/vmm.c:254-265 | The new tree lists the areas as the list does |
| `VmaManager.Mm.RemoveVma` | src/kern-ucore/mm/vmm.c:268-281 | The area leaves list, tree, cache and count |
| `VmaManager.Mm.GetUnmappedArea` | src/kern-ucore/mm/vmm.c:473-493 | The highest start at which the length is free in user memory, or 0 if and only if there is none or the length is 0 |
| `VmaManager.Mm.UserMemCheck` | src/kern-ucore/mm/vmm.c:519-544 | True if and only if address plus length does not wrap round, the bytes are user memory and every one of them may be accessed so, the guard page of a stack included |
| `VmaManager.Mm.constructor` | src/kern-ucore/mm/vmm.c:80-99 | An address space without areas |
| `VmaFacts.CutMaps` | src/kern-ucore/mm/vmm.c:368-429 | The trimmed areas map exactly what was mapped outside the range |
| `BuddyShape.BlocksUnique` | src/supervisor/mm/buddy_pmm.c:53-217 | A set of blocks is aligned, disjoint, covers exactly the free pages and holds no two buddies if and only if it is the set of maximal free blocks: the blocks are a function of the free pages |
| `Buddy.StateIsBuddySystem` | src/supervisor/mm/buddy_pmm.c:53-217 | In every valid state the free blocks of each zone form such a set |
| `Buddy.SameBlocks` | src/supervisor/mm/buddy_pmm.c:53-217 | Two valid states with the same free pages have the same blocks |
| `Buddy.Allocator.constructor` | src/supervisor/mm/buddy_pmm.c:43-50 | No zone, and every page reserved |
| `Buddy.Allocator.InitMemmap` | src/supervisor/mm/buddy_pmm.c:53-77 | A new zone, all of whose pages are free; the free count grows by n |
| `Buddy.Allocator.GetOrder` | src/supervisor/mm/buddy_pmm.c:80-89 | The least order whose block holds n pages |
| `Buddy.Allocator.AllocSub` | src/supervisor/mm/buddy_pmm.c:93-118 | An aligned free block of the order leaves the free pages; none only if no zone has one |
| `Buddy.Allocator.Split` | src/supervisor/mm/buddy_pmm.c:103-113 | Halving a block frees exactly its upper part, each half being a maximal free block |
| `Buddy.Allocator.AllocPages` | src/supervisor/mm/buddy_pmm.c:121-130 | Fails if and only if no zone has an aligned free run of the least order that holds n; otherwise exactly n contiguous free pages leave the free set |
| `Buddy.BuddyIs` | src/supervisor/mm/buddy_pmm.c:134-142 | page_is_buddy is true if and only if that block is a maximal free block of the zone |
| `Buddy.Allocator.FreeSub` | src/supervisor/mm/buddy_pmm.c:158-186 | The block joins the free pages, merged with every free buddy on the way up |
| `Buddy.Allocator.FreePages` | src/supervisor/mm/buddy_pmm.c:189-217 | Whatever the alignment: the assertion on the order holds if and only if fewer than 2^17 pages are left at the next multiple of 2^17, and then exactly the pages of the range become free and have their reference counts cleared; otherwise exactly those before that multiple become free |
| `Buddy.WholeZone` | src/supervisor/mm/buddy_pmm.c:189-217 | Freeing the two halves of a zone of 2^17 pages in one call fails the assertion |
| `Buddy.Allocator.FreeUp` | src/supervisor/mm/buddy_pmm.c:195-206 | Ever larger blocks until the start is aligned or the rest is smaller; the assertion fails exactly in the case given at FreePages, with everything before the multiple of 2^17 freed |
| `Buddy.Allocator.FreeDown` | src/supervisor/mm/buddy_pmm.c:207-216 | Ever smaller blocks for the rest |
| `Buddy.Allocator.NrFreePages` | src/supervisor/mm/buddy_pmm.c:220-227 | The sum over the list counters is the number of free pages |
| `Buddy.Allocator.AllocThenFree` | src/supervisor/mm/buddy_pmm.c:121-217 | Allocating n pages and freeing them restores free pages and blocks exactly |
| `Buddy.NoBlock` | src/supervisor/mm/buddy_pmm.c:93-98 | With the lists from an order up empty, no zone has a free aligned block of that order |
| `Crh.Heap.constructor` | src/kern-river/libs/crh.c:5-8 | No key pending |
| `Crh.Heap.Place` | src/kern-river/libs/crh.c:10-25 | A node goes into the bucket its key belongs in, and both bitmap levels show it |
| `Crh.Heap.Insert` | src/kern-river/libs/crh.c:75-81 | The key becomes pending; refused if and only if it is the base |
| `Crh.Heap.SetBase` | src/kern-river/libs/crh.c:27-73 | Moving the base without passing a key hands out exactly the nodes at the new base; every other node is in the right bucket as seen from there |
| `Crh.Heap.MaxStep` | src/kern-river/libs/crh.c:83-108 | 0 if and only if nothing is pending; otherwise positive, never past a key, and to the beginning of a bucket that holds one |
| `Crh.Heap.Remove` | src/kern-river/libs/crh.c:110-136 | Exactly this key is no longer pending |
| `CrhDigits.BaseMove` | src/kern-river/libs/crh.c:27-73 | Moving the base changes the bucket of a later key only if the key was in the bucket of the new base |
| `CrhDigits.LevelIs` | src/kern-river/libs/crh.c:10-25 | The bit-scan of base xor key is the hexadecimal digit at which they part |
| `Timer.Driver.TickHandler` | src/kern-river/drivers/timer.c:140-166 | Terminates, and fires exactly the open timers with a deadline in the elapsed time, in the order of their deadlines |
| `Timer.Driver.TimerOpen` | src/kern-river/drivers/timer.c:105-118 | The deadline becomes pending, or the timer fires at once if it is now |
| `Timer.Driver.TimerClose` | src/kern-river/drivers/timer.c:120-132 | Exactly this timer is no longer pending, and nothing fires |
| `Timer.Driver.QueueAppend` | src/kern-river/drivers/timer.c:26-60 | Unlinking node after node from the head of the ring, every node fires once, in ring order, and is closed; a node that is not the head is never met |
| `Timer.RingHead` | src/kern-river/drivers/timer.c:36-44 | The head of a ring is its own successor if and only if it is alone; otherwise unlinking it leaves the ring of the others |
| `Timer.Driver.Run` | src/kern-river/drivers/timer.c:105-166 | Every history of opens, closes and ticks follows the clock it stands for |
| `Timer.FiresOnTime` | src/kern-river/drivers/timer.c:105-166 | In every history a pending timer that nobody closes fires in the operation in which the clock reaches its deadline, and in no other |
| `Timer.FiresExactly` | src/kern-river/drivers/timer.c:105-166 | In every history from the start a timer fires in an operation if and only if this opens it for the current tick, or is a tick in which the clock reaches the deadline it was last opened for, with no close since |
| `Timer.ClosedIsQuiet` | src/kern-river/drivers/timer.c:120-132 | In every history a closed timer does not fire before it is opened again |
| `Timer.Driver.constructor` | src/kern-river/drivers/timer.c:168-179 | Clock at 0, nothing pending |
| `Shootdown.ReturnsClean` | src/kern-ucore/glue-ucore/mp.c:113-156 | Under every interleaving, when mp_tlb_invalidate returns no CPU's TLB holds an outdated translation for the page |
| `Shootdown.ReadsOwnRound` | src/kern-ucore/glue-ucore/trap.c:247-261 | Every receiver invalidates what the round that raised its flag asked for |
| `Shootdown.RunInv` | src/kern-ucore/glue-ucore/mp.c:36-156 | Mutual exclusion, a lock that is taken exactly while a CPU holds it, flags, request and TLB invariants hold in every state of every interleaving |
| `Shootdown.StepKeeps` | src/kern-ucore/glue-ucore/mp.c:36-156 | Every step of every CPU keeps them |
| `Shootdown.Coherent` | src/kern-ucore/glue-ucore/pmm.c:246-253 | With no shootdown in progress every TLB agrees with the page tables |
| `Shootdown.NeverLonger` | src/kern-ucore/glue-ucore/mp.c:113-156 | No step of any CPU makes a shootdown in progress longer |
| `Shootdown.Helpful` | src/kern-ucore/glue-ucore/mp.c:36-62 | In every state of a shootdown some CPU can take a protocol step that makes it shorter, also while others wait for the lock: no deadlock |
| `Shootdown.GetsLock` | src/kern-ucore/glue-ucore/mp.c:36-75 | From every reachable state there are steps after which any given CPU outside the kernel holds the lock, whatever the others are doing: no deadlock between the lock and the shootdown |
| `Shootdown.Unlocks` | src/kern-ucore/glue-ucore/mp.c:64-75 | From every reachable state there are steps after which the lock is free, with every CPU but its holder where it was |
| `Shootdown.TryLockIs` | src/kern-ucore/glue-ucore/mp.c:36-62 | Trying the lock gets it if and only if no CPU holds it |
| `Shootdown.OutdatedMeanwhile` | src/kern-ucore/glue-ucore/mp.c:113-156 | An interleaving in which, between the change of an entry and the shootdown, another CPU holds the outdated translation |
| `Mbox.Mailbox.Run` | src/kern-ucore/sync/mbox.c:85-488 | Every history of opens, sends, receives, wake-ups, timeouts, kills and closes keeps the invariant, so every assertion of the file holds, and leads to the state the specification computes |
| `Mbox.NobodyForgotten` | src/kern-ucore/sync/mbox.c:244-393 | No lost wake-up: a receiver sleeps beside a message, or a sender beside a free slot, only if another one has been woken and has yet to go on |
| `Mbox.Handover` | src/kern-ucore/sync/mbox.c:285-393 | A message sent to an empty box reaches the receiver that has waited longest as soon as that runs |
| `Mbox.RoomAgain` | src/kern-ucore/sync/mbox.c:244-461 | When a message is received from a full box, the sender that has waited longest adds its message as soon as it runs |
| `Mbox.GivesUp` | src/kern-ucore/sync/mbox.c:244-393 | A process woken by a timeout or a kill leaves both queues, takes no message, and changes nothing for anybody else |
| `Mbox.Delivered` | src/kern-ucore/sync/mbox.c:285-461 | A message that is sent, received and stored is done with, and the box is as empty as before |
| `Mbox.FirstInFirstOut` | src/kern-ucore/sync/mbox.c:96-122 | Without returned messages and closes, messages leave in the order in which they came, whoever sends and receives |
| `Mbox.BoundStep` | src/kern-ucore/sync/mbox.c:285-461 | An open box with at most n messages too many gets more than that if and only if the operation returns a message to a box that has exactly n too many |
| `Mbox.BoundedHistory` | src/kern-ucore/sync/mbox.c:285-461 | In every history an open box holds at most max_slots messages and as many more as were returned; without returned messages never more than max_slots |
| `Mbox.Overfull` | src/kern-ucore/sync/mbox.c:450-460 | A history of five operations after which a box of one slot holds two messages |
| `Mbox.Mailbox.SendStart` | src/kern-ucore/sync/mbox.c:285-328 | Refused unless open; asleep at the end of the queue exactly if the box is full; otherwise the message is last and a receiver is woken |
| `Mbox.Mailbox.SendResume` | src/kern-ucore/sync/mbox.c:244-283 | Gives up if interrupted or the box is closing; otherwise tries again; the last user frees a closing mailbox |
| `Mbox.Mailbox.RecvStart` | src/kern-ucore/sync/mbox.c:395-461 | Refused unless open; asleep exactly if the box is empty; otherwise takes the first message, or leaves it to another receiver if it is too big |
| `Mbox.Mailbox.RecvResume` | src/kern-ucore/sync/mbox.c:354-393 | Gives up if interrupted or the box is closing; otherwise as RecvStart |
| `Mbox.Mailbox.PickMsg` | src/kern-ucore/sync/mbox.c:110-122 | Takes the first message and wakes a sender, or wakes another receiver if it is too big |
| `Mbox.Mailbox.AddMsg` | src/kern-ucore/sync/mbox.c:96-108 | One message more at the given end, and a receiver woken |
| `Mbox.Mailbox.MboxFree` | src/kern-ucore/sync/mbox.c:85-94 | The box is closed, the invariant holds, and nobody waits for it: whoever is left only holds a message |
| `Mbox.Mailbox.GiveBack` | src/kern-ucore/sync/mbox.c:450-460 | A message that could not be stored is first again, or dropped if the box is closing; the open box then holds more than max_slots messages if and only if it was full |
| `Mbox.Mailbox.Open` | src/kern-ucore/sync/mbox.c:124-185 | Opens a closed mailbox if and only if the size is allowed |
| `Mbox.Mailbox.Close` | src/kern-ucore/sync/mbox.c:463-488 | Refused unless open; otherwise the messages are dropped, the queues are empty, everybody who was queued is awake and interrupted and nobody else is touched, and the mailbox is free at once if and only if it has no user, and closing otherwise |
| `Mbox.Mailbox.Shutdown` | src/kern-ucore/sync/mbox.c:244-488 | Closing an open mailbox and letting everybody inside go on, in any order, frees it |
| `Mbox.Mailbox.WakeupFirst` | src/kern-ucore/sync/wait.c:80-95 | The first waiter leaves the queue marked and awake |
| `Mbox.Mailbox.WakeupQueue` | src/kern-ucore/sync/wait.c:97-112 | Every waiter leaves the queue, interrupted and awake |
| `Mbox.Mailbox.Sleep` | src/kern-ucore/sync/wait.c:114-121 | The process sleeps at the end of the queue, and the no-lost-wake-up invariant still holds |
| `Mbox.Mailbox.constructor` | src/kern-ucore/sync/mbox.c:60-69 | A closed mailbox |
| `MboxData.LoadMsg` | src/kern-ucore/sync/mbox.c:203-242 | The bytes in segments of at most 480, or nothing if an allocation fails |
| `MboxData.SegmentsAre` | src/kern-ucore/sync/mbox.c:203-242 | The segments are the bytes in order, all but the last of 480 bytes, as few as can be and at least one |
| `MboxData.StoreMsg` | src/kern-ucore/sync/mbox.c:330-352 | Storing a loaded message gives back exactly its bytes, of any length |
| `Sched.Scheduler.Run` | src/kern-ucore/schedule/sched.c:67-141 | Every history of steps by all CPUs passes through sound states only, each following from the one before by the operation |
| `Sched.StaysRunnable` | src/kern-ucore/schedule/sched.c:67-141 | In every history a runnable process stays runnable, once in one queue or on one CPU, until it goes to sleep or exits itself: no wake-up is lost |
| `Sched.StepMeans` | src/kern-ucore/process/proc.c:508-605 | Entering takes and leaving gives up the kernel lock; blocking puts the running process to sleep, exit makes it a zombie without address space, loading gives it one on this CPU, a tick costs it one tick, a wake-up makes a sleeper runnable, and fork and clone make a runnable child |
| `Sched.Scheduler.Reschedule` | src/kern-ucore/schedule/sched.c:90-141 | Terminates; runs the first queued process whose address space is loaded nowhere, or the idle process if there is none; exactly the others stay queued: those passed over are at the end of the top queue, the last one first, with at most its slice, and all others where they were |
| `Sched.KeepsBusy` | src/kern-ucore/schedule/sched.c:90-141 | A CPU that schedules while some queued process has its address space free runs a process, not its idle one |
| `SchedState.OneCpuPerSpace` | src/kern-ucore/schedule/sched.c:99-135 | In every sound state no address space is on two CPUs |
| `SchedState.OnePlace` | src/kern-ucore/schedule/sched.c:104-128 | In every sound state a runnable process is once in one queue or on one CPU, never both, never neither |
| `Sched.Scheduler.PickFree` | src/kern-ucore/schedule/sched.c:107-128 | Processes with a loaded address space are set aside until one can go; none is lost or doubled |
| `Sched.Scheduler.PutBack` | src/kern-ucore/schedule/sched.c:119-124 | Exactly the processes set aside are queued again, at the end of the top queue |
| `Sched.Scheduler.Enqueue` | src/kern-ucore/schedule/sched_MLFQ.c:21-32 | The process goes to the end of the top queue, or of the next lower one (the lowest being the last) if its slice is used up; a used-up or too long slice becomes 8, 16, 32 or 64 by level |
| `Sched.Scheduler.Dequeue` | src/kern-ucore/schedule/sched_MLFQ.c:34-38 | The first process leaves the one queue it is in |
| `Sched.Scheduler.PickNext` | src/kern-ucore/schedule/sched_MLFQ.c:40-51 | The first process of the highest queue that is not empty |
| `Sched.Scheduler.WakeupProc` | src/kern-ucore/schedule/sched.c:67-86 | A process that is not runnable becomes runnable and is queued once, unless it is the running one |
| `Sched.Scheduler.ProcTick` | src/kern-ucore/schedule/sched_RR.c:40-48 | One tick off the slice, and a reschedule exactly when it is used up |
| `Sched.Scheduler.DoFork` | src/kern-ucore/process/proc.c:508-571 | A new process with half the slice is queued; its address space is new or the parent's. The assertion in wakeup_proc fails if and only if the pid is that of an idle process |
| `Sched.Scheduler.DoExit` | src/kern-ucore/process/proc.c:577-605 | The process lets go of its address space and is a zombie |
| `Sched.Scheduler.GiveUp` | src/kern-ucore/process/proc.c:921-930 | The address space is loaded nowhere afterwards |
| `Sched.Scheduler.LoadSpace` | src/kern-ucore/process/proc.c:809-813 | The new address space is loaded on this CPU |
| `Sched.Scheduler.GoToSleep` | src/kern-ucore/process/proc.c:1010-1013 | The running process is asleep and in no queue |
| `Sched.Scheduler.constructor` | src/kern-ucore/schedule/sched.c:45-63 | Every CPU runs its idle process |
| `DeltaTimer.TimerList.AddTimer` | src/kern-ucore/schedule/sched.c:143-163 | The timer gets its time and no other timer's time changes |
| `DeltaTimer.TimerList.DelTimer` | src/kern-ucore/schedule/sched.c:165-182 | The timer goes and no other timer's time changes |
| `DeltaTimer.TimerList.RunTimerList` | src/kern-ucore/schedule/sched.c:184-214 | Every remaining time drops by one; exactly those that reach zero are removed and wake their processes; the first distance is never 0 afterwards |
| `DeltaTimer.TimerList.Run` | src/kern-ucore/schedule/sched.c:143-214 | Every history follows the map from timers to remaining times |
| `DeltaTimer.ExpiresOnTime` | src/kern-ucore/schedule/sched.c:143-214 | In every history a timer with n ticks to go that nobody deletes expires exactly at the n-th tick |
| `DeltaTimer.ExpiresExactly` | src/kern-ucore/schedule/sched.c:143-214 | In every history from the empty list a timer expires in an operation if and only if this is the n-th tick since it was added with n ticks, and it has not been deleted since |
| `DeltaTimer.InsertedView` | src/kern-ucore/schedule/sched.c:149-158 | Splitting a distance to insert an entry leaves all other times as they were |
| `DeltaTimer.DeletedView` | src/kern-ucore/schedule/sched.c:170-179 | Adding the distance of a deleted entry to the next leaves all other times as they were |
| `Pid.PidAllocator.GetPid` | src/kern-ucore/process/proc.c:171-203 | Terminates with fewer than 4096 processes and returns the first unlisted pid after the last one, going round to 1, on the fast path too; it is the number of an idle process if and only if it starts at a free one, or goes round and finds one free |
| `Pid.IdleExample` | src/kern-ucore/process/proc.c:186-193 | With two CPUs and the largest pid listed and next in turn, the condition is met: the search goes round to 1, the idle process of the second CPU |
| `Pid.PidAllocator.Scan` | src/kern-ucore/process/proc.c:182-200 | Afterwards no listed pid lies from last_pid to next_safe, and only used pids were passed |
| `Pid.PidAllocator.SetLinks` | src/kern-ucore/process/proc.c:142-152 | Listing the new pid keeps the interval clear |
| `Pid.PidAllocator.RemoveLinks` | src/kern-ucore/process/proc.c:154-168 | Exactly this pid leaves the list |
| `Slab.CacheEstimate` | src/kern-ucore/mm/slab.c:155-179 | The largest number of objects that fits beside the control area, and exactly what is left over |
| `Slab.InitCache` | src/kern-ucore/mm/slab.c:188-260 | The first order that wastes at most an eighth, with objects and control area fitting also when the area moves in; it panics if and only if no order up to the largest suits, or an off-slab descriptor would be too big before one does |
| `Slab.SlabInit` | src/kern-ucore/mm/slab.c:110-121 | All thirteen caches, for 2^5 to 2^17 bytes, are laid out |
| `Slab.Cache.Grow` | src/kern-ucore/mm/slab.c:299-340 | A new slab whose objects are all free, if pages and descriptor can be had |
| `Slab.Cache.AllocOne` | src/kern-ucore/mm/slab.c:343-354 | Exactly one free object becomes live; a slab changes lists exactly when it is full |
| `Slab.Cache.Alloc` | src/kern-ucore/mm/slab.c:358-379 | Fails if and only if no slab has room and none can be added |
| `Slab.Cache.FreeOne` | src/kern-ucore/mm/slab.c:417-434 | Exactly this object becomes free, found again from its address; the pages go back exactly when nothing in the slab is live |
| `Slab.ObjectsApart` | src/kern-ucore/mm/slab.c:299-354 | Live objects overlap neither each other nor a control area, within and across slabs |
| `Slab.FirstFree` | src/kern-ucore/mm/slab.c:343-354 | Taking the head leaves a chain through exactly the other free objects |
| `Slab.Freed` | src/kern-ucore/mm/slab.c:417-424 | Putting an object back gives a chain through one more |
| `MemMap.MemoryMap.Append` | src/supervisor/mm/memmap.c:54-66 | The two boundary records count the interval exactly where it lies |
| `MemMap.MemoryMap.Sort` | src/supervisor/mm/memmap.c:71-85 | Sorted by address, standing for the same intervals |
| `MemMap.MemoryMap.Process` | src/supervisor/mm/memmap.c:68-149 | Strictly increasing boundaries, an even number, and an address lies in a range if and only if free intervals outnumber blocking ones there, or they balance and a reclaimable one covers it |
| `MemMap.CoverIs` | src/supervisor/mm/memmap.c:96-131 | The two counters of the sweep are the numbers of free less blocking and of reclaimable intervals over the address |
| `MemMap.MemoryMap.BinSearch` | src/supervisor/mm/memmap.c:12-25 | The first boundary past the address, or the last one if there is none |
| `MemMap.MemoryMap.Test` | src/supervisor/mm/memmap.c:27-34 | Right if and only if the range does not begin in or after the last usable range and reach past its end; those it accepts |
| `MemMap.TestExample` | src/supervisor/mm/memmap.c:16-34 | A range that is accepted and holds no usable address |
| `MemMap.MemoryMap.Enumerate` | src/supervisor/mm/memmap.c:36-45 | The num-th range, if there are so many |
| `Mksfs.Image.constructor` | src/ht-mksfs/mksfs.c:239-272 | An image with an empty root directory; super block, root and free map are in use |
| `Mksfs.Image.AllocIno` | src/ht-mksfs/mksfs.c:181-188 | The next block number, counted once |
| `Mksfs.Image.NewFile` | src/ht-mksfs/mksfs.c:209-220 | A file without blocks whose inode has a block of its own |
| `Mksfs.Image.UpdateCache` | src/ht-mksfs/mksfs.c:399-412 | A zeroed new index block for a missing entry; otherwise the cached block is already the right one |
| `Mksfs.Image.AppendBlock` | src/ht-mksfs/mksfs.c:414-441 | Through direct, indirect and double-indirect entries file block i is the i-th block appended, no other file changes, and it fails if and only if the file is too big or index blocks cannot be had |
| `Mksfs.Image.AddBlock` | src/ht-mksfs/mksfs.c:547-562 | A file grows by a block that nothing else uses; every block handed out has exactly one use |
| `Mksfs.BlocksDistinct` | src/ht-mksfs/mksfs.c:181-188 | No block is used twice, by any files, empty ones included: contents, inodes and index blocks are all distinct |
| `Mksfs.Image.FreeMap` | src/ht-mksfs/mksfs.c:329-352 | Bit b is set if and only if block b has not been handed out and exists |
| `Mksfs.FreeMapCount` | src/ht-mksfs/mksfs.c:329-352 | The free map has as many bits set as the super block counts unused blocks |

## Left out

- Shared mappings (VM_SHARE) and shmem: the shared-fault branch duplicates an entry that is 0 there, so no claim is made for it.
- Page-table levels: get_pte is a map from process and page to entry, and running out of page-table pages is not modelled.
- A fault and its repeated store as separate steps: they are one step, for the reason given above.
- swap_copy_entry, swap_out_mm, try_free_pages and the loop of kswapd: they only choose which of the modelled steps comes next.
- Paging.Pager.LaunderTake: always takes the first page of the inactive list, while page_launder keeps a cursor across the disk write, so a page that a fault puts on the list during the write is met in another order.
- nr_pages of the swap lists is taken as the list length, and the hash and page lists are sequences.
- swapfs and the disk: a map from slots to contents; a write is two steps, so that faults can come in between, and may fail.
- lock_mm and the semaphores around a fault or a swap-in: faults and range operations are single steps.
- dup_mmap and exit_mmap: loops over the modelled operations.
- The KERN_ACCESS branch of user_mem_check, for kernel threads.
- kmalloc failure inside the VMA manager is a descriptor pool that may be exhausted, and a flag for the tree.
- Links of the red-black tree are indices into a table of cells; check_tree and rb_tree_destroy are left out.
- The self-check functions (`check_vmm`, `check_swap` and the like).
- Crh.Heap.Insert: keys below the base and values from 2^31 on are excluded, because crh_max_step shifts in int width there.
- The order of nodes within one bucket of the radix heap, which decides the order of timers with equal deadlines only.
- Memory ordering weaker than sequential consistency, CPUs whose lapic id is not their index, and mp_tlb_invalidate before all CPUs have started.
- The table of mailboxes with its free list, mbox_cleanup, the copying from and to user memory, and the reuse of one timer across waits: a timeout or a kill is an arbitrary wake-up.
- Reaping of zombies, wait_state, need_resched and the counter of runs in the scheduler; kernel sections are atomic under the kernel lock.
- Sched.Scheduler.DoFork: where the assertion in wakeup_proc fails the kernel stops; the model leaves its state as it was.
- The table of slab caches with kmalloc and kfree; pages and off-slab descriptors come from outside, and page flags are left out.
- MemMap.MemoryMap.Enumerate: negative numbers are not modelled.
- MemMap.MemoryMap.Append: requires room in the table, because the source has no check for it.
- Host files, directory entries and the bytes of blocks in the image builder; where the source stops with an error the method returns false or None, and what is in the image then is not specified.
- Semaphores, the driver OS, inter-processor packet queues, file systems, drivers, boot code, trap frames, context switch and user programs.
