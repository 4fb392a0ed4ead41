# ScrapOS kernel core: a verified model

ScrapOS is a small x86_64 kernel. This project models the parts of it where something can go wrong
quietly, and proves in Dafny 4.11 that it does not: three allocators stacked on each other, the page
tables, the cooperative scheduler with its context switch, and the framebuffer console.

Check everything with `dafny verify dfyconfig.toml`.

## What is modelled

**Physical memory.** `PhysicalMemory` is a map from addresses to 64-bit words, and the kernel's own
bookkeeping lives in it: buddy nodes in the first 16 bytes of free blocks, slab headers at page bases, links
in free slots, page-table entries in table frames. `Bits` gives and, or, xor and shifts on numbers, with
lemmas for the masks the kernel uses.

**The bitmap allocator** (`FrameBits`, `Pmm`). Four passes over the memory map build the bitmap; single
frames are then handed out, taken back or claimed. The bitmap tells the truth about every frame, down to the
bytes of the memory map and of the bitmap itself, and the hint never changes which frame an allocation
returns.

**The buddy allocator** (`BuddyBlocks`, `BuddyLists`, `BuddyRuns`, `BuddyLinks`, `BuddySeed`, `BuddyClaims`,
`Buddy`). The free lists are given once as values, with the laws proved about them: on coalesced lists an
allocation fails only when no aligned run of frames is free, the free frames alone determine the blocks, and
the history does not matter. Which block a call splits or merges is told without its recursion. Each of these is tied to what the lists were seeded with, and the seeding to
the memory map: which frames the hand-over takes is a function of the map, and the lists start coalesced
exactly when no pair of blocks taken whole straddles two touching entries. The class `Buddy` does the same
on doubly linked nodes inside the free blocks, and its methods are proved equal to the functions on values.

**The slab heap** (`SlabLayout`, `SlabPages`, `SlabHeap`, `Slab`, `SlabStats`, `SlabClient`, `WordStores`).
Pages carved into slots with threaded free chains, large blocks behind a header, counters per class.
Allocated objects are disjoint, no write of either allocator reaches one, and in turn no write inside an
allocated object upsets an allocator. The class `Client` puts both together: an object keeps what its owner
stored. Nothing outside the free frames and the heap's own changes in any heap call. What `kmalloc` hands
out is the smallest slot or block there is for the request, and determined by the heap and the size.

**Frames between the layers** (`FrameOwnership`, `MemoryStack`, `KernelMemory`). Every usable frame has
exactly one owner at all times, and the shares add up to `usable_frames`, whatever callers ask for: single
frames, blocks, objects or mappings. `KernelMemory` puts the allocators and the page tables into one object
and brings them up in the kernel's order, which fails exactly when there are fewer frames than page tables
to build. Its invariant survives every call, so the heap never damages a page table and a page table never
damages the heap.

**Page tables** (`PageEntries`, `PageTables`, `Paging`, `Vmm`). A tree of frames refines a map from virtual
pages to frames and rights. The reference is an independent function that reads the entries as the processor
does (sections 4.5 and 4.6 of the Intel SDM, volume 3A); it is a lookup in the map. The kernel's own space
maps the frames its memory map reaches and the image, and nothing else.

**Tasks** (`Context`, `TaskRuns`, `TaskStacks`, `Sched`, `KernelTasks`). The switch is six pushes, an
exchange of stack pointers, six pops and a return on a register machine. Over any run of tasks that compute,
create tasks and yield, each one resumes with the context of its own call, after an exact number of yields;
a task that is alone may yield as it likes.
`KernelTasks` puts scheduler and allocators over one memory: a new stack is nobody else's because the heap's
objects are disjoint, heap calls are computations the suspended tasks cannot notice, and switching never
reaches an allocator's word. Register roles and stack alignment follow sections 3.2.1 and 3.2.2 of the
System V AMD64 ABI.

**The console** (`Strings`, `ConsolePixels`, `ConsoleScreen`, `ConsoleText`, `ConsoleTape`, `Console`).
Bytes of a framebuffer with an arbitrary pitch show a text grid. `ConsoleText` says what each character does
to the grid, code by code and cell by cell, and when the cursor costs a glyph pixels; `ConsoleTape` says what
whole strings leave on the screen, and `Console` does it to the bytes with the kernel's pixel loops and one overlapping move per scroll.

## How it is built

Where the kernel updates something in place there is a class with a `Valid()` predicate over the real
memory. Its methods are proved to compute functions on values, and the laws are lemmas about those
functions, for all inputs, all reachable states or all runs. Ghost fields hold the value a piece of memory
stands for.

## Conditions the kernel depends on

- Usable memory-map entries are whole frames, do not overlap and exclude frame 0 (kernel/core/mm/pmm.h:31-32,
  kernel/core/mm/pmm.c:84-85).
- Blocks and pointers are freed once, by who holds them, and blocks at the order they were allocated with.
- The boot stack lies in the direct map, in memory that is not usable.
- Tasks stay out of each other's stacks and keep rsp a multiple of 8 with room for seven words when they
  yield. Stacks are disjoint because the heap's objects are.
- The direct map's offset is a multiple of the page size, and the memory behind it ends below 2^64. The
  kernel image shares no virtual page with the direct map.
- The framebuffer has 32 bits per pixel, a pitch of at least its visible width, and room for one glyph.
  Glyph 0 of the font is blank.

## Where the code and its comments differ

- kernel/core/mm/slab.c:146-148 says `free` ends up at slot 0. The loop leaves the last slot first; the model
  follows the loop.
- kernel/core/sched/task.h:20-24 and kernel/core/sched/sched.c:59-61 call a stack page-aligned. It starts 16
  bytes into a page (TaskStacks.StackAlignment).
- kernel/core/sched/sched.c:106-108 says tasks run in creation order. They do if and only if the first task
  creates all of them (TaskRuns.CreationOrderIff, TaskRuns.CreatedOutOfOrder).
- kernel/core/sched/sched.c:42-46 lets an entry function return into the trampoline. It gets there, with a
  stack pointer that a call would not have left (TaskRuns.TrampolineIsMisaligned).
- kernel/arch/x86_64/paging.c:57-59 says every table on a user page's path is user-accessible. Tables that
  already exist are not changed, so ring 3 reaches the page only if they were (Paging.UserReachIff,
  Paging.UserUnderSupervisor).
- kernel/core/mm/buddy.c:109-112 and 151-154 keep buddies together, but seeding never merges across runs, and
  a run never crosses from one usable entry into the next. Two entries that touch in the middle of a buddy
  pair leave a free pair, with which an allocation can fail although the frames are free
  (MemoryStack.BootTouching). The lists start coalesced if and only if no pair taken whole lies like that
  (BuddyClaims.HandOverCoalescedIff), and allocations fail only for want of frames if and only if the lists
  start coalesced (BuddyRuns.CompleteIffCoalesced).
- kernel/core/mm/slab.c:109-110 sends huge requests to the buddy allocator's refusal. Beyond 2^63 bytes the
  loop never ends (SlabLayout.OrderTerminatesIff), and for the last 16 sizes the sum with the header wraps, so
  that kmalloc returns a single page for them (SlabLayout.LargeFitsIff, SlabLayout.LastSizeWraps).
- kernel/core/mm/slab.c:262-273 reports the whole block of a large object, 16 bytes more than the caller may
  use.
- kernel/drivers/console.c:99-101 says the cursor never eats a glyph. That holds for strings without a carriage
  return, from every clean text and from no other (ConsoleText.CleanIffNeverEats); after a carriage return it
  holds if and only if the line was empty (ConsoleText.ReturnEatsIff, ConsoleText.ReturnClipsGlyph).

## Model

| member | source | states |
|---|---|---|
| BuddyBlocks.BuddyHalves | kernel/core/mm/buddy.c:128-145 | XORing one address bit finds the buddy: an involution that swaps the two aligned halves of the parent block, whose base is the smaller of the two |
| BuddyBlocks.ParentSpans | kernel/core/mm/buddy.c:140-144 | The two buddies are disjoint and together make up the merged block |
| BuddyBlocks.HalvesOf | kernel/core/mm/buddy.c:109-117 | Splitting a block gives two aligned blocks that are each other's buddies and would merge back to it |
| BuddyBlocks.AlignedIsMask | kernel/core/mm/buddy.c:160-162 | The mask test of the shrinking loop is alignment to the order |
| BuddyBlocks.NestedOrDisjoint | kernel/core/mm/buddy.c:128-132 | Two aligned power-of-two blocks are nested or disjoint |
| BuddyBlocks.LargestBlock | kernel/core/mm/buddy.h:27-29 | The largest block is 4 MiB |
| BuddyLists.AllocKeeps | kernel/core/mm/buddy.c:90-119 | A successful allocation takes exactly one aligned block of the requested order out of the free frames and keeps the lists well formed and coalesced; a failed one changes nothing |
| BuddyLists.FreeKeeps | kernel/core/mm/buddy.c:123-147 | Freeing adds exactly the block's frames to the free ones, merging as far as buddies are free, and leaves no free pair of buddies behind |
| BuddyLists.AllocIsBestFit | kernel/core/mm/buddy.c:90-119 | The block split is the head of the first list from the requested order on that has one; the lower half is kept each time, each upper half ends alone on its list, which was empty, and no other list changes; an allocation fails when all those lists are empty |
| BuddyLists.FreeMerges | kernel/core/mm/buddy.c:123-147 | Merging goes on exactly as long as the other half of the next larger aligned block is on its list; each of these leaves its list, the block around all of them goes to the head of its own, and no other list changes |
| BuddyLists.SplitKeeps | kernel/core/mm/buddy.c:109-117 | Splitting down gives away exactly the kept lower block's frames |
| BuddyLists.MergeStep | kernel/core/mm/buddy.c:133-145 | Unlinking a free buddy and taking the lower base joins the two blocks' frames into one block of the next order |
| BuddyLists.AllocComplete | kernel/core/mm/buddy.c:90-119 | On coalesced lists an allocation of an order fails if and only if no aligned run of that many free frames exists anywhere |
| BuddyRuns.CompleteIffCoalesced | kernel/core/mm/buddy.c:90-168 | Over every run from a seed, an allocation fails only when no aligned run of its size is free, if and only if the seed holds no free buddy pair; a pair gives a run after which one fails although the frames are there |
| BuddyRuns.ExhaustAbove | kernel/core/mm/buddy.c:90-119 | Some run of allocations of one order alone ends with that order refused and leaves the lists below it as they were |
| BuddyLists.FreeRunIsInOneBlock | kernel/core/mm/buddy.c:123-147 | In coalesced lists every aligned run of free frames lies inside one listed block |
| BuddyLists.CoalescedIsUnique | kernel/core/mm/buddy.c:90-147 | The set of free frames determines the coalesced blocks |
| BuddyLists.ListedIsMaximal | kernel/core/mm/buddy.c:90-147 | The listed blocks are exactly the maximal aligned runs of free frames up to the top order |
| BuddyLists.AllocCounts | kernel/core/mm/buddy.c:90-119 | Allocating lowers the number of free frames by the block's size, or not at all |
| BuddyLists.FreeCounts | kernel/core/mm/buddy.c:123-147 | Freeing raises the number of free frames by the block's size, merges included |
| BuddyRuns.StepKeeps | kernel/core/mm/buddy.c:90-147 | One allocation or free keeps free and handed-out blocks aligned, pairwise disjoint and over the same frames |
| BuddyRuns.StepConserves | kernel/core/mm/buddy.c:90-147 | One allocation or free moves frames between free and handed out without losing or gaining any |
| BuddyRuns.RunKeeps | kernel/core/mm/buddy.c:51-147 | Over every run of allocations and frees the lists stay well formed, free and live blocks stay disjoint, coalescing is kept and the frames stay the same |
| BuddyRuns.RunConserves | kernel/core/mm/buddy.c:90-147 | Every run conserves the total number of frames |
| BuddyRuns.HistoryIndependent | kernel/core/mm/buddy.c:90-147 | Two runs from one coalesced seed that leave the same frames outstanding end with the same free blocks |
| BuddyRuns.FreeUndoesAlloc | kernel/core/mm/buddy.c:90-147 | Freeing a block right after allocating it restores the free blocks |
| BuddyRuns.RestoredIffCoalesced | kernel/core/mm/buddy.c:90-168 | Freeing everything restores the seeded blocks after every run if and only if the seed held no free buddy pair |
| BuddyRuns.DrainOrder | kernel/core/mm/buddy.c:90-119 | Some run of allocations of one order alone empties its list and leaves only blocks of that order outstanding |
| BuddyRuns.ReturnAll | kernel/core/mm/buddy.c:123-147 | Some run of frees alone hands back everything outstanding |
| BuddyRuns.FreesLeaveNoPair | kernel/core/mm/buddy.c:123-147 | Handing blocks back, however many and in whatever order, never leaves two buddies of an order unmerged that held no free pair before |
| BuddyLinks.PushLinks | kernel/core/mm/buddy.c:51-60 | The stores of list_push thread the new node in front of its list and leave every other list as it was, touching only free frames |
| BuddyLinks.UnlinkWhole | kernel/core/mm/buddy.c:64-74 | The stores of list_remove unlink any node, also from mid-list, given only its own links |
| BuddyLinks.LinkedStays | kernel/core/mm/buddy.c:51-86 | Stores outside the free frames leave every free list as it is |
| BuddySeed.LargestFit | kernel/core/mm/buddy.c:158-164 | The order the shrinking loop stops at is the greatest one that is aligned and fits |
| BuddySeed.FitStep | kernel/core/mm/buddy.c:160-164 | Each test of the shrinking loop, mask and bound, keeps the order it will stop at |
| BuddySeed.SeedKeeps | kernel/core/mm/buddy.c:155-168 | The blocks pushed for a run free exactly its frames, each once |
| BuddySeed.SeedTiles | kernel/core/mm/buddy.c:155-168 | The blocks of a run are exactly the maximal aligned blocks inside it, with no buddy pair below the top order |
| BuddySeed.SeedCounts | kernel/core/mm/buddy.c:155-168 | Seeding a run adds as many free frames as the run has |
| BuddySeed.SeedAllKeeps | kernel/core/mm/buddy.c:191-219 | Seeding any separate runs gives well-formed lists that free exactly the frames of the runs |
| BuddySeed.SeedCoalescedIff | kernel/core/mm/buddy.c:155-168 | The seeded lists are coalesced if and only if no two runs touch in the middle of an aligned buddy pair |
| BuddySeed.TouchingRunsExample | kernel/core/mm/buddy.c:155-168 | Two one-frame runs that touch inside a pair: both frames are free, yet an allocation of two frames fails |
| BuddySeed.CoalescedIsFewest | kernel/core/mm/buddy.c:155-168 | No lists over the same frames use fewer blocks than the coalesced ones |
| BuddyClaims.StretchInOneRun | kernel/core/mm/buddy.c:191-219 | Claimed frames that follow each other in one region end up in one run: runs are maximal |
| BuddyClaims.WalkLowest | kernel/core/mm/buddy.c:191-219 | Of two usable frames, one claimed and one left free, the claimed one is in an earlier region of the map or lower in the same region |
| BuddyClaims.HandOverCoalescedIff | kernel/core/mm/buddy.c:170-220 | The hand-over leaves coalesced lists if and only if no aligned pair of blocks that is taken whole has its middle where two usable entries of the memory map touch; so it does for every map in which no such boundary lies inside a pair |
| BuddyAllocator.Buddy.ListPush | kernel/core/mm/buddy.c:51-60 | Pushes a block to the front of its list in memory |
| BuddyAllocator.Buddy.ListRemove | kernel/core/mm/buddy.c:64-74 | Unlinks a block from wherever it is in its list |
| BuddyAllocator.Buddy.ListFind | kernel/core/mm/buddy.c:79-86 | Finds the node of the block at an address if and only if that block is on the list |
| BuddyAllocator.Buddy.SmallestNonEmpty | kernel/core/mm/buddy.c:95-102 | The search stops at the smallest sufficient order with a block on its list |
| BuddyAllocator.Buddy.Alloc | kernel/core/mm/buddy.c:90-119 | Computes the specified lists and address over in-block nodes, keeps the invariant and the frame count, and writes only to free frames |
| BuddyAllocator.Buddy.Free | kernel/core/mm/buddy.c:123-147 | Computes the specified lists, returns the block, keeps the invariant and the frame count, and writes only to frames that are free afterwards |
| BuddyAllocator.Buddy.SeedRun | kernel/core/mm/buddy.c:155-168 | The loop pushes the specified blocks and counts the run's frames |
| BuddyAllocator.Buddy.SeedRegion | kernel/core/mm/buddy.c:191-219 | One region: claims exactly the lowest free frames of it up to the budget, in runs that lie in the region and never touch each other, and seeds each; short of the budget it leaves none free |
| BuddyAllocator.Buddy.GrowRun | kernel/core/mm/buddy.c:205-216 | Extends a run frame by frame until the region ends, the budget is spent or a frame is taken already |
| BuddyAllocator.Buddy.Init | kernel/core/mm/buddy.c:170-220 | Claims exactly max(0, free - reserve) frames, the lowest in memory-map order, leaves min(free, reserve) in the bitmap allocator, covers exactly the claimed frames with free blocks, and ends coalesced if and only if no pair taken whole straddles two touching usable entries |
| BuddyAllocator.Buddy.GetStats | kernel/core/mm/buddy.c:224-235 | Reports each list's length and the bytes of all free frames |
| FrameBits.SetBitChanges | kernel/core/mm/pmm.c:31-33 | Setting a bit of a byte sets that bit and no other |
| FrameBits.ClearBitChanges | kernel/core/mm/pmm.c:31-33 | Clearing a bit of a byte clears that bit and no other |
| FrameBits.BitOrder | kernel/core/mm/pmm.c:31-33 | Bits count from the lowest: the eight bytes in which one bit alone is set |
| FrameBits.WriteShows | kernel/core/mm/pmm.c:31-33 | Setting or clearing bit i of the bytes changes frame i and no other |
| FrameBits.FirstFree | kernel/core/mm/pmm.c:116-140 | The lowest free frame at or above a start, as a naive scan finds it |
| FrameBits.SkipUsed | kernel/core/mm/pmm.c:121-135 | A scan from the hint finds what a scan from 0 finds when everything below the hint is used |
| FrameBits.WriteCounts | kernel/core/mm/pmm.c:128-150 | The number of clear bits follows each write |
| PhysicalFrames.HighestEnd | kernel/core/mm/pmm.c:37-55 | The highest end of any usable region |
| PhysicalFrames.FirstFit | kernel/core/mm/pmm.c:57-68 | The first usable region long enough for the bitmap |
| PhysicalFrames.SpansUsable | kernel/core/mm/pmm.c:38-53 | Every usable frame lies inside the span of the bitmap and is not frame 0 |
| PhysicalFrames.BitmapFrames | kernel/core/mm/pmm.c:101-109 | The bitmap's own frames are consecutive and all usable |
| PhysicalFrames.UsableMeans | kernel/core/mm/pmm.c:84-99 | The frames that are freed are those in which a byte of a usable region lies |
| PhysicalFrames.SpannedMeans | kernel/core/mm/pmm.c:38-53 | The bitmap covers the least number of frames that reaches to the end of all usable memory |
| PhysicalFrames.BitmapMeans | kernel/core/mm/pmm.c:101-109 | The frames taken back are those in which a byte of the bitmap lies, at one bit per frame from the start of the first usable region with room for it |
| PhysicalFrames.TruthMeans | kernel/core/mm/pmm.c:37-112 | Together: free are exactly the frames with a usable byte and without a byte of the bitmap |
| PhysicalFrames.Pmm.AllocFrame | kernel/core/mm/pmm.c:116-140 | Returns the lowest free frame, as a scan from 0 would, and 0 if and only if none is free |
| PhysicalFrames.Pmm.Take | kernel/core/mm/pmm.c:128-131 | Taking a free frame sets its bit and lowers the count by one |
| PhysicalFrames.Pmm.FreeFrame | kernel/core/mm/pmm.c:142-157 | Frees the frame, also when it was free already, keeps the hint below every free frame, and keeps address 0 a failure value unless frame 0 is given back |
| PhysicalFrames.Pmm.ClaimFrame | kernel/core/mm/pmm.c:159-169 | Takes one given frame if and only if it is in the span and free |
| PhysicalFrames.Pmm.HighestUsable | kernel/core/mm/pmm.c:41-51 | Pass 1 computes the highest usable end |
| PhysicalFrames.Pmm.FindHome | kernel/core/mm/pmm.c:61-68 | Pass 2 finds the first region that can hold the bitmap, 0 if and only if none can |
| PhysicalFrames.Pmm.FreeUsable | kernel/core/mm/pmm.c:86-99 | Pass 3 clears the bits of exactly the usable frames and counts them |
| PhysicalFrames.Pmm.ReserveBitmap | kernel/core/mm/pmm.c:104-109 | Pass 4 takes back exactly the bitmap's frames, which are those its bytes lie in (BitmapMeans) |
| PhysicalFrames.Pmm.Init | kernel/core/mm/pmm.c:37-112 | Afterwards a bit is clear if and only if a byte of its frame is usable and none belongs to the bitmap, said of addresses in the memory map; free_frames counts the clear bits; it fails if and only if no usable region has room for one bit per frame |
| SlabLayout.AlignUpLeast | kernel/core/mm/slab.c:105-107 | align_up gives the least multiple of a power of two that is not smaller |
| SlabLayout.DataOffsets | kernel/core/mm/slab.c:119-122 | Slots start 48 bytes and large data 16 bytes into the page, the header sizes rounded up to 16 |
| SlabLayout.SlotInPage | kernel/core/mm/slab.c:137-152 | Every slot lies behind the header, inside the page and aligned to 16 |
| SlabLayout.SlotsApart | kernel/core/mm/slab.c:149-152 | Slots of a page do not overlap |
| SlabLayout.SlotsMost | kernel/core/mm/slab.c:137-138 | A page is carved into as many slots as fit |
| SlabLayout.ClassFor | kernel/core/mm/slab.c:199-205 | The class chosen is the first of the table that holds the size |
| SlabLayout.ClassFits | kernel/core/mm/slab.c:97-99 | Its slots are of the least power of two from 16 on that holds the size |
| SlabLayout.ClassIsLeast | kernel/core/mm/slab.c:199-205 | No class that holds the size is smaller, and beyond 16 bytes less than half of the slot is left over |
| SlabLayout.PageBase | kernel/core/mm/slab.c:50-50 | Masking an address inside a page yields the page's base |
| SlabLayout.OrderFor | kernel/core/mm/slab.c:111-117 | The order chosen is the least whose block holds the bytes |
| SlabLayout.OrderTerminatesIff | kernel/core/mm/slab.c:111-117 | The order loop reaches its exit if and only if the byte count is at most 2^63, since the shifted page size wraps to 0 |
| SlabLayout.TerminatesIff | kernel/core/mm/slab.c:111-117 | The order loop of a request ends if and only if the size plus header is at most 2^63 or wraps |
| SlabLayout.LargeFitsIff | kernel/core/mm/slab.c:180-191 | The block of a large request holds the requested bytes if and only if the sum of size and header does not wrap; when it wraps the block is one page |
| SlabLayout.LargeIsLeast | kernel/core/mm/slab.c:180-184 | A block of any order holds size and header if and only if its order is at least the one chosen |
| SlabLayout.LastSizeWraps | kernel/core/mm/slab.c:180-191 | A request for 2^64 - 1 bytes is given a single page |
| SlabPages.PopPage | kernel/core/mm/slab.c:224-229 | Popping the head leaves a duplicate-free chain of the other free slots with its length in the header |
| SlabPages.PushPage | kernel/core/mm/slab.c:246-250 | Pushing a slot puts it at the head of the chain with its length in the header |
| SlabHeap.LiveObjectsDisjoint | kernel/core/mm/slab.c:193-230 | No byte belongs to two allocated objects |
| SlabHeap.LiveByteIsNotFree | kernel/core/mm/slab.c:193-230 | No byte of an allocated object lies in a free buddy block |
| SlabHeap.HeaderIsNotLive | kernel/core/mm/slab.c:65-74 | No header word belongs to an allocated object |
| SlabHeap.FreeWritesAreHarmless | kernel/core/mm/buddy.c:51-74 | The buddy allocator's node writes touch no allocated object and no page in use |
| SlabHeap.PopIsHarmless | kernel/core/mm/slab.c:224-229 | kmalloc's stores touch no object allocated before |
| SlabHeap.PushIsHarmless | kernel/core/mm/slab.c:246-250 | kfree's stores touch no object that stays allocated |
| SlabHeap.FreshPageIsHarmless | kernel/core/mm/slab.c:137-155 | Carving a page just borrowed touches no allocated object |
| SlabHeap.AddSlab | kernel/core/mm/slab.c:155-160 | A carved page joins its class's list and the cache's counters stay the sums over that list |
| SlabHeap.ChainChangeCounts | kernel/core/mm/slab.c:224-250 | When one chain changes, exactly its cache's free count follows |
| SlabHeap.HeapFramesKept | kernel/core/mm/slab.c:129-260 | A heap call that keeps the blocks of others keeps the set of frames the two allocators may write to |
| SlabHeap.UntouchedTwice | kernel/core/mm/slab.c:129-260 | Steps that each write only to free frames and the heap's own do so together |
| SlabHeap.HeldIsNoHeapFrame | kernel/core/mm/slab.c:129-260 | A block held by a direct caller of the buddy allocator is none of the frames the heap writes to |
| SlabHeap.ForeignIsNoHeapFrame | kernel/core/mm/slab.c:129-260 | Neither is a frame the buddy allocator never had |
| SlabAllocator.ObjAligned | kernel/core/mm/slab.c:52-54 | Every pointer handed out is aligned to 16 bytes |
| SlabAllocator.MaskFindsHeader | kernel/core/mm/slab.c:239-241 | Masking a live pointer finds the header that tells its page kind, class or order |
| SlabAllocator.LiveIsOurs | kernel/core/mm/slab.c:234-260 | Every live pointer leads to a header with one of the two magic words |
| SlabAllocator.FullIff | kernel/core/mm/slab.c:212-220 | A class has no free slot if and only if every slot of every slab of it is an allocated object |
| SlabAllocator.NoRoomMeans | kernel/core/mm/slab.c:193-230 | kmalloc refuses a small request if and only if every slot of the class is allocated and no frame is free; on coalesced lists it refuses a large one if and only if no aligned run of its block's size is free or the block is beyond the largest |
| SlabAllocator.FreeUndoesMalloc | kernel/core/mm/slab.c:193-260 | kfree right after kmalloc restores the buddy blocks and pages exactly; only a page borrowed for a slot is kept |
| SlabAllocator.TookFits | kernel/core/mm/slab.c:193-230 | The object handed out is the smallest possible: a slot of the least power of two from 16 on that holds the request, or beyond 2048 bytes the least block that holds it behind the header |
| SlabAllocator.TookIsUnique | kernel/core/mm/slab.c:193-230 | The heap before and the size determine the object kmalloc hands out and the pages and free lists afterwards |
| SlabAllocator.FreshPage | kernel/core/mm/slab.c:146-152 | A page just carved gives out its last slot and keeps the others from the last to the first |
| SlabAllocator.Slab.CacheGrow | kernel/core/mm/slab.c:129-161 | Borrows one page, threads all its slots and links it, or changes nothing |
| SlabAllocator.Slab.FindSlab | kernel/core/mm/slab.c:212-216 | Finds the first slab of the class with a free slot, none only when every slab is full |
| SlabAllocator.Slab.PopSlot | kernel/core/mm/slab.c:224-229 | Hands out the head of the slab's chain and nothing else changes hands |
| SlabAllocator.Slab.OrderForBytes | kernel/core/mm/slab.c:111-117 | The loop computes the least sufficient order |
| SlabAllocator.Slab.PickClass | kernel/core/mm/slab.c:198-208 | The loop picks the first class of the table that fits, none for more than 2048 bytes |
| SlabAllocator.Slab.SlabWithRoom | kernel/core/mm/slab.c:212-222 | Finds a slab with a free slot or borrows a page for one |
| SlabAllocator.Slab.SmallAlloc | kernel/core/mm/slab.c:209-230 | A small request gets a slot of its class; only a slab of that class changes |
| SlabAllocator.Slab.LargeAlloc | kernel/core/mm/slab.c:180-191 | A large request gets exactly one buddy block of the least order that is sufficient for the sum the code computes, and the requested bytes fit behind its header if and only if that sum did not wrap |
| SlabAllocator.Slab.KMalloc | kernel/core/mm/slab.c:193-230 | Returns a new object, at least as large as requested if and only if size plus header does not wrap, and as Took fixes it the only one it can be (TookFits, TookIsUnique), without disturbing any other object or foreign frame; null if and only if the size is 0 or there is no room |
| SlabAllocator.Slab.KFree | kernel/core/mm/slab.c:234-260 | Takes back exactly the one object without disturbing any other or any foreign frame; does nothing for null and for a pointer whose page carries neither magic word |
| SlabAllocator.Slab.KMallocUsableSize | kernel/core/mm/slab.c:262-276 | The class size of a small object; for a large one the whole block, 16 header bytes more than fit behind the pointer; 0 for null and for a page with neither magic word |
| SlabStats.CountersExact | kernel/core/mm/slab.c:280-289 | Each class's slot total is its slabs times their slots, its free count the sum of the chains, and the difference the number of allocated objects |
| SlabStats.GetStats | kernel/core/mm/slab.c:280-289 | Every reported line is exact: slabs, total slots, free slots, and the bytes in use as allocated objects times the class size |
| SlabClient.ClientStoresAreHarmless | kernel/core/mm/slab.c:193-260 | Any stores that stay out of the allocators' own words, inside allocated objects or elsewhere, keep the slabs, caches and buddy lists exactly as they are |
| SlabClient.ClientStoreIsHarmless | kernel/core/mm/slab.c:193-260 | In particular a store inside an allocated object |
| SlabClient.HandlesSurvive | kernel/core/mm/slab.c:193-260 | A heap call leaves every word stored in objects that stay allocated |
| SlabClient.Client.Allocate | kernel/core/mm/slab.c:193-230 | A new object never shares bytes with the ones others hold, whose contents stay |
| SlabClient.Client.Release | kernel/core/mm/slab.c:234-260 | Giving one object back leaves the contents of all others |
| SlabClient.Client.Write | kernel/core/mm/slab.c:193-260 | An owner's store changes what its own object holds and nothing anyone else sees |
| SlabClient.Client.Read | kernel/core/mm/slab.c:193-260 | Reading returns the word last stored there |
| WordStores.ListStoresAreAligned | kernel/core/mm/buddy.c:51-74 | The stores of list_push and list_remove go to addresses that are multiples of 8 |
| WordStores.SlotStoresAreAligned | kernel/core/mm/slab.c:224-250 | So do those of taking and returning a slot |
| WordStores.CarveStoresAreAligned | kernel/core/mm/slab.c:137-157 | So do those of carving a page into slots |
| WordStores.LargeStoresAreAligned | kernel/core/mm/slab.c:187-189 | So do those of a large block's header |
| WordStores.ObjectsAreWholeWords | kernel/core/mm/slab.c:52-54 | An aligned word with one byte in an object lies in it as a whole, so an aligned store elsewhere reaches into no object |
| FrameOwnership.ExactlyOneOwner | kernel/core/mm/buddy.c:186-190 | Every usable frame has exactly one owner among bitmap-free, bitmap's own, handed out singly, buddy-free, block held by a caller, slab page and large block; no other frame has any |
| FrameOwnership.HeapMoves | kernel/core/mm/slab.c:129-260 | A heap call keeps the partition |
| FrameOwnership.BlockOut | kernel/core/mm/buddy.c:90-119 | A block handed to a direct caller keeps the partition |
| FrameOwnership.BlockBack | kernel/core/mm/buddy.c:123-147 | So does a block its holder gives back |
| FrameOwnership.HandOverBooks | kernel/core/mm/buddy.c:178-219 | Handing frames over from the bitmap allocator keeps the partition |
| FrameOwnership.AsideIffNoHeapFrame | kernel/core/mm/buddy.c:186-190 | Frames that are not usable, hold the bitmap, are still free in it, were handed out singly or are part of a held block are exactly those the heap and the buddy allocator never write to |
| FrameOwnership.OthersKept | kernel/core/mm/slab.c:129-260 | Heap calls leave page tables, held blocks, the bitmap, the frames it still has and memory that is not usable, such as the boot stack, word for word |
| FrameOwnership.ReturnKept | kernel/core/mm/buddy.c:123-147 | So does giving a block back, the block itself aside |
| MemoryStack.Stack.AllocFrame | kernel/core/mm/pmm.c:116-140 | Hands out the lowest free frame, and none if and only if none is free, keeping the partition and the sum of all shares equal to usable_frames |
| MemoryStack.Stack.FreeFrame | kernel/core/mm/pmm.c:142-157 | Keeps the partition and the sum |
| MemoryStack.Stack.AllocBlock | kernel/core/mm/buddy.c:90-119 | Hands a block to a direct caller, keeping the partition, the sum, every allocated object and every frame set aside |
| MemoryStack.Stack.FreeBlock | kernel/core/mm/buddy.c:123-147 | Takes a held block back, keeping the same |
| MemoryStack.Stack.KMalloc | kernel/core/mm/slab.c:193-230 | Keeps the partition, the sum, coalescing and every frame set aside |
| MemoryStack.Stack.KFree | kernel/core/mm/slab.c:234-260 | Keeps the same |
| MemoryStack.Stack.StoreAll | kernel/core/mm/slab.c:193-260 | Stores of anyone else, outside the allocators' own words, keep the whole stack |
| MemoryStack.Stack.Write | kernel/core/mm/slab.c:193-260 | A store of a holder into its object keeps the stack and every frame set aside |
| MemoryStack.Boot | kernel/core/mm/buddy.c:170-220 | After bitmap, page tables, buddy and heap start-up the partition holds, unless no region can hold the bitmap; which frames are on the lists and whether they are coalesced is decided by the memory map, the number of tables and the reserve alone |
| MemoryStack.StackUp | kernel/core/mm/buddy.c:170-220 | From any state with page tables: the claimed frames become the buddy allocator's, no word outside them changes, and the partition holds |
| MemoryStack.BootTouching | kernel/core/mm/buddy.c:191-219 | Booting on a map with two one-frame entries that touch inside a buddy pair leaves both frames free and refuses every request for two frames or more |
| MemoryStack.TwoFrames | kernel/core/mm/buddy.c:90-119 | Lists that hold just that pair uncoalesced refuse every request for more than one frame |
| PageEntries.EntryFields | kernel/arch/x86_64/paging.c:22-30 | Masking an entry gives back its frame and its flags |
| PageEntries.NoOtherBits | kernel/arch/x86_64/paging.c:24-30 | Beside its frame and the three flags an entry has no bit set |
| PageEntries.AddrMasked | kernel/arch/x86_64/paging.c:28-30 | The address mask keeps the frame, reduced to 52 bits |
| PageEntries.TableEntryBuilt | kernel/arch/x86_64/paging.c:72-82 | The or-chain of next_level is a present, writable entry for the new table |
| PageEntries.LeafEntryBuilt | kernel/arch/x86_64/paging.c:98-101 | The or-chain of paging_map is the entry for the frame with the requested rights |
| PageEntries.IndicesArePage | kernel/arch/x86_64/paging.c:32-36 | The four indices are the base-512 digits of bits 47 to 12; bits 63 to 48 play no part |
| PageTables.AddTable | kernel/arch/x86_64/paging.c:72-82 | Hanging a zeroed fresh frame into an empty slot keeps the tree and changes no mapping |
| PageTables.SetLeaf | kernel/arch/x86_64/paging.c:98-122 | Rewriting one leaf slot changes one page of the map and no other |
| PageTables.WalkIsLookup | kernel/arch/x86_64/paging.c:127-145 | The processor's four-level walk over the words in memory, large-page bits included, is a lookup in the abstract map, rights included |
| Paging.AddressSpace.constructor | kernel/core/mm/vmm.c:73-80 | A zeroed top-level table is an address space that maps nothing |
| Paging.AddressSpace.NextLevel | kernel/arch/x86_64/paging.c:61-82 | Follows or creates one table; takes at most one frame, which no table had, and fails only when none is left |
| Paging.AddressSpace.Map | kernel/arch/x86_64/paging.c:84-107 | Maps exactly one page with the requested frame and rights, or fails for want of a frame with no mapping changed |
| Paging.AddressSpace.Unmap | kernel/arch/x86_64/paging.c:109-125 | Removes exactly one page and says whether it was mapped |
| Paging.AddressSpace.Translate | kernel/arch/x86_64/paging.c:127-145 | Returns the frame base plus offset of the abstract entry, nothing if and only if unmapped |
| Paging.MapThenWalk | kernel/arch/x86_64/paging.c:83-107 | After paging_map the processor finds the page that phys lies in, 52 bits of it, with the write right of flag bit 0, and for ring 3 if and only if flag bit 1 is set and every table on the path lets it pass |
| Paging.UserReachIff | kernel/arch/x86_64/paging.c:55-66 | A page mapped for ring 3 is reachable from there if and only if every table already on its path was |
| Paging.UserUnderSupervisor | kernel/arch/x86_64/paging.c:55-66 | Mapping page 0 for the supervisor and then page 1 for ring 3 leaves page 1 out of ring 3's reach, or fails because no frame is left |
| Paging.SupervisorPage | kernel/arch/x86_64/paging.c:98-101 | A page mapped without VM_USER is out of ring 3's reach whatever the tables say |
| Paging.TablesCounted | kernel/arch/x86_64/paging.c:61-82 | Frames that become used while mapping are exactly those of the new tables, and as many |
| Paging.BuiltCounts | kernel/arch/x86_64/paging.c:61-107 | An address space built from nothing has taken as many frames as it has tables |
| Paging.AllServed | kernel/arch/x86_64/paging.c:84-107 | Once a set of pages is mapped from nothing, exactly the tables on their paths exist |
| Paging.TooFew | kernel/arch/x86_64/paging.c:84-107 | When frames run out before all the pages are mapped, fewer were free than tables are needed |
| Paging.ZeroFrame | kernel/arch/x86_64/paging.c:76-82 | All 512 entries of a fresh table are zero and no other frame changes |
| Vmm.MapHhdmRange | kernel/core/mm/vmm.c:40-51 | Maps every frame the range touches at its direct-map place, and keeps the ranges mapped before, overlapping ones included |
| Vmm.MapKernelRange | kernel/core/mm/vmm.c:55-64 | Maps every page of the range to its frame with the given right and leaves the direct map alone |
| Vmm.MapAll | kernel/core/mm/vmm.c:82-106 | All the mapping loops: every page mapped with only the tables it needs, or frames run out with a page still lacking tables |
| Vmm.Init | kernel/core/mm/vmm.c:66-106 | After the loops the direct map covers all entries and the image is mapped without, then with the write right; exactly the pages of the frames that entries reach and of the image are mapped; exactly the frames of the tables have been taken; it fails if and only if fewer frames are free than there are tables on the paths |
| Vmm.DirectMapWorks | kernel/core/mm/vmm.c:82-92 | Every byte of every frame that a memory-map entry reaches translates at phys + hhdm_offset to itself, writable, supervisor only |
| Vmm.ImageWorks | kernel/core/mm/vmm.c:94-106 | Every kernel byte translates to v - virtual_base + physical_base with the write right of its half |
| Vmm.KernelWorks | kernel/core/mm/vmm.c:94-106 | Every byte of the kernel is found where it is linked, the code read-only, the data writable |
| Vmm.PagesMean | kernel/core/mm/vmm.c:43-50 | The pages to be mapped, in addresses: those of the frames that the entries reach, rounded out, and those of the image |
| Vmm.NothingElse | kernel/core/mm/vmm.c:81-106 | Once they are all mapped, no other page is |
| Vmm.TranslatesIff | kernel/core/mm/vmm.c:81-106 | An address translates if and only if it lies on one of those pages |
| KernelMemory.SpaceSurvives | kernel/core/mm/slab.c:129-260 | Whatever leaves the frames set aside alone leaves the address space as it is |
| KernelMemory.TablesMissHeap | kernel/arch/x86_64/paging.c:61-107 | Stores into page tables reach neither a free block nor a page of the heap |
| KernelMemory.OthersMissed | kernel/core/mm/vmm.c:66-125 | No table lies in a frame with another owner, so stores into page tables leave the bitmap, its free frames, all blocks, the heap and memory that is not usable |
| KernelMemory.HeapSurvives | kernel/arch/x86_64/paging.c:61-125 | So mapping and unmapping leave slabs, free lists and every allocated object |
| KernelMemory.Kernel.KMalloc | kernel/core/mm/slab.c:193-230 | The partition and the page tables hold after every kmalloc, no mapping changes, coalesced lists stay so, and nothing set aside is touched |
| KernelMemory.Kernel.KFree | kernel/core/mm/slab.c:234-260 | So they do after every kfree |
| KernelMemory.Kernel.AllocBlock | kernel/core/mm/buddy.c:90-119 | So they do after every buddy_alloc |
| KernelMemory.Kernel.FreeBlock | kernel/core/mm/buddy.c:123-147 | So they do after every buddy_free |
| KernelMemory.Kernel.AllocFrame | kernel/core/mm/pmm.c:116-140 | So they do after every pmm_alloc_frame |
| KernelMemory.Kernel.FreeFrame | kernel/core/mm/pmm.c:142-157 | So they do when a frame that holds no table is given back |
| KernelMemory.Kernel.Write | kernel/core/mm/slab.c:193-260 | A store of a holder into its object leaves the address space and the partition |
| KernelMemory.Kernel.MapPage | kernel/core/mm/vmm.c:123-125 | Mapping one page changes that page alone, moves exactly the new tables' frames from the bitmap allocator to the tables, and keeps the partition, the sum, every allocated object and every frame that is not handed out singly |
| KernelMemory.Kernel.UnmapPage | kernel/core/mm/vmm.c:127-129 | Unmapping removes that page alone and keeps the same |
| KernelMemory.StackOver | kernel/core/mm/buddy.c:170-220 | Starting buddy allocator and heap on what the page tables left keeps every mapping and the partition |
| KernelMemory.BootKernel | kernel/kernel.c:250-289 | The kernel's own start-up order, bitmap, page tables, buddy allocator, heap, ends with the partition, the direct map and the image in place, and coalesced lists when no usable entries touch inside a buddy pair; it fails if and only if no region can hold the bitmap or it leaves fewer frames than tables are needed |
| ContextSwitch.ThawFrozen | kernel/arch/x86_64/context.asm:29-53 | What the pushes save, the pops and the ret bring back: stack pointer, return address and six registers |
| ContextSwitch.FrozenBelow | kernel/arch/x86_64/context.asm:29-40 | Saving writes nothing but seven words below the stack pointer |
| ContextSwitch.FrameLayout | kernel/arch/x86_64/context.asm:29-35 | The saved frame word by word: return address, rbp, rbx, r12, r13, r14, r15 from the stack pointer down |
| ContextSwitch.Processor.ContextSwitch | kernel/arch/x86_64/context.asm:29-53 | Saves the caller's context on its stack, stores where, and continues from the context saved at new_rsp |
| ContextSwitch.Processor.SaveRegisters | kernel/arch/x86_64/context.asm:29-37 | Six pushes below the return address make a saved context |
| ContextSwitch.Processor.RestoreRegisters | kernel/arch/x86_64/context.asm:43-53 | Six pops and the ret bring a saved context back |
| TaskRuns.StepKeeps | kernel/core/sched/sched.c:53-134 | Computing, creating and yielding keep one running task, all others suspended in their own disjoint stacks |
| TaskRuns.RunKeeps | kernel/core/sched/sched.c:53-134 | So does every run |
| TaskRuns.StepKeepsStacks | kernel/core/sched/sched.c:119-134 | Whatever one task does, and when it switches away, the stacks of the others stay as they are |
| TaskRuns.WaitIsExact | kernel/core/sched/sched.c:106-134 | Every yield brings a waiting task one place forward, creations move nobody, and its entry and stack stay as left |
| TaskRuns.RunsInTurn | kernel/core/sched/sched.c:119-134 | A task d places behind runs with exactly the d-th yield, from its saved context |
| TaskRuns.ResumesWhereItStopped | kernel/core/sched/sched.c:119-134 | Every resume restores the rsp, return address and six callee-saved registers of the task's own call |
| TaskRuns.RunsNoSooner | kernel/core/sched/sched.c:119-134 | Before its turn a suspended task is not the running one |
| TaskRuns.AloneStays | kernel/core/sched/sched.c:123-125 | A yield with no other task changes no register, no word of memory, neither the queue nor the ids |
| TaskRuns.AloneMayYield | kernel/core/sched/sched.c:119-134 | Every run of a task that stays alone comes to the same as that run without its yields |
| TaskRuns.YieldLeaves | kernel/core/sched/sched.c:127-134 | A switch stores nothing but seven words below the stack pointer of the task that yields |
| TaskRuns.CreateLeaves | kernel/core/sched/sched.c:86-117 | A creation stores nothing but eight words below the aligned top of the 16 KiB stack; who creates goes on as it was, the others keep their places, and the ids count up in 32 bits |
| TaskRuns.CreateStores | kernel/core/sched/sched.c:75-99 | These words are the trampoline, the entry and six zeros, downwards |
| TaskRuns.CreatedTaskStarts | kernel/core/sched/sched.c:68-104 | A new task waits exactly as many yields as there were tasks and starts at its entry with zeroed registers, rsp 8 above a multiple of 16, and the trampoline as return address |
| TaskRuns.TrampolineIsMisaligned | kernel/core/sched/sched.c:42-51 | An entry function that returns reaches the trampoline with rsp a multiple of 16 |
| TaskRuns.CreationOrderIff | kernel/core/sched/sched.c:106-134 | Over every run that does not use up the ids, tasks end in creation order if and only if they started so and every creation was the first task's; once out of order they stay so |
| TaskRuns.StepOrderIff | kernel/core/sched/sched.c:106-134 | A creation keeps creation order if and only if there was order and the first task creates; a yield or a computation if and only if there was |
| TaskRuns.CreatedOutOfOrder | kernel/core/sched/sched.c:106-114 | Create, yield, create: the queue then holds tasks 1, 0 and 2 |
| TaskStacks.HeapStacksApart | kernel/core/sched/sched.c:59-66 | Stacks obtained from kmalloc and not freed never overlap |
| TaskStacks.HeapCallKeepsStack | kernel/core/sched/sched.c:59-66 | A heap call leaves every stack that came from the heap as it was |
| KernelTasks.BootStackKept | kernel/core/sched/sched.c:26-33 | A heap call leaves the boot stack of task 0 as it was, too |
| KernelTasks.HeapStackIsUsable | kernel/core/sched/sched.c:59-66 | Every byte of a stack from the heap is usable memory, so it shares nothing with the boot stack |
| KernelTasks.NewStackApart | kernel/core/sched/sched.c:59-66 | A newly allocated stack is apart from the stack of every task there is |
| KernelTasks.NewStack | kernel/core/sched/sched.c:59-104 | What the heap promises about a 16 KiB object is what the scheduler needs of a new task's stack |
| KernelTasks.Room | kernel/core/sched/sched.c:53-66 | Two objects, structure and stack, or one, or none, with every other object kept |
| KernelTasks.HeapCallIsLegal | kernel/core/sched/sched.c:53-66 | Heap calls of the running task are a computation the other tasks allow: neither stacks from the heap nor the boot stack change |
| KernelTasks.StackStoresMissHeap | kernel/core/sched/sched.c:88-99 | Stores into a task's stack, from the heap or the boot loader's, never reach the allocators' own words |
| KernelTasks.SeenFrozen | kernel/arch/x86_64/context.asm:29-40 | Saving a context through virtual addresses is saving it through physical ones |
| KernelTasks.Threads.constructor | kernel/core/sched/sched.c:26-40 | Scheduler and allocators over one memory, with task 0 on the boot stack |
| KernelTasks.Threads.TaskCreate | kernel/core/sched/sched.c:53-117 | task_create over the heap itself and one memory: to the tasks a computation, then the creation of a suspended task with a structure and a stack of its own; or null with exactly the objects allocated that were before, and then there is indeed no room for one of the two |
| KernelTasks.Threads.Yield | kernel/core/sched/sched.c:119-134 | A switch stores seven words on the running task's own stack and leaves the allocators, all objects and all other memory |
| TaskStacks.StackAlignment | kernel/core/sched/task.h:20-25 | A stack starts 16 bytes into a page: aligned to 16, not to the page |
| Scheduling.Scheduler.constructor | kernel/core/sched/sched.c:26-40 | Adopts the running flow as task 0, alone in the queue |
| Scheduling.Scheduler.TaskCreate | kernel/core/sched/sched.c:53-117 | Given the heap's answers, makes a suspended task at the end of the queue, or none, asking for the structure back when only the stack is missing |
| Scheduling.Scheduler.Forge | kernel/core/sched/sched.c:88-99 | Writes the saved context that the first switch brings back |
| Scheduling.Scheduler.Append | kernel/core/sched/sched.c:106-114 | Walks to the tail and keeps the queue one cycle of all tasks |
| Scheduling.Scheduler.Yield | kernel/core/sched/sched.c:119-134 | Rotates the queue by one and switches context; alone, leaves every register and every word as it was |
| Scheduling.Scheduler.Compute | kernel/core/sched/sched.c:119-134 | The running task changes any memory but the other tasks' stacks, and everything is as before |
| Strings.MemMove | kernel/lib/string.c:25-40 | Every destination byte becomes the source byte from before the call, however the ranges overlap |
| Strings.MemSet | kernel/lib/string.c:8-14 | Exactly the range takes the low byte of the value |
| Strings.MemCmp | kernel/lib/string.c:42-51 | Zero if and only if the ranges agree, otherwise the difference at the first disagreement |
| ConsolePixels.SetWordSays | kernel/drivers/console.c:73-77 | Storing one pixel changes that visible pixel and no other, for any pitch |
| ConsolePixels.PixelsApart | kernel/drivers/console.c:73-77 | Different visible pixels share no byte |
| ConsolePixels.GlyphSpelt | kernel/drivers/console.c:87-91 | The bytes of the font are what the pixels of the glyphs spell, row after row, the leftmost of eight counting most |
| ConsolePixels.BackgroundBytes | kernel/drivers/console.c:65-77 | A pixel in memory is blue, green, red and a zero byte |
| ConsoleScreen.Stamped | kernel/drivers/console.c:79-97 | Drawing a cell shows exactly that glyph there and keeps all other cells and the margins |
| ConsoleScreen.LinePainted | kernel/drivers/console.c:99-108 | Painting the cursor line underlines the cell's glyph, or clips it, and changes no other cell |
| ConsoleScreen.MovedPixel | kernel/drivers/console.c:111-116 | The memmove lifts every visible pixel by one text row |
| ConsoleScreen.ScrollShows | kernel/drivers/console.c:111-122 | A scroll shifts the text by exactly one row and blanks the last, for any pitch and any height |
| ConsoleScreen.Cleared | kernel/drivers/console.c:164-168 | Clearing shows the blank grid whatever was there |
| ConsoleScreen.PictureOf | kernel/drivers/console.c:79-94 | A framebuffer that shows a grid has the grid's picture at every visible pixel |
| ConsoleScreen.TwoColours | kernel/drivers/console.c:79-108 | A pixel of a cell has the foreground colour if and only if its glyph is set there, apart from the bottom row of a cell the cursor is or was on |
| ConsoleText.PutKeepsClean | kernel/drivers/console.c:174-215 | Any character but a carriage return keeps everything from the cursor on blank and every glyph whole |
| ConsoleText.StringKeepsClean | kernel/drivers/console.c:99-101 | So does every string without one: the cursor never eats a glyph |
| ConsoleText.CleanIffNeverEats | kernel/drivers/console.c:99-101 | Text is clean if and only if no string without a carriage return, written from here on, costs any glyph its bottom row |
| ConsoleText.ReturnIsCleanIff | kernel/drivers/console.c:183-185 | A carriage return keeps that if and only if the line before the cursor is empty |
| ConsoleText.ReturnEatsIff | kernel/drivers/console.c:183-185 | After a carriage return the cursor eats no glyph, now or later, if and only if the line before the cursor was empty |
| ConsoleText.ReturnClipsGlyph | kernel/drivers/console.c:183-185 | An 'A' followed by a carriage return loses its bottom pixel row to the cursor |
| ConsoleText.TabJumps | kernel/drivers/console.c:196-204 | The tab loop goes to the next multiple of 8, or to a new line when that is past the last column |
| ConsoleText.PrintSays | kernel/drivers/console.c:205-211 | On any text a character from code 32 on puts its own glyph, or glyph 0 when the font has none for it, in the cell of the cursor, changes no other cell and moves on by one |
| ConsoleText.BackspaceSays | kernel/drivers/console.c:186-195 | On any text code 8 goes back by one cell, but not off the screen, and blanks that cell alone |
| ConsoleText.ControlSays | kernel/drivers/console.c:178-204 | On any text: code 10 goes to the next line, code 13 to the start of this one, code 9 to the next multiple of 8, and all other codes below 32 but 8 do nothing |
| ConsoleText.TabBlanks | kernel/drivers/console.c:196-204 | The tab wipes every cell it passes, whatever is there, and no other |
| ConsoleText.PutSays | kernel/drivers/console.c:174-215 | Of all cells the cursor then changes only the one it stands on, whose glyph loses its bottom row |
| ConsoleText.PrintedStays | kernel/drivers/console.c:205-211 | Without a scroll the cell where the cursor was shows the character |
| ConsoleText.CursorIsSeen | kernel/drivers/console.c:99-108 | What is seen: the glyphs of the text, and a line along the bottom of the cursor's cell whatever is there |
| ConsoleText.BackspaceUndoesIff | kernel/drivers/console.c:186-195 | Backspace takes back a printed character if and only if printing it did not scroll (or the screen is one cell) |
| ConsoleTape.FeedTyped | kernel/drivers/console.c:174-215 | Any character but a carriage return does to the screen what it does to the tape: newline and tab draw it out with blanks, backspace cuts it, a printable character extends it |
| ConsoleTape.PrintedText | kernel/drivers/console.c:174-215 | Writing any string without a carriage return on a cleared screen shows the window of its tape behind the lines scrolled off |
| ConsoleTape.PrintableTape | kernel/drivers/console.c:205-211 | For printable characters alone the tape is the string, glyph 0 for codes the font has not, and the lines scrolled off follow from its length |
| ConsoleDriver.Console.PutPixel | kernel/drivers/console.c:75-77 | Stores one little-endian pixel |
| ConsoleDriver.Console.DrawCell | kernel/drivers/console.c:81-94 | The double loop paints exactly the cell's rectangle with glyph c, with glyph 0 when the font has no glyph c |
| ConsoleDriver.Console.PaintCursor | kernel/drivers/console.c:102-106 | The loop paints exactly the bottom pixel row of the cursor's cell |
| ConsoleDriver.Console.Scroll | kernel/drivers/console.c:111-122 | The framebuffer shows the text one row higher |
| ConsoleDriver.Console.NewLine | kernel/drivers/console.c:125-131 | To the start of the next line, scrolling off the bottom |
| ConsoleDriver.Console.Putc | kernel/drivers/console.c:174-215 | Whatever the character, the framebuffer shows the new text with the cursor; a character from code 32 on is shown by its own glyph where the cursor was; nothing happens before a font is parsed |
| ConsoleDriver.Console.Write | kernel/drivers/console.c:217-219 | Writes the characters up to the terminating zero |
| ConsoleDriver.UsableFontIff | kernel/drivers/console.c:137-145 | The console is enabled if and only if the font begins with the four bytes of the format and neither glyph dimension is zero |
| ConsoleDriver.FontRead | kernel/drivers/console.c:36-48 | Reading a PSF2 font file gives back the glyph count, size and bytes it was written with, and the largest grid of whole cells that fits |
| ConsoleDriver.Console.constructor | kernel/drivers/console.c:135-172 | Shows a blank screen with the cursor at the top left, or stays silent for an unusable font |

## Left out

- SlabAllocator.Slab.KMalloc: takes the sizes for which order_for_bytes ends (SlabLayout.TerminatesIff); for the others the code loops forever.
- SlabAllocator.Slab.KFree: a pointer that leads to a header must be a live one; double frees and pointers into the middle of an object, which the code does not detect, are excluded.
- SlabAllocator.Slab.KMallocUsableSize: takes the same pointers as KFree.
- BuddyAllocator.Buddy.Free: takes handed-out blocks at their own order only; an order above the top is covered, as in the code.
- PhysicalFrames.Pmm.FreeFrame: takes frames inside the bitmap's span; the code reads outside its bitmap otherwise.
- PhysicalFrames.Pmm.Init: the bitmap is an array of its own, not words of the shared memory; what remains is that its frames are reserved and that no allocator and no page table writes to them.
- Paging.AddressSpace.Map: the stale translations a processor may cache (invlpg) are not modelled.
- Vmm.Init: loading cr3 and the check just before it are not modelled.
- Scheduling.Scheduler.TaskCreate: the heap's two answers are parameters; KernelTasks.Threads.TaskCreate supplies them from the heap.
- KernelTasks.Threads.TaskCreate: the one memory is kept twice, by physical and by virtual address, and whatever one side stores is carried over to the other; the task structure is an object of its own whose bytes the heap only reserves.
- Scheduling.Scheduler.constructor: as in the code, the allocation of task 0 is taken to succeed.
- ConsoleDriver.Console.constructor: other pixel sizes than 32 bits and framebuffers smaller than one glyph are excluded; so are font headers that point outside the font.
- Slab headers hold the number of the size class where the code holds a pointer to its cache.
- Memory is in aligned 64-bit words; two 32-bit fields of a slab header are packed in one.
- Returning from sched_yield to its caller, and the trampoline's loop, are part of what a running task computes.
- Caller-saved registers, flags and segment state: the switch does not touch them.
- Serial output, interrupt controllers, timer, keyboard, descriptor tables and crash dumps: device and table set-up with no property that spans operations.
- The bytes of the built-in font.
- memcpy: the forward loop of memmove.
- Locking: the allocators are declared single-threaded and switches happen only at yields.
