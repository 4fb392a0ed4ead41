/** The memory stack and the kernel's address space together: page tables are frames the bitmap allocator
    handed out, and heap and tables never write to each other's memory. */
module KernelMemory {
  import opened Bits
  import opened PhysicalMemory
  import opened FrameBits
  import opened PhysicalFrames
  import opened BuddyBlocks
  import opened BuddyLists
  import opened BuddyLinks
  import opened BuddyRuns
  import opened BuddyClaims
  import opened SlabLayout
  import opened SlabPages
  import opened SlabHeap
  import opened SlabAllocator
  import opened FrameOwnership
  import opened MemoryStack
  import opened PageEntries
  import opened PageTables
  import opened Paging
  import opened Vmm

  // ---- what each side does to the other -----------------------------------------------------------

  /** Whatever leaves the frames set aside alone leaves the address space as it is. */
  lemma {:induction false} SpaceSurvives(b: Books, w: Ram, after: Ram, s: Space)
    requires SpaceOk(w, s) && TableFrames(s) <= b.handed && Kept(b, w, after)
    ensures SpaceOk(after, s)
  {
    forall n, i: nat | n in s.tables && i < 512
      ensures Load(after, SlotOf(s.tables[n].frame, i)) == EntryFor(s, n, i)
    {
      PageTables.SlotFrame(s.tables[n].frame, i);
      assert s.tables[n].frame in TableFrames(s);
      assert Aside(b, FrameOf(SlotOf(s.tables[n].frame, i)));
    }
  }

  /** Frames the bitmap allocator hands out for page tables. */
  lemma {:induction false} TablesHandedOut(b: Books, now: seq<bool>, fs: set<nat>)
    requires BooksOk(b) && |now| == |b.used|
    requires forall f :: f in fs ==> f < |b.used| && !b.used[f]
    requires forall f: nat :: f < |now| ==> (now[f] <==> b.used[f] || f in fs)
    ensures BooksOk(b.(used := now, handed := b.handed + fs)) && |b.handed + fs| == |b.handed| + |fs|
  {
    assert b.handed * fs == {};
  }

  lemma {:induction false} FirstTables(b: Books, now: seq<bool>, fs: set<nat>)
    requires Accounted(b) && |now| == |b.used|
    requires forall f :: f in fs ==> f < |b.used| && !b.used[f]
    requires forall f: nat :: f < |now| ==> (now[f] <==> b.used[f] || f in fs)
    ensures Accounted(b.(used := now, handed := b.handed + fs)) && |b.handed + fs| == |b.handed| + |fs|
  {
    assert b.handed * fs == {};
  }

  /** Stores into page tables reach neither a free block nor a page of the heap. */
  lemma {:induction false} TablesMissHeap(b: Books, w: Ram, after: Ram, s: Space, a: nat)
    requires BooksOk(b) && OnlyTables(w, after, s) && TableFrames(s) <= b.handed
    requires HeapFrame(b.pages, b.s.lists, FrameOf(a))
    ensures Load(after, a) == Load(w, a)
  {
    TableFrameIn(s, FrameOf(a));
    if IsTableFrame(s, FrameOf(a)) {
      AsideIffNoHeapFrame(b, FrameOf(a));
    }
  }

  /** Every frame that is not handed out singly keeps every word: the bitmap's own and those it still has,
      free and held blocks, the heap's, and memory that is not usable. */
  ghost predicate OutsideKept(b: Books, w: Ram, after: Ram) {
    forall a: nat :: FrameOf(a) !in b.handed ==> Load(after, a) == Load(w, a)
  }

  /** A frame with any other owner holds no table, so stores into tables leave it. */
  lemma {:induction false} OthersMissed(b: Books, w: Ram, after: Ram, s: Space)
    requires BooksOk(b) && OnlyTables(w, after, s) && TableFrames(s) <= b.handed
    ensures OutsideKept(b, w, after)
    ensures forall o, f: nat :: Owns(b, o, f) && o != HandedOut ==> !IsTableFrame(s, f)
  {
    hide BooksOk, Owns, OnlyTables;
    forall a: nat | FrameOf(a) !in b.handed ensures Load(after, a) == Load(w, a) {
      TableFrameIn(s, FrameOf(a));
      OnlyTablesAt(w, after, s, a);
    }
    forall o, f: nat | Owns(b, o, f) && o != HandedOut ensures !IsTableFrame(s, f) {
      ExactlyOneOwner(b, f);
      TableFrameIn(s, f);
      OwnsHanded(b, f);
    }
  }

  lemma OnlyTablesAt(w: Ram, after: Ram, s: Space, a: nat)
    requires OnlyTables(w, after, s) && !IsTableFrame(s, FrameOf(a))
    ensures Load(after, a) == Load(w, a)
  {
  }

  lemma OwnsHanded(b: Books, f: nat)
    ensures Owns(b, HandedOut, f) <==> f in b.handed
  {
  }

  lemma {:induction false} HeapSurvives(b: Books, w: Ram, after: Ram, s: Space, hhdm: nat, slabs: seq<seq<nat>>,
                                        caches: seq<Cache>, heads: seq<nat>, counts: seq<nat>)
    requires BooksOk(b) && OnlyTables(w, after, s) && TableFrames(s) <= b.handed
    requires HeapOk(w, hhdm, b.pages, slabs, caches) && Linked(w, hhdm, heads, counts, b.s.lists)
    ensures HeapOk(after, hhdm, b.pages, slabs, caches) && Linked(after, hhdm, heads, counts, b.s.lists)
    ensures Undisturbed(w, after, b.pages)
  {
    hide BooksOk, OnlyTables, HeapOk, Linked;
    forall f | f in b.pages ensures SameFrame(w, after, f) {
      assert Covers(BlockOf(f, b.pages[f]), f);
      forall a: nat | Addr(f) <= a < Addr(f) + 4096 ensures Load(after, a) == Load(w, a) {
        assert FrameOf(a) == f;
        TablesMissHeap(b, w, after, s, a);
      }
    }
    HeapStays(w, after, hhdm, b.pages, slabs, caches);
    forall f | IsFree(b.s.lists, f)
      ensures Load(after, Addr(f)) == Load(w, Addr(f)) && Load(after, Addr(f) + 8) == Load(w, Addr(f) + 8)
    {
      assert FrameOf(Addr(f)) == f && FrameOf(Addr(f) + 8) == f;
      TablesMissHeap(b, w, after, s, Addr(f));
      TablesMissHeap(b, w, after, s, Addr(f) + 8);
    }
    LinkedStays(w, after, hhdm, heads, counts, b.s.lists);
    forall a: nat | InLive(b.pages, a) ensures Load(after, a) == Load(w, a) {
      var x :| IsLiveObj(b.pages, x) && Inside(x, a);
      ObjInBlock(b.pages, x, a);
      TablesMissHeap(b, w, after, s, a);
    }
  }

  /** Taking frames for tables keeps the sum of all shares. */
  lemma SharesKept(b: Books, now: seq<bool>, s: Space, t: Space)
    requires BooksOk(b) && TookForTables(b.used, now, s, t) && TableFrames(s) <= b.handed
    ensures TableFrames(t) <= b.handed + TableFrames(t)
    ensures BooksOk(b.(used := now, handed := b.handed + TableFrames(t)))
    ensures CountFree(now) + |b.handed + TableFrames(t)| == CountFree(b.used) + |b.handed|
  {
    hide BooksOk, TookForTables, CountFree, TableFrames;
    TablesCounted(b.used, now, s, t);
    TablesHandedOut(b, now, TableFrames(t) - TableFrames(s));
    assert b.handed + (TableFrames(t) - TableFrames(s)) == b.handed + TableFrames(t);
  }

  // ---- both sides as one object -------------------------------------------------------------------

  class Kernel {
    const stack: Stack
    const space: AddressSpace

    ghost function Repr(): set<object>
      reads stack.pmm
    {
      {this, space} + stack.Repr()
    }

    ghost predicate Valid()
      reads Repr()
    {
      && stack.Valid()
      && space.pmm == stack.pmm && space.mem == stack.heap.mem && space.Valid()
      && TableFrames(space.space) <= stack.handed
    }

    constructor (stack: Stack, space: AddressSpace)
      requires stack.Valid() && space.Valid() && space.pmm == stack.pmm && space.mem == stack.heap.mem
      requires TableFrames(space.space) <= stack.handed
      ensures Valid() && this.stack == stack && this.space == space
    {
      this.stack, this.space := stack, space;
      hide SpaceOk, BooksOk, HeapOk, Owned, InReach, Sound, TablesTaken, Shows, CountFree, TableFrames;
    }

    /** A single frame, for a caller or for a table still to come. */
    method AllocFrame() returns (phys: nat)
      requires Valid()
      modifies stack`handed, stack.pmm, stack.pmm.bitmap
      ensures Valid() && space.space == old(space.space)
      ensures phys == 0 <==> FirstFree(old(stack.pmm.used), 0) == |old(stack.pmm.used)|
      ensures phys == 0 ==> stack.handed == old(stack.handed)
      ensures phys != 0 ==>
        FrameOf(phys) !in old(stack.handed) && stack.handed == old(stack.handed) + {FrameOf(phys)}
    {
      hide SpaceOk, BooksOk, HeapOk, Owned, InReach, Sound, IsFree, IsLive, TotalFrames, LiveFrames, BitmapFrameCount;
      hide TablesTaken, Shows, CountFree, TableFrames, FirstFree;
      ghost var b := stack.Ledger();
      phys := stack.AllocFrame();
      SameSpan(b, stack.Ledger());
      TablesStayTaken(space.space, b.used, stack.pmm.used, stack.Ledger());
    }

    /** A single frame back, one that holds no table. */
    method FreeFrame(phys: nat)
      requires Valid() && FrameOf(phys) in stack.handed && FrameOf(phys) !in TableFrames(space.space)
      modifies stack`handed, stack.pmm, stack.pmm.bitmap
      ensures Valid() && space.space == old(space.space)
      ensures stack.handed == old(stack.handed) - {FrameOf(phys)}
    {
      hide SpaceOk, BooksOk, HeapOk, Owned, InReach, Sound, IsFree, IsLive, TotalFrames, LiveFrames, BitmapFrameCount;
      hide TablesTaken, Shows, CountFree, TableFrames;
      ghost var b := stack.Ledger();
      stack.FreeFrame(phys);
      SameSpan(b, stack.Ledger());
      TablesStayTaken(space.space, b.used, stack.pmm.used, stack.Ledger());
    }

    /** kmalloc leaves the address space as it is. */
    method KMalloc(size: nat) returns (ptr: nat, ghost x: Obj)
      requires Valid() && Terminates(size)
      modifies stack.heap`pages, stack.heap`slabs, stack.heap.caches, stack.heap.buddy`lists, stack.heap.buddy`live,
               stack.heap.mem, stack.heap.buddy.freeList, stack.heap.buddy.freeCount
      ensures Valid() && space.space == old(space.space)
      ensures ptr != 0 ==>
        && Appears(old(stack.heap.pages), stack.heap.pages, x) && ptr == stack.heap.hhdm + ObjAddr(x)
        && (size <= ObjBytes(x) <==> !Wraps(size))
      ensures ptr == 0 ==> stack.heap.pages == old(stack.heap.pages)
      ensures ptr == 0 <==>
        size == 0 || NoRoom(old(stack.heap.pages), old(stack.heap.slabs), old(stack.heap.buddy.lists), size)
      ensures Undisturbed(old(stack.heap.mem.w), stack.heap.mem.w, old(stack.heap.pages))
      ensures Kept(old(stack.Ledger()), old(stack.heap.mem.w), stack.heap.mem.w)
      ensures Coalesced(old(stack.heap.buddy.lists)) ==> Coalesced(stack.heap.buddy.lists)
    {
      hide SpaceOk, BooksOk, HeapOk, Owned, InReach, Sound, IsFree, IsLive, TotalFrames, LiveFrames, BitmapFrameCount;
      hide TablesTaken, Shows, CountFree, TableFrames, Kept, Appears, Undisturbed, NoRoom, Terminates, Wraps, Coalesced;
      ghost var b, w := stack.Ledger(), stack.heap.mem.w;
      ptr, x := stack.KMalloc(size);
      SpaceSurvives(b, w, stack.heap.mem.w, space.space);
    }

    method KFree(ptr: nat, ghost x: Obj)
      requires Valid()
      requires Ours(stack.heap.mem.w, stack.heap.hhdm, ptr) ==>
        IsLiveObj(stack.heap.pages, x) && ptr == stack.heap.hhdm + ObjAddr(x)
      modifies stack.heap`pages, stack.heap.caches, stack.heap.buddy`lists, stack.heap.buddy`live,
               stack.heap.mem, stack.heap.buddy.freeList, stack.heap.buddy.freeCount
      ensures Valid() && space.space == old(space.space)
      ensures old(Ours(stack.heap.mem.w, stack.heap.hhdm, ptr)) ==> Appears(stack.heap.pages, old(stack.heap.pages), x)
      ensures Undisturbed(old(stack.heap.mem.w), stack.heap.mem.w, stack.heap.pages)
      ensures Kept(old(stack.Ledger()), old(stack.heap.mem.w), stack.heap.mem.w)
      ensures Coalesced(old(stack.heap.buddy.lists)) ==> Coalesced(stack.heap.buddy.lists)
    {
      hide SpaceOk, BooksOk, HeapOk, Owned, InReach, Sound, IsFree, IsLive, TotalFrames, LiveFrames, BitmapFrameCount;
      hide TablesTaken, Shows, CountFree, TableFrames, Kept, Appears, Undisturbed, Ours, Coalesced, IsLiveObj, ObjAddr;
      ghost var b, w := stack.Ledger(), stack.heap.mem.w;
      stack.KFree(ptr, x);
      SpaceSurvives(b, w, stack.heap.mem.w, space.space);
    }

    /** A caller's own store into an object it holds leaves the address space as it is. */
    method Write(ptr: nat, off: nat, v: int, ghost x: Obj)
      requires Valid() && IsLiveObj(stack.heap.pages, x) && ptr == stack.heap.hhdm + ObjAddr(x)
      requires off % 8 == 0 && off + 8 <= ObjBytes(x)
      modifies stack.heap.mem
      ensures Valid() && space.space == old(space.space)
      ensures stack.heap.mem.w == Store(old(stack.heap.mem.w), ptr - stack.heap.hhdm + off, v)
    {
      hide SpaceOk, BooksOk, HeapOk, Owned, InReach, Sound, IsFree, IsLive, TotalFrames, LiveFrames, BitmapFrameCount;
      hide TablesTaken, Shows, CountFree, TableFrames, Kept, IsLiveObj, ObjAddr, ObjBytes;
      ghost var w := stack.heap.mem.w;
      stack.Write(ptr, off, v, x);
      SpaceSurvives(stack.Ledger(), w, stack.heap.mem.w, space.space);
    }

    method AllocBlock(order: nat) returns (phys: nat)
      requires Valid()
      modifies stack`blocks, stack.heap.buddy`lists, stack.heap.buddy`live, stack.heap.mem,
               stack.heap.buddy.freeList, stack.heap.buddy.freeCount
      ensures Valid() && space.space == old(space.space)
      ensures var (lists, got) := BuddyLists.Alloc(old(stack.heap.buddy.lists), order);
        && stack.heap.buddy.lists == lists && phys == (if got.Some? then Addr(got.value) else 0)
        && stack.blocks == if got.Some? then old(stack.blocks) + {Block(got.value, order)} else old(stack.blocks)
      ensures Undisturbed(old(stack.heap.mem.w), stack.heap.mem.w, stack.heap.pages)
      ensures Kept(old(stack.Ledger()), old(stack.heap.mem.w), stack.heap.mem.w)
      ensures Coalesced(old(stack.heap.buddy.lists)) ==> Coalesced(stack.heap.buddy.lists)
    {
      hide SpaceOk, BooksOk, HeapOk, Owned, InReach, Sound, IsFree, IsLive, TotalFrames, LiveFrames, BitmapFrameCount;
      hide TablesTaken, Shows, CountFree, TableFrames, Kept, Undisturbed, Coalesced, BuddyLists.Alloc;
      ghost var b, w := stack.Ledger(), stack.heap.mem.w;
      phys := stack.AllocBlock(order);
      SpaceSurvives(b, w, stack.heap.mem.w, space.space);
    }

    method FreeBlock(phys: nat, order: nat)
      requires Valid()
      requires order <= MAX_ORDER ==> phys % 4096 == 0 && Block(FrameOf(phys), order) in stack.blocks
      modifies stack`blocks, stack.heap.buddy`lists, stack.heap.buddy`live, stack.heap.mem,
               stack.heap.buddy.freeList, stack.heap.buddy.freeCount
      ensures Valid() && space.space == old(space.space)
      ensures order > MAX_ORDER ==>
        stack.blocks == old(stack.blocks) && stack.heap.buddy.lists == old(stack.heap.buddy.lists)
      ensures order <= MAX_ORDER ==>
        && stack.heap.buddy.lists == BuddyLists.FreeBlock(old(stack.heap.buddy.lists), FrameOf(phys), order)
        && stack.blocks == old(stack.blocks) - {Block(FrameOf(phys), order)}
      ensures Undisturbed(old(stack.heap.mem.w), stack.heap.mem.w, stack.heap.pages)
      ensures Kept(stack.Ledger(), old(stack.heap.mem.w), stack.heap.mem.w)
      ensures Coalesced(old(stack.heap.buddy.lists)) ==> Coalesced(stack.heap.buddy.lists)
    {
      hide SpaceOk, BooksOk, HeapOk, Owned, InReach, Sound, IsFree, IsLive, TotalFrames, LiveFrames, BitmapFrameCount;
      hide TablesTaken, Shows, CountFree, TableFrames, Kept, Undisturbed, Coalesced, BuddyLists.FreeBlock;
      ghost var w := stack.heap.mem.w;
      stack.FreeBlock(phys, order);
      SpaceSurvives(stack.Ledger(), w, stack.heap.mem.w, space.space);
    }

    /** Mapping a page: the frames its tables need move from the bitmap allocator to the tables, and no
        allocated object, free list or slab changes. */
    method MapPage(virt: nat, phys: nat, flags: nat) returns (ok: bool)
      requires Valid()
      modifies stack`handed, space`space, stack.heap.mem, stack.pmm, stack.pmm.bitmap
      ensures Valid()
      ensures ok ==> space.space.maps == old(space.space.maps)[PageOf(virt) := MappingFor(phys, flags)]
      ensures !ok ==> space.space.maps == old(space.space.maps)
      ensures !ok ==> FirstFree(stack.pmm.used, 0) == |stack.pmm.used|
      ensures stack.handed == old(stack.handed) + TableFrames(space.space)
      ensures OnlyTables(old(stack.heap.mem.w), stack.heap.mem.w, space.space)
      ensures OutsideKept(stack.Ledger(), old(stack.heap.mem.w), stack.heap.mem.w)
      ensures Undisturbed(old(stack.heap.mem.w), stack.heap.mem.w, stack.heap.pages)
    {
      hide SpaceOk, BooksOk, HeapOk, Owned, InReach, Sound, IsFree, IsLive, TotalFrames, LiveFrames, BitmapFrameCount;
      hide TablesTaken, Shows, CountFree, TableFrames, Undisturbed, Linked, WellFormed, OnlyTables, NewTablesFor;
      hide OutsideKept, TookForTables, PageOf, MappingFor, FirstFree;
      ghost var b, w, s := stack.Ledger(), stack.heap.mem.w, space.space;
      ok := space.Map(virt, phys, flags);
      SharesKept(b, stack.pmm.used, s, space.space);
      stack.handed := stack.handed + TableFrames(space.space);
      HeapSurvives(stack.Ledger(), w, stack.heap.mem.w, space.space, stack.heap.hhdm, stack.heap.slabs,
                   stack.heap.caches[..], stack.heap.buddy.freeList[..], stack.heap.buddy.freeCount[..]);
      OthersMissed(stack.Ledger(), w, stack.heap.mem.w, space.space);
    }

    method UnmapPage(virt: nat) returns (ok: bool)
      requires Valid()
      modifies space`space, stack.heap.mem
      ensures Valid()
      ensures ok <==> PageOf(virt) in old(space.space.maps)
      ensures space.space.maps == old(space.space.maps) - {PageOf(virt)}
      ensures OnlyTables(old(stack.heap.mem.w), stack.heap.mem.w, space.space)
      ensures OutsideKept(stack.Ledger(), old(stack.heap.mem.w), stack.heap.mem.w)
      ensures Undisturbed(old(stack.heap.mem.w), stack.heap.mem.w, stack.heap.pages)
    {
      hide SpaceOk, BooksOk, HeapOk, Owned, InReach, Sound, IsFree, IsLive, TotalFrames, LiveFrames, BitmapFrameCount;
      hide TablesTaken, Shows, CountFree, Undisturbed, Linked, WellFormed, OnlyTables, PageOf, OutsideKept;
      ghost var w := stack.heap.mem.w;
      ok := space.Unmap(virt);
      HeapSurvives(stack.Ledger(), w, stack.heap.mem.w, space.space, stack.heap.hhdm, stack.heap.slabs,
                   stack.heap.caches[..], stack.heap.buddy.freeList[..], stack.heap.buddy.freeCount[..]);
      OthersMissed(stack.Ledger(), w, stack.heap.mem.w, space.space);
    }
  }

  // ---- bringing it all up ---------------------------------------------------------------------------

  /** The books once the kernel's page tables exist. */
  lemma BooksWithTables(regions: seq<Entry>, before: seq<bool>, now: seq<bool>, s: Space)
    requires MapOk(regions) && Truthful(regions, before) && TookForTables(before, now, NO_SPACE, s)
    ensures Accounted(Books(regions, now, [], TableFrames(s), State([], {}), {}, map[]))
    ensures CountFree(now) + |TableFrames(s)| == CountFree(before) && |now| == |before|
  {
    hide TookForTables, Truthful, MapOk, Accounted, CountFree;
    var b := Books(regions, before, [], {}, State([], {}), {}, map[]);
    StartBooks(regions, before, b.s);
    TablesCounted(before, now, NO_SPACE, s);
    assert TableFrames(s) - TableFrames(NO_SPACE) == TableFrames(s) && {} + TableFrames(s) == TableFrames(s);
    SpannedAre(b);
    FirstTables(b, now, TableFrames(s));
  }

  lemma SpannedAre(b: Books)
    requires Accounted(b)
    ensures |b.used| == SpannedFrames(b.regions)
  {
  }

  /** The memory part of the boot in the kernel's own order: bitmap, page tables, buddy allocator, heap.
      Null exactly when no region can hold the bitmap, or the frames it leaves are fewer than the tables it
      takes to map all memory and the image. */
  method BootKernel(mem: Memory, regions: seq<Entry>, hhdm: nat, reserve: nat, virtualBase: nat, physicalBase: nat,
                    kernelStart: nat, dataStart: nat, kernelEnd: nat, ghost top: nat) returns (kernel: Kernel?)
    requires MapOk(regions) && SpannedFrames(regions) <= FRAME_LIMIT
    requires hhdm > 0 && hhdm % 4096 == 0 && hhdm + Addr(SpannedFrames(regions)) <= Pow2(64)
    requires kernelStart % 4096 == 0 && dataStart % 4096 == 0 && kernelEnd % 4096 == 0
    requires virtualBase % 4096 == 0 && physicalBase % 4096 == 0
    requires virtualBase <= kernelStart <= dataStart <= kernelEnd && kernelEnd - kernelStart <= Addr(WINDOW)
    requires top <= WINDOW
    requires forall i :: 0 <= i < |regions| ==>
      regions[i].base + regions[i].length + 4095 < Pow2(64) && RangeEnd(regions[i]) <= top
    requires Vmm.Apart(hhdm, top, FrameOf(kernelStart), FrameOf(kernelEnd))
    modifies mem
    ensures kernel == null <==>
      || FirstFit(regions, BitmapBytes(regions), 0) == |regions|
      || CountFree(TrueMap(regions)) <
           |PathTables(KernelPages(hhdm, regions, FrameOf(kernelStart), FrameOf(kernelEnd)))|
    ensures kernel != null ==>
      && kernel.Valid() && fresh(kernel.Repr() - {mem})
      && kernel.stack.regions == regions && kernel.stack.heap.pages == map[] && kernel.stack.heap.mem == mem
      && kernel.stack.handed == TableFrames(kernel.space.space)
      && KernelMapped(kernel.space.space.maps, hhdm, regions, virtualBase, physicalBase, kernelStart, dataStart,
                      kernelEnd)
      && OnlyKernel(kernel.space.space.maps, hhdm, regions, kernelStart, kernelEnd)
      && (NoRegionsCut(regions) ==> Coalesced(kernel.stack.heap.buddy.lists))
  {
    hide Truthful, MapOk, InUsable, HoldsBitmap, SpannedFrames, BitmapBytes, FirstFit, BitmapFrameCount, RangeEnd;
    hide KernelMapped, Vmm.Apart, TookForTables, TableFrames, Coalesced, NoRegionsCut, Pow2, CountFree, FirstFree;
    hide TrueMap, PathTables, KernelPages, OnlyKernel, Spans, Home, FreeMeans;
    hide Pmm.Valid, AddressSpace.Valid, Kernel.Valid;
    var pmm := new Pmm();
    var ok := pmm.Init(regions);
    if !ok {
      return null;
    }
    ghost var before := pmm.used;
    PmmCounts(pmm);
    OneTrueMap(regions, before);
    var space := Vmm.Init(pmm, mem, regions, hhdm, virtualBase, physicalBase, kernelStart, dataStart, kernelEnd, top);
    if space == null {
      return null;
    }
    kernel := StackOver(pmm, space, regions, hhdm, reserve, mem, before);
  }

  /** Buddy allocator and heap on the frames that `before` had free and the page tables did not take. */
  method StackOver(pmm: Pmm, space: AddressSpace, regions: seq<Entry>, hhdm: nat, reserve: nat, mem: Memory,
                   ghost before: seq<bool>) returns (kernel: Kernel)
    requires MapOk(regions) && Truthful(regions, before)
    requires space.Valid() && space.pmm == pmm && space.mem == mem
    requires TookForTables(before, pmm.used, NO_SPACE, space.space)
    requires pmm.usableFrames == CountFree(before) + BitmapFrameCount(regions)
    requires hhdm > 0 && hhdm % 4096 == 0 && hhdm + Addr(SpannedFrames(regions)) <= Pow2(64)
    modifies mem, pmm, pmm.bitmap
    ensures kernel.Valid() && fresh(kernel.Repr() - {mem, pmm, pmm.bitmap, space}) && pmm.bitmap == old(pmm.bitmap)
    ensures kernel.stack.pmm == pmm && kernel.space == space && space.space == old(space.space)
    ensures kernel.stack.regions == regions && kernel.stack.heap.pages == map[] && kernel.stack.heap.mem == mem
    ensures kernel.stack.handed == TableFrames(space.space)
    ensures NoRegionsCut(regions) ==> Coalesced(kernel.stack.heap.buddy.lists)
  {
    hide Truthful, Accounted, Claimed, Sound, WellFormed, IsFree, IsLive, Shows, InUsable, MapOk, TotalFrames;
    hide CountFree, BitmapFrameCount, SpannedFrames, LiveFrames, Coalesced, ClaimWalk, OnlyFreeTouched, InReach;
    hide NoPairStraddles, NoRegionsCut, Pow2, BooksOk, HeapOk, Linked, TookForTables, TableFrames, SpaceOk, TablesTaken;
    BooksWithTables(regions, before, pmm.used, space.space);
    ghost var used, w := pmm.used, mem.w;
    var stack := StackUp(pmm, regions, hhdm, reserve, mem, TableFrames(space.space));
    TablesStayTaken(space.space, used, pmm.used, stack.Ledger());
    ReturnKept(stack.Ledger(), w, mem.w);
    SpaceSurvives(stack.Ledger(), w, mem.w, space.space);
    kernel := new Kernel(stack, space);
  }

  lemma SameSpan(b: Books, now: Books)
    requires BooksOk(b) && BooksOk(now) && b.regions == now.regions
    ensures |b.used| == |now.used|
  {
  }

  /** Frames of tables are in use as long as they are handed out. */
  lemma TablesStayTaken(s: Space, before: seq<bool>, now: seq<bool>, b: Books)
    requires BooksOk(b) && b.used == now && TablesTaken(s, before) && |now| == |before| && TableFrames(s) <= b.handed
    ensures TablesTaken(s, now)
  {
    forall n | n in s.tables ensures s.tables[n].frame < |now| && now[s.tables[n].frame] {
      assert s.tables[n].frame in TableFrames(s);
    }
  }
}
