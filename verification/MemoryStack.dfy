/** The physical memory stack as one object: bitmap allocator, buddy allocator and heap over one memory. */
module MemoryStack {
  import opened Bits
  import opened PhysicalMemory
  import opened FrameBits
  import opened PhysicalFrames
  import opened BuddyBlocks
  import opened BuddyLists
  import opened BuddyLinks
  import opened BuddyRuns
  import opened BuddySeed
  import opened BuddyClaims
  import opened BuddyAllocator
  import opened SlabLayout
  import opened SlabPages
  import opened SlabHeap
  import opened SlabAllocator
  import opened SlabClient
  import opened FrameOwnership

  class Stack {
    const pmm: Pmm
    const heap: Slab
    ghost var regions: seq<Entry>
    ghost var runs: seq<FrameRun>
    ghost var handed: set<nat>
    ghost var blocks: set<Block>

    ghost function Repr(): set<object>
      reads pmm
    {
      {this, pmm, pmm.bitmap} + heap.Repr()
    }

    ghost function Ledger(): Books
      reads this, pmm, heap, heap.buddy
    {
      Books(regions, pmm.used, runs, handed, heap.buddy.Now(), blocks, heap.pages)
    }

    ghost predicate Valid()
      reads Repr()
    {
      && this !in heap.Repr() && pmm as object !in heap.Repr() && pmm.bitmap as object !in heap.Repr()
      && pmm.Valid() && heap.Valid()
      && BooksOk(Ledger())
      && pmm.usableFrames ==
           pmm.freeFrames + BitmapFrameCount(regions) + |handed|
           + TotalFrames(heap.buddy.lists) + LiveFrames(heap.buddy.live)
    }

    constructor (pmm: Pmm, heap: Slab, ghost regions: seq<Entry>, ghost runs: seq<FrameRun>, ghost handed: set<nat>)
      requires pmm as object !in heap.Repr() && pmm.bitmap as object !in heap.Repr()
      requires pmm.Valid() && heap.Valid()
      requires BooksOk(Books(regions, pmm.used, runs, handed, heap.buddy.Now(), {}, heap.pages))
      requires pmm.usableFrames ==
                 pmm.freeFrames + BitmapFrameCount(regions) + |handed|
                 + TotalFrames(heap.buddy.lists) + LiveFrames(heap.buddy.live)
      ensures Valid() && this.pmm == pmm && this.heap == heap
      ensures this.regions == regions && this.runs == runs && this.handed == handed && blocks == {}
    {
      this.pmm, this.heap := pmm, heap;
      this.regions, this.runs, this.handed, blocks := regions, runs, handed, {};
      hide BooksOk, HeapOk, Owned, InReach, Sound, IsFree, IsLive, TotalFrames, LiveFrames, BitmapFrameCount, Shows;
      hide CountFree, Linked;
      new;
    }

    /** A single frame from the bitmap allocator, as page tables take them. */
    method AllocFrame() returns (phys: nat)
      requires Valid()
      modifies this`handed, pmm, pmm.bitmap
      ensures Valid() && regions == old(regions) && runs == old(runs)
      ensures phys == 0 <==> FirstFree(old(pmm.used), 0) == |old(pmm.used)|
      ensures phys != 0 ==> phys == Addr(FirstFree(old(pmm.used), 0))
      ensures phys == 0 ==> handed == old(handed)
      ensures phys != 0 ==> FrameOf(phys) !in old(handed) && handed == old(handed) + {FrameOf(phys)}
    {
      hide BooksOk, HeapOk, Owned, InReach, Sound, IsFree, IsLive, TotalFrames, LiveFrames, BitmapFrameCount, Shows;
      hide FirstFree, CountFree;
      ghost var was := Ledger();
      ghost var free := pmm.freeFrames;
      FoundFree(pmm.used);
      phys := pmm.AllocFrame();
      if phys != 0 {
        HandOut(was, FrameOf(phys));
        WriteCounts(was.used, FrameOf(phys), true);
        handed := handed + {FrameOf(phys)};
      }
    }

    method FreeFrame(phys: nat)
      requires Valid() && FrameOf(phys) in handed
      modifies this`handed, pmm, pmm.bitmap
      ensures Valid() && regions == old(regions) && runs == old(runs)
      ensures handed == old(handed) - {FrameOf(phys)}
    {
      hide BooksOk, HeapOk, Owned, InReach, Sound, IsFree, IsLive, TotalFrames, LiveFrames, BitmapFrameCount, Shows;
      hide FirstFree, CountFree;
      ghost var was := Ledger();
      TakeBack(was, FrameOf(phys));
      WriteCounts(pmm.used, FrameOf(phys), false);
      pmm.FreeFrame(phys);
      handed := handed - {FrameOf(phys)};
    }

    /** A block straight from the buddy allocator. */
    method AllocBlock(order: nat) returns (phys: nat)
      requires Valid()
      modifies this`blocks, heap.buddy`lists, heap.buddy`live, heap.mem, heap.buddy.freeList, heap.buddy.freeCount
      ensures Valid()
      ensures var (lists, got) := BuddyLists.Alloc(old(heap.buddy.lists), order);
        && heap.buddy.lists == lists && phys == (if got.Some? then Addr(got.value) else 0)
        && (phys == 0 <==> got.None?) && (phys == 0 ==> blocks == old(blocks))
        && (phys != 0 ==> Block(got.value, order) !in old(blocks) && blocks == old(blocks) + {Block(got.value, order)})
      ensures Undisturbed(old(heap.mem.w), heap.mem.w, heap.pages)
      ensures Kept(old(Ledger()), old(heap.mem.w), heap.mem.w)
      ensures Coalesced(old(heap.buddy.lists)) ==> Coalesced(heap.buddy.lists)
    {
      hide BooksOk, HeapOk, Owned, InReach, Sound, IsFree, IsLive, TotalFrames, LiveFrames, BitmapFrameCount, Shows;
      hide CountFree, BuddyLists.Alloc, Undisturbed, OthersUntouched, Kept, Coalesced, OnlyFreeTouched, Steady;
      ghost var was, s, start := Ledger(), heap.buddy.Now(), heap.mem.w;
      phys := heap.buddy.Alloc(order);
      GrowBorrows(start, heap.mem.w, heap.hhdm, heap.pages, heap.slabs, heap.caches[..], s, order);
      UntouchedByBorrow(start, heap.mem.w, heap.mem.w, heap.pages, s, 0);
      OthersKept(was, start, heap.mem.w);
      SteadySum(s, heap.buddy.Now());
      if phys != 0 {
        ghost var k := Block(BuddyLists.Alloc(s.lists, order).1.value, order);
        BlockOut(was, heap.buddy.Now(), k);
        blocks := blocks + {k};
      }
    }

    /** A held block back to the buddy allocator; nothing for an order it does not know. */
    method FreeBlock(phys: nat, order: nat)
      requires Valid()
      requires order <= MAX_ORDER ==> phys % 4096 == 0 && Block(FrameOf(phys), order) in blocks
      modifies this`blocks, heap.buddy`lists, heap.buddy`live, heap.mem, heap.buddy.freeList, heap.buddy.freeCount
      ensures Valid()
      ensures order > MAX_ORDER ==> blocks == old(blocks) && heap.buddy.lists == old(heap.buddy.lists)
      ensures order <= MAX_ORDER ==>
        && heap.buddy.lists == BuddyLists.FreeBlock(old(heap.buddy.lists), FrameOf(phys), order)
        && blocks == old(blocks) - {Block(FrameOf(phys), order)}
      ensures Undisturbed(old(heap.mem.w), heap.mem.w, heap.pages)
      ensures Kept(Ledger(), old(heap.mem.w), heap.mem.w)
      ensures Coalesced(old(heap.buddy.lists)) ==> Coalesced(heap.buddy.lists)
    {
      hide BooksOk, HeapOk, Owned, InReach, Sound, IsFree, IsLive, TotalFrames, LiveFrames, BitmapFrameCount, Shows;
      hide CountFree, BuddyLists.FreeBlock, Undisturbed, Kept, Coalesced, OnlyFreeTouched, Steady;
      ghost var was, s, start := Ledger(), heap.buddy.Now(), heap.mem.w;
      ghost var k := Block(FrameOf(phys), order);
      if order <= MAX_ORDER { HeldIsLive(was, k); }
      heap.buddy.Free(phys, order);
      SteadySum(s, heap.buddy.Now());
      if order <= MAX_ORDER {
        BlockBack(was, heap.buddy.Now(), k);
        BlockReturned(start, heap.mem.w, heap.hhdm, was, heap.buddy.Now(), k, heap.slabs, heap.caches[..]);
        blocks := blocks - {k};
        ReturnKept(Ledger(), start, heap.mem.w);
      } else {
        NothingDisturbed(start, heap.pages);
        NothingMissing(Ledger(), start);
      }
    }

    method KMalloc(size: nat) returns (ptr: nat, ghost x: Obj)
      requires Valid() && Terminates(size)
      modifies heap`pages, heap`slabs, heap.caches, heap.buddy`lists, heap.buddy`live, heap.mem,
               heap.buddy.freeList, heap.buddy.freeCount
      ensures Valid()
      ensures ptr != 0 ==> Appears(old(heap.pages), heap.pages, x) && ptr == heap.hhdm + ObjAddr(x)
      ensures ptr != 0 ==> (size <= ObjBytes(x) <==> !Wraps(size))
      ensures ptr != 0 && size <= 2048 ==> x.Small?
      ensures ptr == 0 ==>
        heap.pages == old(heap.pages) && heap.slabs == old(heap.slabs) && heap.buddy.lists == old(heap.buddy.lists)
      ensures ptr == 0 <==> size == 0 || NoRoom(old(heap.pages), old(heap.slabs), old(heap.buddy.lists), size)
      ensures Undisturbed(old(heap.mem.w), heap.mem.w, old(heap.pages))
      ensures Kept(old(Ledger()), old(heap.mem.w), heap.mem.w)
      ensures Coalesced(old(heap.buddy.lists)) ==> Coalesced(heap.buddy.lists)
    {
      hide BooksOk, HeapOk, Owned, InReach, Sound, IsFree, IsLive, TotalFrames, LiveFrames, BitmapFrameCount, Shows;
      hide CountFree;
      hide Pow2, Appears, Took, NoRoom, LargeOrder, Terminates, Wraps, ClassFor, Undisturbed, Conserved;
      hide OthersUntouched, Coalesced, Kept;
      ghost var was := Ledger();
      ghost var start := heap.mem.w;
      ptr, x := heap.KMalloc(size);
      OthersKept(was, start, heap.mem.w);
      HeapMovesSum(was, heap.buddy.Now(), heap.pages);
    }

    method KFree(ptr: nat, ghost x: Obj)
      requires Valid()
      requires Ours(heap.mem.w, heap.hhdm, ptr) ==> IsLiveObj(heap.pages, x) && ptr == heap.hhdm + ObjAddr(x)
      modifies heap`pages, heap.caches, heap.buddy`lists, heap.buddy`live, heap.mem,
               heap.buddy.freeList, heap.buddy.freeCount
      ensures Valid()
      ensures old(Ours(heap.mem.w, heap.hhdm, ptr)) ==> Appears(heap.pages, old(heap.pages), x)
      ensures x.Small? ==> heap.buddy.lists == old(heap.buddy.lists)
      ensures Undisturbed(old(heap.mem.w), heap.mem.w, heap.pages)
      ensures Kept(old(Ledger()), old(heap.mem.w), heap.mem.w)
      ensures Coalesced(old(heap.buddy.lists)) ==> Coalesced(heap.buddy.lists)
    {
      hide BooksOk, HeapOk, Owned, InReach, Sound, IsFree, IsLive, TotalFrames, LiveFrames, BitmapFrameCount, Shows;
      hide CountFree;
      hide Appears, Ours, Undisturbed, Conserved, BuddyLists.FreeBlock, OthersUntouched, Coalesced, Kept;
      ghost var was := Ledger();
      ghost var start := heap.mem.w;
      heap.KFree(ptr, x);
      OthersKept(was, start, heap.mem.w);
      HeapMovesSum(was, heap.buddy.Now(), heap.pages);
    }

    /** Stores of anyone else: whatever they do outside the allocators' own words. */
    method StoreAll(after: Ram)
      requires Valid() && HeapWordsKept(heap.mem.w, after, heap.pages, heap.buddy.lists)
      modifies heap.mem
      ensures Valid() && heap.mem.w == after
    {
      hide BooksOk, HeapOk, Owned, InReach, Sound, IsFree, IsLive, TotalFrames, LiveFrames, BitmapFrameCount, Shows;
      hide CountFree, Linked, WellFormed, HeapWordsKept;
      ClientStoresAreHarmless(heap.mem.w, after, heap.hhdm, heap.pages, heap.slabs, heap.caches[..], heap.buddy.Now(),
                              heap.buddy.freeList[..], heap.buddy.freeCount[..]);
      heap.mem.w := after;
    }

    /** A caller's own store into an object it holds. */
    method Write(ptr: nat, off: nat, v: int, ghost x: Obj)
      requires Valid() && IsLiveObj(heap.pages, x) && ptr == heap.hhdm + ObjAddr(x)
      requires off % 8 == 0 && off + 8 <= ObjBytes(x)
      modifies heap.mem
      ensures Valid() && heap.mem.w == Store(old(heap.mem.w), ptr - heap.hhdm + off, v)
      ensures Kept(Ledger(), old(heap.mem.w), heap.mem.w)
    {
      hide BooksOk, HeapOk, Owned, InReach, Sound, IsFree, IsLive, TotalFrames, LiveFrames, BitmapFrameCount, Shows;
      hide CountFree, Linked, WellFormed, Kept, IsLiveObj, ObjAddr, ObjBytes, InLive, HeapWordsKept;
      WordIsLive(heap.pages, x, off);
      ObjectStore(Ledger(), heap.mem.w, ptr - heap.hhdm + off, v);
      StoreAll(Store(heap.mem.w, ptr - heap.hhdm + off, v));
    }
  }

  lemma SteadySum(s: State, t: State)
    requires Steady(s, t)
    ensures TotalFrames(s.lists) + LiveFrames(s.live) == TotalFrames(t.lists) + LiveFrames(t.live)
    ensures Coalesced(s.lists) ==> Coalesced(t.lists)
  {
  }

  lemma NothingMissing(b: Books, w: Ram)
    ensures Kept(b, w, w)
  {
  }

  lemma LiveByteIsHeapFrame(pages: Pages, lists: Lists, a: nat)
    requires InLive(pages, a)
    ensures HeapFrame(pages, lists, FrameOf(a))
  {
    var x :| IsLiveObj(pages, x) && Inside(x, a);
    ObjInBlock(pages, x, a);
  }

  /** A store inside an object leaves the allocators' own words and everything that is set aside. */
  lemma ObjectStore(b: Books, w: Ram, a: nat, v: int)
    requires BooksOk(b) && InLive(b.pages, a)
    ensures HeapWordsKept(w, Store(w, a, v), b.pages, b.s.lists) && Kept(b, w, Store(w, a, v))
  {
    hide BooksOk, Aside, InLive, HeapFrame;
    LiveByteIsHeapFrame(b.pages, b.s.lists, a);
    AsideIffNoHeapFrame(b, FrameOf(a));
  }

  lemma HeldIsLive(b: Books, k: Block)
    requires BooksOk(b) && k in b.blocks
    ensures k in b.s.live
  {
  }

  /** A held block that becomes free again leaves the heap as it is. */
  lemma BlockReturned(w: Ram, after: Ram, hhdm: nat, b: Books, t: State, k: Block, slabs: seq<seq<nat>>,
                      caches: seq<Cache>)
    requires BooksOk(b) && BooksOk(b.(s := t, blocks := b.blocks - {k})) && k in b.blocks
    requires HeapOk(w, hhdm, b.pages, slabs, caches) && InReach(hhdm, b.s) && Steady(b.s, t)
    requires OnlyFreeTouched(w, after, t.lists)
    ensures HeapOk(after, hhdm, b.pages, slabs, caches) && Owned(b.pages, t.live) && InReach(hhdm, t)
    ensures Undisturbed(w, after, b.pages)
  {
    FreeWritesAreHarmless(w, after, hhdm, b.pages, t);
    HeapStays(w, after, hhdm, b.pages, slabs, caches);
  }

  lemma HeapMovesSum(b: Books, s: State, pages: Pages)
    requires BooksOk(b) && Sound(s) && Owned(pages, s.live) && Conserved(b.pages, b.s, pages, s)
    ensures BooksOk(b.(s := s, pages := pages))
    ensures TotalFrames(s.lists) + LiveFrames(s.live) == TotalFrames(b.s.lists) + LiveFrames(b.s.live)
    ensures Coalesced(b.s.lists) ==> Coalesced(s.lists)
  {
    HeapMoves(b, s, pages);
  }

  /** Page tables built before the buddy allocator exists take their frames one by one. */
  method TakeTables(pmm: Pmm, regions: seq<Entry>, tables: nat) returns (ghost handed: set<nat>)
    requires pmm.Valid() && Accounted(Books(regions, pmm.used, [], {}, State([], {}), {}, map[]))
    requires pmm.usableFrames == pmm.freeFrames + BitmapFrameCount(regions)
    modifies pmm, pmm.bitmap
    ensures pmm.Valid() && pmm.bitmap == old(pmm.bitmap)
    ensures Accounted(Books(regions, pmm.used, [], handed, State([], {}), {}, map[]))
    ensures pmm.usableFrames == pmm.freeFrames + BitmapFrameCount(regions) + |handed|
    ensures pmm.used == TakeLowest(old(pmm.used), tables)
  {
    hide Accounted, Shows, CountFree, BitmapFrameCount, FirstFree;
    handed := {};
    for i := 0 to tables
      invariant pmm.used == TakeLowest(old(pmm.used), i)
      invariant pmm.Valid() && pmm.bitmap == old(pmm.bitmap)
      invariant Accounted(Books(regions, pmm.used, [], handed, State([], {}), {}, map[]))
      invariant pmm.usableFrames == pmm.freeFrames + BitmapFrameCount(regions) + |handed|
    {
      ghost var used := pmm.used;
      FoundFree(used);
      var phys := pmm.AllocFrame();
      if phys != 0 {
        HandOutEarly(Books(regions, used, [], handed, State([], {}), {}, map[]), FrameOf(phys));
        WriteCounts(used, FrameOf(phys), true);
        handed := handed + {FrameOf(phys)};
      }
    }
  }

  lemma PmmCounts(pmm: Pmm)
    requires pmm.Valid()
    ensures |pmm.used| == pmm.totalFrames && pmm.freeFrames == CountFree(pmm.used)
  {
  }

  /** Boot: bitmap from the memory map, `tables` frames for page tables, everything but `reserve` frames
      to the buddy allocator, an empty heap on top. No stack when no region can hold the bitmap. */
  method Boot(regions: seq<Entry>, hhdm: nat, tables: nat, reserve: nat, mem: Memory) returns (stack: Stack?)
    requires MapOk(regions)
    requires hhdm > 0 && hhdm % 4096 == 0 && hhdm + Addr(SpannedFrames(regions)) <= Pow2(64)
    modifies mem
    ensures stack == null <==> FirstFit(regions, BitmapBytes(regions), 0) == |regions|
    ensures stack != null ==>
      && stack.Valid() && fresh(stack.Repr() - {mem})
      && stack.regions == regions && stack.heap.pages == map[]
      && var before := TakeLowest(TrueMap(regions), tables);
         var now := ClaimWalk(regions, 0, before, Budget(CountFree(before), reserve)).0;
      && stack.pmm.used == now
      && (forall f: nat :: IsFree(stack.heap.buddy.lists, f) <==> Taken(before, now, f))
      && (Coalesced(stack.heap.buddy.lists) <==> NoPairStraddles(regions, before, now))
      && (NoRegionsCut(regions) ==> Coalesced(stack.heap.buddy.lists))
  {
    hide Truthful, Accounted, Claimed, Sound, WellFormed, IsFree, IsLive, Shows, InUsable, MapOk, TotalFrames;
    hide CountFree;
    hide BitmapFrameCount, HoldsBitmap, SpannedFrames, BitmapBytes, FirstFit, LiveFrames, Coalesced, NoPairStraddles;
    hide NoRegionsCut, Pow2, TrueMap, TakeLowest, ClaimWalk, OnlyFreeTouched;
    hide InReach;
    hide FirstFree, BooksOk, HeapOk, SeedAll, Linked, Spans, Home, FreeMeans;
    hide Pmm.Valid, Stack.Valid;
    var pmm := new Pmm();
    var ok := pmm.Init(regions);
    if !ok {
      return null;
    }
    PmmCounts(pmm);
    StartBooks(regions, pmm.used, State([], {}));
    OneTrueMap(regions, pmm.used);
    ghost var handed := TakeTables(pmm, regions, tables);
    PmmCounts(pmm);
    stack := StackUp(pmm, regions, hhdm, reserve, mem, handed);
  }

  /** The part of the boot that runs once page tables exist: buddy allocator, then heap. */
  method StackUp(pmm: Pmm, regions: seq<Entry>, hhdm: nat, reserve: nat, mem: Memory, ghost handed: set<nat>)
    returns (stack: Stack)
    requires pmm.Valid() && Accounted(Books(regions, pmm.used, [], handed, State([], {}), {}, map[]))
    requires pmm.usableFrames == pmm.freeFrames + BitmapFrameCount(regions) + |handed|
    requires hhdm > 0 && hhdm % 4096 == 0 && hhdm + Addr(SpannedFrames(regions)) <= Pow2(64)
    modifies mem, pmm, pmm.bitmap
    ensures stack.Valid() && fresh(stack.Repr() - {mem, pmm, pmm.bitmap})
    ensures stack.regions == regions && stack.heap.pages == map[] && stack.pmm == pmm && pmm.bitmap == old(pmm.bitmap)
    ensures stack.heap.mem == mem && stack.handed == handed && stack.heap.hhdm == hhdm
    ensures OnlyFreeTouched(old(mem.w), mem.w, stack.heap.buddy.lists)
    ensures pmm.used == ClaimWalk(regions, 0, old(pmm.used), Budget(old(pmm.freeFrames), reserve)).0
    ensures forall f: nat :: IsFree(stack.heap.buddy.lists, f) <==> Taken(old(pmm.used), pmm.used, f)
    ensures Coalesced(stack.heap.buddy.lists) <==> NoPairStraddles(regions, old(pmm.used), pmm.used)
    ensures NoRegionsCut(regions) ==> Coalesced(stack.heap.buddy.lists)
  {
    hide Truthful, Accounted, Claimed, Sound, WellFormed, IsFree, IsLive, Shows, InUsable, MapOk, TotalFrames;
    hide CountFree;
    hide BitmapFrameCount, HoldsBitmap, SpannedFrames, BitmapBytes, FirstFit, LiveFrames, Coalesced, NoPairStraddles;
    hide NoRegionsCut, Pow2, TrueMap, TakeLowest, ClaimWalk, OnlyFreeTouched;
    hide InReach;
    hide FirstFree, BooksOk, HeapOk, SeedAll, Linked;
    FreeIsUsable(Books(regions, pmm.used, [], handed, State([], {}), {}, map[]));
    ghost var before := pmm.used;
    var buddy := new Buddy(mem, hhdm);
    ghost var runs, homes := buddy.Init(pmm, regions, hhdm, reserve);
    BootBooks(regions, before, pmm.used, runs, handed, buddy.lists, hhdm);
    var heap := new Slab(buddy);
    stack := new Stack(pmm, heap, regions, runs, handed);
  }

  lemma BootBooks(regions: seq<Entry>, before: seq<bool>, now: seq<bool>, runs: seq<FrameRun>, handed: set<nat>,
                  lists: Lists, hhdm: nat)
    requires Accounted(Books(regions, before, [], handed, State([], {}), {}, map[]))
    requires Claimed(before, now, runs) && Sound(State(lists, {}))
    requires lists == SeedAll(EMPTY, runs)
    requires forall f: nat :: IsFree(lists, f) <==> f < |now| && now[f] && !before[f]
    requires hhdm + Addr(SpannedFrames(regions)) <= Pow2(64)
    ensures BooksOk(Books(regions, now, runs, handed, State(lists, {}), {}, map[]))
    ensures InReach(hhdm, State(lists, {}))
    ensures MapOk(regions) && |now| == |before|
    ensures LiveFrames({}) == 0
  {
    HandOverBooks(regions, before, now, runs, handed, State(lists, {}));
  }

  // ---- a memory map whose entries cut a buddy pair -------------------------------------------------

  /** Three usable entries of one frame each: frame 1 takes the bitmap, frames 2 and 3 are buddies. */
  const TOUCHING := [Entry(4096, 4096, true), Entry(8192, 4096, true), Entry(12288, 4096, true)]

  lemma TouchingMap()
    ensures MapOk(TOUCHING) && SpannedFrames(TOUCHING) == 4
    ensures FirstFit(TOUCHING, BitmapBytes(TOUCHING), 0) == 0
    ensures TrueMap(TOUCHING) == [true, true, false, false]
  {
    assert HighestEnd(TOUCHING) == 16384;
    assert BitmapBytes(TOUCHING) == 1 && BitmapFrameCount(TOUCHING) == 1;
    forall f: nat ensures InUsable(TOUCHING, f) <==> 1 <= f < 4 {
      assert Holds(TOUCHING[0], f) <==> f == 1;
      assert Holds(TOUCHING[1], f) <==> f == 2;
      assert Holds(TOUCHING[2], f) <==> f == 3;
    }
  }

  lemma TouchingClaims()
    ensures CountFree([true, true, false, false]) == 2
    ensures ClaimWalk(TOUCHING, 0, [true, true, false, false], 2).0 == [true, true, true, true]
  {
    var u, v := [true, true, false, false], [true, true, true, false];
    assert u[..3] == [true, true, false] && u[..3][..2] == [true, true] && u[..3][..2][..1] == [true];
    assert CountFree([true]) == 0 && CountFree([true, true]) == 0;
    assert ClaimRegion(u, 1, 2, 2) == ClaimRegion(u, 2, 2, 2) == (u, 2);
    assert u[2 := true] == v && v[3 := true] == [true, true, true, true];
    assert ClaimRegion(u, 2, 3, 2) == ClaimRegion(v, 3, 3, 1) == (v, 1);
    assert ClaimRegion(v, 3, 4, 1) == ClaimRegion(v[3 := true], 4, 4, 0) == (v[3 := true], 0);
    WalkRegion(TOUCHING, 0, u, 2, u, 2);
    WalkRegion(TOUCHING, 1, u, 2, v, 1);
    WalkRegion(TOUCHING, 2, v, 1, v[3 := true], 0);
  }

  lemma TouchingStraddles()
    ensures !NoPairStraddles(TOUCHING, [true, true, false, false], [true, true, true, true])
  {
    SmallBlocks();
    assert RangeOf(TOUCHING[1]) == FrameRun(2, 3) && RangeOf(TOUCHING[2]) == FrameRun(3, 4);
    assert RegionsCut(TOUCHING, 1, 2, 0);
    assert PairTaken([true, true, false, false], [true, true, true, true], 3, 0);
  }

  /** Frames 2 and 3, and no others, are free, and b is one of two free buddies. */
  ghost predicate PairOfTwo(lists: Lists, b: Block) {
    && WellFormed(lists) && Listed(lists, b) && Listed(lists, BuddyOf(b)) && b != BuddyOf(b)
    && forall f: nat :: IsFree(lists, f) <==> 2 <= f < 4
  }

  /** Two free frames in lists that are not coalesced are two blocks, and no larger request can be met. */
  lemma TwoFrames(lists: Lists)
    requires WellFormed(lists) && !Coalesced(lists) && forall f: nat :: IsFree(lists, f) <==> 2 <= f < 4
    ensures AllFree(lists, Block(2, 1)) && forall o :: 1 <= o <= MAX_ORDER ==> BuddyLists.Alloc(lists, o).1.None?
  {
    SmallBlocks();
    var b :| Listed(lists, b) && b.order < MAX_ORDER && Listed(lists, BuddyOf(b));
    BuddyHalves(b);
    assert PairOfTwo(lists, b) && |lists| == MAX_ORDER + 1;
    hide PairOfTwo, WellFormed, AlignedTo, Xor, Pow2;
    forall o | 1 <= o <= MAX_ORDER ensures lists[o] == [] {
      if lists[o] != [] {
        TwoAtLeast(o);
        SingleFrame(lists, b, Block(lists[o][0], o));
      }
    }
    forall o | 1 <= o <= MAX_ORDER ensures BuddyLists.Alloc(lists, o).1.None? {
      assert FirstNonEmpty(lists, o) > MAX_ORDER;
    }
    assert AllFree(lists, Block(2, 1));
  }

  lemma PairBases(lists: Lists, b: Block)
    requires PairOfTwo(lists, b)
    ensures {b.base, BuddyOf(b).base} == {2, 3} && End(b) == b.base + 1 && End(BuddyOf(b)) == BuddyOf(b).base + 1
  {
    hide AlignedTo, Xor, Pow2;
    FreeEnds(lists, b);
    FreeEnds(lists, BuddyOf(b));
    assert Disjoint(b, BuddyOf(b));
  }

  lemma SingleFrame(lists: Lists, b: Block, c: Block)
    requires PairOfTwo(lists, b) && Listed(lists, c)
    ensures Pow2(c.order) < 2
  {
    hide AlignedTo, Xor, Pow2, BuddyOf;
    PairBases(lists, b);
    FreeEnds(lists, c);
    assert c != b ==> Disjoint(c, b);
    assert c != BuddyOf(b) ==> Disjoint(c, BuddyOf(b));
  }

  lemma TwoAtLeast(o: nat)
    requires o >= 1
    ensures Pow2(o) >= 2
  {
  }

  /** The first and last frame of a listed block are free. */
  lemma FreeEnds(lists: Lists, b: Block)
    requires Listed(lists, b)
    ensures IsFree(lists, b.base) && IsFree(lists, End(b) - 1) && End(b) > b.base
  {
    assert Covers(b, b.base) && Covers(b, End(b) - 1);
  }

  lemma TouchingFacts()
    ensures MapOk(TOUCHING) && SpannedFrames(TOUCHING) == 4
    ensures FirstFit(TOUCHING, BitmapBytes(TOUCHING), 0) != |TOUCHING|
    ensures var before := TakeLowest(TrueMap(TOUCHING), 0);
      var now := ClaimWalk(TOUCHING, 0, before, Budget(CountFree(before), 0)).0;
      !NoPairStraddles(TOUCHING, before, now) && forall f: nat :: Taken(before, now, f) <==> 2 <= f < 4
  {
    TouchingMap();
    TouchingClaims();
    TouchingStraddles();
    assert TakeLowest(TrueMap(TOUCHING), 0) == [true, true, false, false];
    hide TrueMap, TakeLowest, ClaimWalk, CountFree, NoPairStraddles, MapOk, SpannedFrames, FirstFit, BitmapBytes;
  }

  /** Booting on that map: frames 2 and 3 are free, and every request for two frames or more is refused. */
  method BootTouching(mem: Memory, hhdm: nat) returns (stack: Stack?)
    requires hhdm > 0 && hhdm % 4096 == 0 && hhdm + 16384 <= Pow2(64)
    modifies mem
    ensures stack != null && stack.Valid()
    ensures !Coalesced(stack.heap.buddy.lists)
    ensures AllFree(stack.heap.buddy.lists, Block(2, 1))
    ensures forall o :: 1 <= o <= MAX_ORDER ==> BuddyLists.Alloc(stack.heap.buddy.lists, o).1.None?
  {
    TouchingFacts();
    hide MapOk, NoPairStraddles, Coalesced, ClaimWalk, TrueMap, SpannedFrames, FirstFit, BitmapBytes, AllFree;
    hide WellFormed;
    hide BuddyLists.Alloc, IsFree, BooksOk, HeapOk, Owned, InReach, IsLive, BitmapFrameCount, TakeLowest, CountFree;
    hide Budget, Taken, TotalFrames, LiveFrames, NoRegionsCut, Linked, Shows;
    stack := Boot(TOUCHING, hhdm, 0, 0, mem);
    ListsAreWellFormed(stack.heap.buddy.Now());
    TwoFrames(stack.heap.buddy.lists);
  }

  lemma ListsAreWellFormed(s: State)
    requires Sound(s)
    ensures WellFormed(s.lists) && |s.lists| == MAX_ORDER + 1
  {
  }
}
