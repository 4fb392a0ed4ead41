/** kmalloc and kfree: size-class caches of one-page slabs over the buddy allocator. */
module SlabAllocator {
  import opened Bits
  import opened PhysicalMemory
  import opened BuddyBlocks
  import opened BuddyLists
  import opened BuddyLinks
  import opened BuddyRuns
  import opened BuddyAllocator
  import opened SlabLayout
  import opened SlabPages
  import opened SlabHeap

  // ---- carving a fresh page ----------------------------------------------------------------

  function DownTo(n: nat): (s: seq<nat>)
    ensures |s| == n
  {
    seq(n, k requires 0 <= k < n => n - 1 - k)
  }

  /** The first i slots of the fresh page f are threaded, last one first; nothing outside f changed. */
  ghost predicate Carving(start: Ram, w: Ram, hhdm: nat, f: nat, c: nat, i: nat) {
    && c < NUM_CLASSES && i <= Slots(c)
    && OnlyPage(start, w, f)
    && Load(w, Addr(f)) == SLAB_MAGIC && Load(w, Addr(f) + 8) == c
    && Load(w, Addr(f) + 32) == Pack(Slots(c), Slots(c))
    && ChainOk(w, hhdm, f, c, DownTo(i))
  }

  /** The header stores of cache_grow. */
  function HeaderWords(w: Ram, f: nat, c: nat, slots: nat): Ram {
    var w1 := Store(w, Addr(f), SLAB_MAGIC);
    var w2 := Store(w1, Addr(f) + 8, c);
    var w3 := Store(w2, Addr(f) + 32, Pack(Low32(Load(w2, Addr(f) + 32)), slots));
    var w4 := Store(w3, Addr(f) + 32, Pack(slots, High32(Load(w3, Addr(f) + 32))));
    Store(w4, Addr(f) + 24, 0)
  }

  lemma CarveStart(w: Ram, after: Ram, hhdm: nat, f: nat, c: nat, slots: nat, size: nat)
    requires c < NUM_CLASSES && size == ClassSize(c) && slots == (4096 - SLAB_DATA) / size
    requires after == HeaderWords(w, f, c, slots)
    ensures slots == Slots(c) && Carving(w, after, hhdm, f, c, 0)
  {
  }

  lemma CarveStep(start: Ram, w: Ram, hhdm: nat, f: nat, c: nat, i: nat, size: nat, slot: nat)
    requires Carving(start, w, hhdm, f, c, i) && i < Slots(c)
    requires size == ClassSize(c) && slot == Addr(f) + SLAB_DATA + i * size
    ensures Carving(start, Store(Store(w, slot, Load(w, Addr(f) + 24)), Addr(f) + 24, hhdm + slot), hhdm, f, c, i + 1)
  {
    hide ChainOk, ClassSize, Slots;
    assert slot == SlotAt(f, c, i);
    PushChain(w, hhdm, f, c, DownTo(i), i);
    DownToNext(i);
    SlotInPage(c, i);
    SlotFrame(f, SlotOff(c, i), ClassSize(c), SlotAt(f, c, i));
  }

  lemma DownToNext(i: nat)
    ensures [i] + DownTo(i) == DownTo(i + 1)
  {
  }

  lemma CarveEnd(start: Ram, w: Ram, hhdm: nat, f: nat, c: nat, next: nat)
    requires c < NUM_CLASSES && Carving(start, w, hhdm, f, c, Slots(c))
    ensures var after := Store(w, Addr(f) + 16, next);
      && OnlyPage(start, after, f) && PageOk(after, hhdm, f, SlabPage(c, DownTo(Slots(c))))
      && Load(after, Addr(f) + 16) == next
  {
    var chain, after := DownTo(Slots(c)), Store(w, Addr(f) + 16, next);
    forall k | 0 <= k < |chain| ensures Load(after, SlotAt(f, c, chain[k])) == Load(w, SlotAt(f, c, chain[k])) {
      SlotInPage(c, chain[k]);
    }
  }

  /** Borrowing a block leaves pages and objects as they were; a fresh frame is not one of the pages. */
  lemma GrowBorrows(w: Ram, after: Ram, hhdm: nat, pages: Pages, slabs: seq<seq<nat>>, caches: seq<Cache>, s: State,
                    order: nat)
    requires HeapOk(w, hhdm, pages, slabs, caches) && Owned(pages, s.live) && Sound(s) && InReach(hhdm, s)
    requires OnlyFreeTouched(w, after, s.lists)
    ensures HeapOk(after, hhdm, pages, slabs, caches) && Undisturbed(w, after, pages)
    ensures InReach(hhdm, Step(s, AllocOp(order)))
    ensures var got := BuddyLists.Alloc(s.lists, order).1;
      && (got.None? ==> BuddyLists.Alloc(s.lists, order).0 == s.lists)
      && (got.Some? ==>
        && order <= MAX_ORDER && IsFree(s.lists, got.value) && got.value !in pages
        && Block(got.value, order) !in s.live
        && Owned(pages, s.live + {Block(got.value, order)}))
  {
    FreeWritesAreHarmless(w, after, hhdm, pages, s);
    HeapStays(w, after, hhdm, pages, slabs, caches);
    ReachKept(hhdm, s, AllocOp(order));
    AllocKeeps(s.lists, order);
    var got := BuddyLists.Alloc(s.lists, order).1;
    if got.Some? {
      assert Covers(Block(got.value, order), got.value);
      TakenIsNew(s, order);
      if got.value in pages { PageIsNotFree(pages, s, got.value); }
    }
  }

  lemma CacheSize(hhdm: nat, pages: Pages, slabs: seq<seq<nat>>, caches: seq<Cache>, w: Ram, c: nat)
    requires HeapOk(w, hhdm, pages, slabs, caches) && c < NUM_CLASSES
    ensures |caches| == |slabs| == NUM_CLASSES
    ensures caches[c].objSize == ClassSize(c) > 0 && caches[c].slabs == HeadPtr(hhdm, slabs[c])
  {
  }

  /** The carved page joins its class, and nothing allocated was touched. */
  lemma GrowDone(w: Ram, after: Ram, hhdm: nat, pages: Pages, slabs: seq<seq<nat>>, caches: seq<Cache>,
                 s: State, f: nat, c: nat, now: seq<Cache>)
    requires HeapOk(w, hhdm, pages, slabs, caches) && Owned(pages, s.live) && Sound(s)
    requires c < NUM_CLASSES && f !in pages && IsFree(s.lists, f) && |caches| == |slabs| == NUM_CLASSES
    requires OnlyPage(w, after, f) && PageOk(after, hhdm, f, SlabPage(c, DownTo(Slots(c))))
    requires Load(after, Addr(f) + 16) == caches[c].slabs
    requires now == caches[c := Cache(ClassSize(c), hhdm + Addr(f), caches[c].slabCount + 1,
                                      caches[c].totalSlots + Slots(c), caches[c].freeSlots + Slots(c))]
    ensures var pages' := pages[f := SlabPage(c, DownTo(Slots(c)))];
      && HeapOk(after, hhdm, pages', slabs[c := [f] + slabs[c]], now)
      && Owned(pages', s.live + {Block(f, 0)})
    ensures Undisturbed(w, after, pages)
  {
    AddSlab(w, after, hhdm, pages, slabs, caches, f, c, DownTo(Slots(c)));
    FreshPageIsHarmless(w, after, pages, s, f);
  }

  lemma TakenIsNotFree(lists: Lists, order: nat)
    requires WellFormed(lists) && BuddyLists.Alloc(lists, order).1.Some?
    ensures !IsFree(BuddyLists.Alloc(lists, order).0, BuddyLists.Alloc(lists, order).1.value)
  {
    AllocKeeps(lists, order);
    var (after, got) := BuddyLists.Alloc(lists, order);
    FitsNotFree(after, Block(got.value, order));
    assert Covers(Block(got.value, order), got.value);
  }

  /** Addresses of all memory the buddy allocator deals in fit in 64 bits behind the direct map. */
  ghost predicate InReach(hhdm: nat, s: State) {
    forall f :: IsFree(s.lists, f) || IsLive(s, f) ==> hhdm + Addr(f) + 4096 <= Pow2(64)
  }

  lemma ReachKept(hhdm: nat, s: State, op: Op)
    requires Sound(s) && Allowed(s, op) && InReach(hhdm, s)
    ensures InReach(hhdm, Step(s, op))
  {
    StepKeeps(s, op);
  }

  /** What kfree makes of a pointer: null is nobody's, and neither is one whose page holds no magic word. */
  ghost predicate Ours(w: Ram, hhdm: nat, ptr: nat) {
    && ptr != 0
    && (4096 <= Pow2(64) && And(ptr, Pow2(64) - 4096) >= hhdm ==>
          var magic := Load(w, And(ptr, Pow2(64) - 4096) - hhdm); magic == SLAB_MAGIC || magic == LARGE_MAGIC)
  }

  lemma PageMaskFits()
    ensures 4096 <= Pow2(64)
  {
    Pow2Monotone(12, 64);
    PageIsPow2();
  }

  class Slab {
    const buddy: Buddy
    const mem: Memory
    const caches: array<Cache>
    var hhdm: nat

    ghost var pages: Pages
    ghost var slabs: seq<seq<nat>>

    ghost function Repr(): set<object> {
      {this, caches} + buddy.Repr()
    }

    ghost predicate Valid()
      reads Repr()
    {
      && buddy.mem == mem && buddy.hhdm == hhdm && hhdm % 4096 == 0
      && caches as object !in buddy.Repr() && caches.Length == NUM_CLASSES
      && buddy.Valid()
      && HeapOk(mem.w, hhdm, pages, slabs, caches[..])
      && Owned(pages, buddy.live)
      && InReach(hhdm, buddy.Now())
    }

    constructor (buddy: Buddy)
      requires buddy.Valid() && buddy.hhdm % 4096 == 0 && InReach(buddy.hhdm, buddy.Now())
      ensures Valid() && this.buddy == buddy && fresh(caches)
      ensures pages == map[] && slabs == seq(NUM_CLASSES, _ => [])
    {
      this.buddy := buddy;
      this.mem := buddy.mem;
      this.hhdm := buddy.hhdm;
      var initial := new Cache[NUM_CLASSES](i requires 0 <= i < NUM_CLASSES => Cache(CLASS_SIZES[i], 0, 0, 0, 0));
      this.caches := initial;
      pages := map[];
      slabs := seq(NUM_CLASSES, _ => []);
      new;
      assert HeapOk(mem.w, hhdm, pages, slabs, caches[..]);
    }

    /** Borrow a page, carve it and put it in front of its class. */
    method CacheGrow(c: nat) returns (s: nat)
      requires Valid() && c < NUM_CLASSES
      modifies this`pages, this`slabs, caches, buddy`lists, buddy`live, mem, buddy.freeList, buddy.freeCount
      ensures Valid() && hhdm == old(hhdm)
      ensures Undisturbed(old(mem.w), mem.w, old(pages))
      ensures s == 0 ==>
        && Alloc(old(buddy.lists), 0).1.None? && pages == old(pages) && slabs == old(slabs)
        && buddy.lists == old(buddy.lists)
      ensures s != 0 ==>
        && Alloc(old(buddy.lists), 0).1.Some?
        && var f := Alloc(old(buddy.lists), 0).1.value;
        && s == Ptr(hhdm, f) && f !in old(pages)
        && pages == old(pages)[f := SlabPage(c, DownTo(Slots(c)))]
        && slabs == old(slabs)[c := [f] + old(slabs)[c]]
        && buddy.lists == Alloc(old(buddy.lists), 0).0
      ensures Conserved(old(pages), old(buddy.Now()), pages, buddy.Now())
      ensures OthersUntouched(old(mem.w), mem.w, old(pages), old(buddy.Now()))
    {
      hide HeapOk, Owned, Undisturbed, OnlyFreeTouched, InReach, Sound, IsFree, IsLive, OnlyPage, Linked, WellFormed;
      hide BuddyLists.Alloc, Slots, ClassSize, Conserved, Steady, OthersUntouched;
      ghost var was, start, old0 := buddy.Now(), mem.w, pages;
      var phys := buddy.Alloc(0);
      GrowBorrows(start, mem.w, hhdm, pages, slabs, caches[..], was, 0);
      ConservedNothing(pages, was);
      if phys == 0 {
        UntouchedByBorrow(start, mem.w, mem.w, pages, was, 0);
        return 0;
      }
      ghost var f, borrowed := BuddyLists.Alloc(was.lists, 0).1.value, mem.w;
      CarvePage(phys, c, was);
      ConservedOnGrow(old0, was, buddy.Now(), f, SlabPage(c, DownTo(Slots(c))));
      UndisturbedTwice(start, borrowed, mem.w, old0);
      UntouchedByBorrow(start, borrowed, mem.w, old0, was, f);
      TakenIsNotFree(was.lists, 0);
      ListsUnharmed(borrowed, mem.w, hhdm, buddy.freeList[..], buddy.freeCount[..], buddy.lists, f);
      s := hhdm + phys;
    }

    /** Header, threaded slots and list link of the fresh page at phys. */
    method CarvePage(phys: nat, c: nat, ghost was: State)
      requires caches.Length == NUM_CLASSES && c < NUM_CLASSES && phys % 4096 == 0
      requires HeapOk(mem.w, hhdm, pages, slabs, caches[..]) && Owned(pages, was.live) && Sound(was)
      requires IsFree(was.lists, FrameOf(phys)) && FrameOf(phys) !in pages
      modifies this`pages, this`slabs, mem, caches
      ensures HeapOk(mem.w, hhdm, pages, slabs, caches[..]) && Owned(pages, was.live + {Block(FrameOf(phys), 0)})
      ensures pages == old(pages)[FrameOf(phys) := SlabPage(c, DownTo(Slots(c)))]
      ensures |old(slabs)| == NUM_CLASSES && slabs == old(slabs)[c := [FrameOf(phys)] + old(slabs)[c]]
      ensures Undisturbed(old(mem.w), mem.w, old(pages)) && OnlyPage(old(mem.w), mem.w, FrameOf(phys))
    {
      hide HeapOk, Owned, Undisturbed, Sound, IsFree, OnlyPage, Carving, PageOk;
      hide Slots, ClassSize, Load, Store, Pack, Low32, High32;
      ghost var f, borrowed := FrameOf(phys), mem.w;
      assert phys == Addr(f);
      CacheSize(hhdm, pages, slabs, caches[..], mem.w, c);
      var slots := (4096 - SLAB_DATA) / caches[c].objSize;
      mem.w := Store(mem.w, phys, SLAB_MAGIC);
      mem.w := Store(mem.w, phys + 8, c);
      mem.w := Store(mem.w, phys + 32, Pack(Low32(Load(mem.w, phys + 32)), slots));
      mem.w := Store(mem.w, phys + 32, Pack(slots, High32(Load(mem.w, phys + 32))));
      mem.w := Store(mem.w, phys + 24, 0);
      CarveStart(borrowed, mem.w, hhdm, f, c, slots, caches[c].objSize);
      for i := 0 to slots
        invariant Carving(borrowed, mem.w, hhdm, f, c, i)
        modifies mem
      {
        var slot := phys + SLAB_DATA + i * caches[c].objSize;
        CarveStep(borrowed, mem.w, hhdm, f, c, i, caches[c].objSize, slot);
        mem.w := Store(mem.w, slot, Load(mem.w, phys + 24));
        mem.w := Store(mem.w, phys + 24, hhdm + slot);
      }
      CarveEnd(borrowed, mem.w, hhdm, f, c, caches[c].slabs);
      mem.w := Store(mem.w, phys + 16, caches[c].slabs);
      caches[c] := Cache(caches[c].objSize, hhdm + phys, caches[c].slabCount + 1,
                         caches[c].totalSlots + slots, caches[c].freeSlots + slots);
      GrowDone(borrowed, mem.w, hhdm, pages, slabs, old(caches[..]), was, f, c, caches[..]);
      pages := pages[f := SlabPage(c, DownTo(Slots(c)))];
      slabs := slabs[c := [f] + slabs[c]];
    }

    /** The first slab of class c with a free slot, or 0. */
    method FindSlab(c: nat) returns (s: nat, ghost f: nat)
      requires Valid() && c < NUM_CLASSES
      ensures Valid() && HeapOk(mem.w, hhdm, pages, slabs, caches[..])
      ensures s == 0 ==> SumFree(pages, slabs[c]) == 0
      ensures s != 0 ==> s == Ptr(hhdm, f) && IsSlab(pages, c, f) && pages[f].chain != []
      ensures s != 0 ==> FirstWithRoom(pages, slabs[c], f)
    {
      hide HeapOk, PageOk, IsFree, IsLive, Sound, InReach, Owned, Linked, WellFormed, SumFree, Low32;
      CacheSize(hhdm, pages, slabs, caches[..], mem.w, c);
      s, f := caches[c].slabs, 0;
      ghost var k := 0;
      NoneSummed(pages, slabs[c]);
      while s != 0
        invariant k <= |slabs[c]| && s == (if k < |slabs[c]| then Ptr(hhdm, slabs[c][k]) else 0)
        invariant SumFree(pages, slabs[c][..k]) == 0
        decreases |slabs[c]| - k
      {
        f := slabs[c][k];
        SlabIsPage(mem.w, hhdm, pages, slabs, caches[..], c, k);
        ChainIsShort(mem.w, hhdm, f, c, pages[f].chain);
        SumFreeNext(pages, slabs[c], k);
        var freeCount := Low32(Load(mem.w, s - hhdm + 32));
        if freeCount != 0 {
          return;
        }
        s := Load(mem.w, s - hhdm + 16);
        k := k + 1;
      }
      assert slabs[c][..k] == slabs[c];
    }

    /** Pop the head of the slab's chain. */
    method PopSlot(c: nat, s: nat, ghost f: nat) returns (slot: nat)
      requires Valid() && c < NUM_CLASSES && s == Ptr(hhdm, f) && IsSlab(pages, c, f) && pages[f].chain != []
      modifies this`pages, mem, caches
      ensures Valid() && hhdm == old(hhdm)
      ensures Undisturbed(old(mem.w), mem.w, old(pages))
      ensures slot == hhdm + ObjAddr(Small(f, c, old(pages)[f].chain[0])) && slot > 0
      ensures pages == old(pages)[f := SlabPage(c, old(pages)[f].chain[1..])]
      ensures Appears(old(pages), pages, Small(f, c, old(pages)[f].chain[0]))
      ensures buddy.Now() == old(buddy.Now()) && Conserved(old(pages), old(buddy.Now()), pages, buddy.Now())
      ensures OthersUntouched(old(mem.w), mem.w, old(pages), old(buddy.Now()))
    {
      hide HeapOk, PageOk, IsFree, IsLive, Sound, InReach, Owned, Linked, WellFormed, Undisturbed, OnlyPage, Appears;
      hide Conserved;
      hide Load, Store, SlotAt, Slots;
      ghost var was, start, full := pages, mem.w, caches[..];
      PopPlan(start, hhdm, pages, slabs, full, buddy.Now(), f, c);
      UntouchedByPage(start, PopWords(start, hhdm, f, SlotAt(f, c, pages[f].chain[0])), pages, buddy.Now(), f);
      slot := Load(mem.w, s - hhdm + 24);
      mem.w := Store(mem.w, s - hhdm + 24, Load(mem.w, slot - hhdm));
      mem.w := Store(mem.w, s - hhdm + 32, Load(mem.w, s - hhdm + 32) - 1);
      caches[c] := caches[c].(freeSlots := caches[c].freeSlots - 1);
      pages := pages[f := SlabPage(c, pages[f].chain[1..])];
      assert caches[..] == full[c := full[c].(freeSlots := full[c].freeSlots - 1)];
      ListsUnharmed(start, mem.w, hhdm, buddy.freeList[..], buddy.freeCount[..], buddy.lists, f);
    }

    /** Requests beyond the largest class: whole pages from the buddy allocator, behind a header. */
    method LargeAlloc(size: nat) returns (ptr: nat, ghost x: Obj)
      requires Valid() && Terminates(size)
      modifies this`pages, buddy`lists, buddy`live, mem, buddy.freeList, buddy.freeCount
      ensures Valid() && hhdm == old(hhdm) && slabs == old(slabs)
      ensures Undisturbed(old(mem.w), mem.w, old(pages))
      ensures var order := LargeOrder(size);
        var (lists, got) := BuddyLists.Alloc(old(buddy.lists), order);
        && buddy.lists == lists
        && (ptr == 0 <==> got.None?)
        && (ptr == 0 ==> pages == old(pages))
        && (ptr != 0 ==>
              && x == Large(got.value, order) && ptr == hhdm + ObjAddr(x) && (size <= ObjBytes(x) <==> !Wraps(size))
              && x.frame !in old(pages) && pages == old(pages)[x.frame := LargePage(order)]
              && Appears(old(pages), pages, x))
      ensures Conserved(old(pages), old(buddy.Now()), pages, buddy.Now())
      ensures OthersUntouched(old(mem.w), mem.w, old(pages), old(buddy.Now()))
    {
      hide HeapOk, Owned, Undisturbed, OnlyFreeTouched, InReach, Sound, IsFree, IsLive, OnlyPage, Linked, WellFormed;
      hide BuddyLists.Alloc, Pow2, Appears, LargeOrder, Terminates, Wraps, Pack, Low32, High32, Load, Store;
      hide Conserved, Steady, OthersUntouched;
      ghost var was, start, old0 := buddy.Now(), mem.w, pages;
      x := Large(0, 0);
      LargeOrderIs(size);
      var order := OrderForBytes((LARGE_DATA + size) % Pow2(64));
      var phys := buddy.Alloc(order);
      GrowBorrows(start, mem.w, hhdm, pages, slabs, caches[..], was, order);
      ConservedNothing(pages, was);
      if phys == 0 {
        UntouchedByBorrow(start, mem.w, mem.w, pages, was, 0);
        return 0, x;
      }
      ghost var f, borrowed := BuddyLists.Alloc(was.lists, order).1.value, mem.w;
      LargeDone(borrowed, hhdm, pages, slabs, caches[..], was, f, order);
      mem.w := Store(mem.w, phys, LARGE_MAGIC);
      mem.w := Store(mem.w, phys + 8, Pack(order, High32(Load(mem.w, phys + 8))));
      pages := pages[f := LargePage(order)];
      ConservedOnGrow(old0, was, buddy.Now(), f, LargePage(order));
      UndisturbedTwice(start, borrowed, mem.w, old0);
      UntouchedByBorrow(start, borrowed, mem.w, old0, was, f);
      TakenIsNotFree(was.lists, order);
      ListsUnharmed(borrowed, mem.w, hhdm, buddy.freeList[..], buddy.freeCount[..], buddy.lists, f);
      LargeRoom(size, order);
      ptr := hhdm + phys + LARGE_DATA;
      x := Large(f, order);
    }

    /** order_for_bytes: shift the page size left until it is large enough. */
    static method OrderForBytes(bytes: nat) returns (o: nat)
      requires bytes <= Pow2(63)
      ensures o == OrderFor(bytes, 0)
    {
      hide Pow2;
      o := 0;
      ShiftFits(0);
      while ShiftedPage(o) < bytes
        invariant o <= 51 && ShiftedPage(o) == 4096 * Pow2(o) && OrderFor(bytes, 0) == OrderFor(bytes, o)
        decreases 51 - o
      {
        LastOrder(bytes, o);
        o := o + 1;
        ShiftFits(o);
      }
    }

    /** The smallest class that fits, or NUM_CLASSES. */
    static method PickClass(size: nat) returns (cls: nat)
      ensures cls == ClassFor(size, 0) && (cls < NUM_CLASSES <==> size <= 2048)
    {
      cls := 0;
      while cls < NUM_CLASSES && size > CLASS_SIZES[cls]
        invariant cls <= NUM_CLASSES && ClassFor(size, 0) == ClassFor(size, cls)
      {
        cls := cls + 1;
      }
    }

    /** At least `size` bytes, or 0. */
    method KMalloc(size: nat) returns (ptr: nat, ghost x: Obj)
      requires Valid() && Terminates(size)
      modifies this`pages, this`slabs, caches, buddy`lists, buddy`live, mem, buddy.freeList, buddy.freeCount
      ensures Valid() && hhdm == old(hhdm)
      ensures Undisturbed(old(mem.w), mem.w, old(pages))
      ensures ptr != 0 ==>
        && Appears(old(pages), pages, x)
        && ptr == hhdm + ObjAddr(x)
        && 0 < size && (size <= ObjBytes(x) <==> !Wraps(size))
        && (size <= 2048 ==> x.Small? && x.cls == ClassFor(size, 0))
        && (size > 2048 ==> x.Large? && x.order == LargeOrder(size))
      ensures ptr != 0 ==> Took(old(pages), old(slabs), old(buddy.lists), size, pages, buddy.lists, x)
      ensures ptr != 0 && x.Small? ==> slabs == SlabsAfter(old(pages), old(slabs), x.cls, x.frame)
      ensures ptr != 0 && x.Large? ==> slabs == old(slabs)
      ensures ptr == 0 ==> pages == old(pages) && slabs == old(slabs) && buddy.lists == old(buddy.lists)
      ensures ptr == 0 <==> size == 0 || NoRoom(old(pages), old(slabs), old(buddy.lists), size)
      ensures Conserved(old(pages), old(buddy.Now()), pages, buddy.Now())
      ensures OthersUntouched(old(mem.w), mem.w, old(pages), old(buddy.Now()))
    {
      assert |slabs| == NUM_CLASSES && |buddy.lists| == MAX_ORDER + 1;
      hide HeapOk, Owned, Undisturbed, InReach, Sound, IsFree, IsLive, OnlyPage, Linked, WellFormed, Appears;
      hide SameObjects;
      hide BuddyLists.Alloc, Pow2, LargeOrder, Terminates, Wraps, SumFree, Slots, SlotAt, Conserved, OthersUntouched;
      hide Took, ClassFor, SlabsAfter;
      x := Large(0, 0);
      NothingDisturbed(mem.w, pages);
      ConservedNothing(pages, buddy.Now());
      UntouchedNothing(mem.w, pages, buddy.Now());
      if size == 0 {
        return 0, x;
      }
      var cls := PickClass(size);
      if cls < NUM_CLASSES {
        SmallSizes(size);
        ptr, x := SmallAlloc(cls, size);
        return;
      }
      ptr, x := LargeAlloc(size);
      if ptr != 0 {
        TookLarge(old(pages), old(slabs), old(buddy.lists), size, pages, buddy.lists, x);
      } else {
        AllocFails(old(buddy.lists), LargeOrder(size));
      }
    }

    /** The first slab of the class with room, or a new page; 0 when there is neither. */
    method SlabWithRoom(c: nat) returns (s: nat, ghost f: nat)
      requires Valid() && c < NUM_CLASSES
      modifies this`pages, this`slabs, caches, buddy`lists, buddy`live, mem, buddy.freeList, buddy.freeCount
      ensures Valid() && hhdm == old(hhdm)
      ensures Undisturbed(old(mem.w), mem.w, old(pages)) && SameObjects(old(pages), pages)
      ensures s != 0 ==> s == Ptr(hhdm, f) && IsSlab(pages, c, f) && pages[f].chain != []
      ensures s != 0 ==> Roomy(old(pages), old(slabs), old(buddy.lists), c, pages, buddy.lists, f)
      ensures s != 0 ==> slabs == SlabsAfter(old(pages), old(slabs), c, f)
      ensures s == 0 ==> pages == old(pages) && slabs == old(slabs) && buddy.lists == old(buddy.lists)
      ensures s == 0 <==> SumFree(old(pages), old(slabs)[c]) == 0 && BuddyLists.Alloc(old(buddy.lists), 0).1.None?
      ensures Conserved(old(pages), old(buddy.Now()), pages, buddy.Now())
      ensures OthersUntouched(old(mem.w), mem.w, old(pages), old(buddy.Now()))
    {
      assert |slabs| == NUM_CLASSES && |buddy.lists| == MAX_ORDER + 1 && HeapOk(mem.w, hhdm, pages, slabs, caches[..]);
      hide HeapOk, Owned, Undisturbed, InReach, Sound, IsFree, IsLive, Linked, WellFormed, SameObjects, Valid;
      hide BuddyLists.Alloc, SumFree, Slots, Conserved, OthersUntouched, Roomy, IsSlab, DownTo, Steady, FirstWithRoom;
      hide SlabsAfter;
      NothingDisturbed(mem.w, pages);
      ConservedNothing(pages, buddy.Now());
      UntouchedNothing(mem.w, pages, buddy.Now());
      SameObjectsStill(pages);
      ghost var was := pages;
      s, f := FindSlab(c);
      if s == 0 {
        s := CacheGrow(c);
        if s != 0 {
          f := BuddyLists.Alloc(old(buddy.lists), 0).1.value;
          GrownHasRoom(was, pages, f, c);
          RoomyGrown(was, old(slabs), old(buddy.lists), c, pages, buddy.lists, f);
        }
      } else {
        FoundHasFree(mem.w, hhdm, pages, slabs, caches[..], c, f);
        RoomyFound(was, slabs, buddy.lists, c, f);
      }
    }

    /** A slot of class c. */
    method SmallAlloc(c: nat, size: nat) returns (ptr: nat, ghost x: Obj)
      requires Valid() && 0 < size <= 2048 && Terminates(size) && !Wraps(size) && c == ClassFor(size, 0) < NUM_CLASSES
      modifies this`pages, this`slabs, caches, buddy`lists, buddy`live, mem, buddy.freeList, buddy.freeCount
      ensures Valid() && hhdm == old(hhdm)
      ensures Undisturbed(old(mem.w), mem.w, old(pages))
      ensures ptr != 0 ==>
        && Appears(old(pages), pages, x)
        && ptr == hhdm + ObjAddr(x) && size <= ObjBytes(x) && x.Small? && x.cls == c
      ensures ptr != 0 ==> Took(old(pages), old(slabs), old(buddy.lists), size, pages, buddy.lists, x)
      ensures slabs == if ptr == 0 then old(slabs) else SlabsAfter(old(pages), old(slabs), c, x.frame)
      ensures ptr == 0 ==> pages == old(pages) && buddy.lists == old(buddy.lists)
      ensures ptr == 0 <==> SumFree(old(pages), old(slabs)[c]) == 0 && BuddyLists.Alloc(old(buddy.lists), 0).1.None?
      ensures Conserved(old(pages), old(buddy.Now()), pages, buddy.Now())
      ensures OthersUntouched(old(mem.w), mem.w, old(pages), old(buddy.Now()))
    {
      assert |slabs| == NUM_CLASSES && |buddy.lists| == MAX_ORDER + 1;
      hide HeapOk, Owned, Undisturbed, InReach, Sound, IsFree, IsLive, OnlyPage, Linked, WellFormed, Appears;
      hide SameObjects;
      hide BuddyLists.Alloc, Pow2, LargeOrder, Terminates, Wraps, SumFree, Slots, SlotAt, Conserved, OthersUntouched;
      hide Took, Roomy, IsLiveObj, ClassFor, SlabsAfter, FirstWithRoom;
      hide ObjBytes, ObjAddr, IsSlab, Ptr;
      ghost var was, start, start0 := pages, mem.w, buddy.Now();
      var s;
      ghost var f;
      s, f := SlabWithRoom(c);
      if s == 0 {
        return 0, Large(0, 0);
      }
      ghost var mid, grown, between := mem.w, pages, buddy.Now();
      ptr := PopSlot(c, s, f);
      x := Small(f, c, grown[f].chain[0]);
      SmallDone(was, old(slabs), start0, size, grown, between, pages, buddy.Now(), x, start, mid, mem.w, hhdm);
    }

    /** Give back an object; do nothing for the null pointer or one that leads to no header. */
    method KFree(ptr: nat, ghost x: Obj)
      requires Valid()
      requires Ours(mem.w, hhdm, ptr) ==> IsLiveObj(pages, x) && ptr == hhdm + ObjAddr(x)
      modifies this`pages, caches, buddy`lists, buddy`live, mem, buddy.freeList, buddy.freeCount
      ensures Valid() && hhdm == old(hhdm) && slabs == old(slabs)
      ensures !old(Ours(mem.w, hhdm, ptr)) ==>
        pages == old(pages) && mem.w == old(mem.w) && buddy.lists == old(buddy.lists) && buddy.live == old(buddy.live)
      ensures old(Ours(mem.w, hhdm, ptr)) ==> Appears(pages, old(pages), x)
      ensures Undisturbed(old(mem.w), mem.w, pages)
      ensures old(Ours(mem.w, hhdm, ptr)) && x.Small? ==>
        && pages == old(pages)[x.frame := SlabPage(x.cls, [x.slot] + old(pages)[x.frame].chain)]
        && buddy.lists == old(buddy.lists)
      ensures old(Ours(mem.w, hhdm, ptr)) && x.Large? ==>
        && pages == old(pages) - {x.frame}
        && x.order <= MAX_ORDER && buddy.lists == FreeBlock(old(buddy.lists), x.frame, x.order)
      ensures Conserved(old(pages), old(buddy.Now()), pages, buddy.Now())
      ensures OthersUntouched(old(mem.w), mem.w, old(pages), old(buddy.Now()))
    {
      hide HeapOk, Owned, Undisturbed, InReach, Sound, IsFree, IsLive, OnlyPage, Linked, WellFormed, Appears, PageOk;
      hide BuddyLists.Alloc, FreeBlock, Pow2, And, Slots, SlotOff, Load, Store, OnlyFreeTouched, Low32, IsLiveObj;
      hide Conserved, Steady, OthersUntouched;
      NothingDisturbed(mem.w, pages);
      ConservedNothing(pages, buddy.Now());
      UntouchedNothing(mem.w, pages, buddy.Now());
      if ptr == 0 {
        return;
      }
      ghost var was, start, full := pages, mem.w, caches[..];
      PageMaskFits();
      if Ours(mem.w, hhdm, ptr) { MaskFindsHeader(mem.w, hhdm, pages, slabs, caches[..], buddy.Now(), x); }
      var base := And(ptr, Pow2(64) - 4096);
      var magic := Load(mem.w, base - hhdm);
      if magic == SLAB_MAGIC {
        var c := Load(mem.w, base - hhdm + 8);
        PushPlan(start, hhdm, pages, slabs, full, buddy.Now(), x.frame, x.cls, x.slot);
        UntouchedByPage(start, CountUp(PushSlotWords(start, hhdm, x.frame, SlotAt(x.frame, x.cls, x.slot)), x.frame),
                        pages, buddy.Now(), x.frame);
        mem.w := Store(mem.w, ptr - hhdm, Load(mem.w, base - hhdm + 24));
        mem.w := Store(mem.w, base - hhdm + 24, ptr);
        mem.w := Store(mem.w, base - hhdm + 32, Load(mem.w, base - hhdm + 32) + 1);
        caches[c] := caches[c].(freeSlots := caches[c].freeSlots + 1);
        pages := pages[x.frame := SlabPage(x.cls, [x.slot] + pages[x.frame].chain)];
        assert caches[..] == full[c := full[c].(freeSlots := full[c].freeSlots + 1)];
        ListsUnharmed(start, mem.w, hhdm, buddy.freeList[..], buddy.freeCount[..], buddy.lists, x.frame);
      } else if magic == LARGE_MAGIC {
        var order := Low32(Load(mem.w, base - hhdm + 8));
        ghost var state := buddy.Now();
        DropPlan(start, hhdm, pages, slabs, full, state, x.frame, x.order);
        assert FrameOf(base - hhdm) == x.frame;
        buddy.Free(base - hhdm, order);
        ConservedOnDrop(pages, state, buddy.Now(), x.frame);
        UntouchedByReturn(start, mem.w, pages, state, pages - {x.frame}, buddy.Now());
        pages := pages - {x.frame};
        FreeWritesAreHarmless(start, mem.w, hhdm, pages, buddy.Now());
        HeapStays(start, mem.w, hhdm, pages, slabs, caches[..]);
      }
    }

    /** Size class of a small object; size of the whole block, header included, of a large one. */
    method KMallocUsableSize(ptr: nat, ghost x: Obj) returns (size: nat)
      requires Valid()
      requires Ours(mem.w, hhdm, ptr) ==> IsLiveObj(pages, x) && ptr == hhdm + ObjAddr(x)
      ensures !Ours(mem.w, hhdm, ptr) ==> size == 0
      ensures Ours(mem.w, hhdm, ptr) && x.Small? ==> size == ObjBytes(x)
      ensures Ours(mem.w, hhdm, ptr) && x.Large? ==> size == ObjBytes(x) + LARGE_DATA
    {
      hide HeapOk, Owned, InReach, Sound, IsFree, IsLive, Linked, WellFormed, PageOk;
      hide Pow2, And, Slots, SlotOff, Load, Low32, IsLiveObj;
      size := 0;
      if ptr == 0 {
        return;
      }
      PageMaskFits();
      if Ours(mem.w, hhdm, ptr) { MaskFindsHeader(mem.w, hhdm, pages, slabs, caches[..], buddy.Now(), x); }
      var base := And(ptr, Pow2(64) - 4096);
      var magic := Load(mem.w, base - hhdm);
      if magic == SLAB_MAGIC {
        return caches[Load(mem.w, base - hhdm + 8)].objSize;
      }
      if magic == LARGE_MAGIC {
        return Addr(Pow2(Low32(Load(mem.w, base - hhdm + 8))));
      }
    }
  }

  // ---- facts the methods read off a sound heap ------------------------------------------------

  lemma NoneSummed(pages: Pages, s: seq<nat>)
    ensures SumFree(pages, s[..0]) == 0
  {
  }

  /** The k-th slab of class c is a page in good order, and its link leads to the next. */
  lemma SlabIsPage(w: Ram, hhdm: nat, pages: Pages, slabs: seq<seq<nat>>, caches: seq<Cache>, c: nat, k: nat)
    requires HeapOk(w, hhdm, pages, slabs, caches) && c < NUM_CLASSES && k < |slabs[c]|
    ensures var f := slabs[c][k];
      IsSlab(pages, c, f) && PageOk(w, hhdm, f, pages[f]) && Load(w, Addr(f) + 16) == NextPtr(hhdm, slabs[c], k)
  {
    hide PageOk;
    assert slabs[c][k] in slabs[c];
    assert ChainedSlabs(w, hhdm, slabs[c]);
  }

  lemma SumFreeNext(pages: Pages, s: seq<nat>, k: nat)
    requires k < |s| && s[k] in pages && pages[s[k]].SlabPage?
    ensures SumFree(pages, s[..k + 1]) == SumFree(pages, s[..k]) + |pages[s[k]].chain|
  {
    assert s[..k + 1][..k] == s[..k];
  }

  /** A chain without duplicates is no longer than the page has slots, so its length fits in 32 bits. */
  lemma ChainIsShort(w: Ram, hhdm: nat, f: nat, c: nat, chain: seq<nat>)
    requires PageOk(w, hhdm, f, SlabPage(c, chain))
    ensures |chain| <= Slots(c) && Low32(Load(w, Addr(f) + 32)) == |chain|
  {
    ShortIfDistinct(chain, Slots(c));
    LowOfPack(|chain|, Slots(c));
  }

  lemma LowOfPack(lo: nat, hi: nat)
    requires lo < 0x1_0000_0000
    ensures Low32(Pack(lo, hi)) == lo && High32(Pack(lo, hi)) == hi
  {
  }

  lemma {:induction false} ShortIfDistinct(s: seq<nat>, n: nat)
    requires NoDuplicates(s) && forall k :: 0 <= k < |s| ==> s[k] < n
    ensures |s| <= n
  {
    DistinctFill(s, Below(n));
  }

  function Below(n: nat): (r: set<nat>)
    ensures |r| == n && forall i: nat :: i in r <==> i < n
  {
    if n == 0 then {} else Below(n - 1) + {n - 1}
  }

  lemma {:induction false} DistinctFill(s: seq<nat>, all: set<nat>)
    requires NoDuplicates(s) && forall k :: 0 <= k < |s| ==> s[k] in all
    ensures |s| <= |all|
  {
    if s != [] {
      var n := |s| - 1;
      DistinctFill(s[..n], all - {s[n]});
    }
  }

  /** Everything a pop relies on and establishes, on values. */
  lemma PopPlan(w: Ram, hhdm: nat, pages: Pages, slabs: seq<seq<nat>>, caches: seq<Cache>, s: State, f: nat, c: nat)
    requires HeapOk(w, hhdm, pages, slabs, caches) && Owned(pages, s.live) && Sound(s)
    requires c < NUM_CLASSES && IsSlab(pages, c, f) && pages[f].chain != []
    ensures |caches| == NUM_CLASSES && caches[c].freeSlots > 0
    ensures var chain := pages[f].chain;
      var slot := SlotAt(f, c, chain[0]);
      var after, now := PopWords(w, hhdm, f, slot), pages[f := SlabPage(c, chain[1..])];
      && Load(w, Addr(f) + 24) == hhdm + slot && slot > 0
      && HeapOk(after, hhdm, now, slabs, caches[c := caches[c].(freeSlots := caches[c].freeSlots - 1)])
      && Undisturbed(w, after, pages) && OnlyPage(w, after, f) && !IsFree(s.lists, f)
      && Owned(now, s.live) && Conserved(pages, s, now, s)
      && Appears(pages, now, Small(f, c, chain[0]))
  {
    ConservedOnChain(pages, s, f, c, pages[f].chain[1..]);
    var chain := pages[f].chain;
    var slot := SlotAt(f, c, chain[0]);
    var after := PopWords(w, hhdm, f, slot);
    assert PageOk(w, hhdm, f, pages[f]);
    PopPage(w, hhdm, f, c, chain);
    OwnedHasFree(pages, slabs[c], f);
    SlotInPage(c, chain[0]);
    PopStays(w, hhdm, f, slot);
    assert f in slabs[c];
    assert CacheOk(hhdm, pages, slabs[c], c, caches[c]);
    ChainChange(w, after, hhdm, pages, slabs, caches, f, c, chain[1..], caches[c].freeSlots - 1);
    PopIsHarmless(w, hhdm, pages, s, f, slot);
    PageIsNotFree(pages, s, f);
    PopAppears(pages, f, c, chain);
  }

  lemma PopStays(w: Ram, hhdm: nat, f: nat, slot: nat)
    ensures OnlyPage(w, PopWords(w, hhdm, f, slot), f)
    ensures Load(PopWords(w, hhdm, f, slot), Addr(f) + 16) == Load(w, Addr(f) + 16)
  {
    SlotFrame(f, 24, 16, Addr(f) + 24);
    SlotFrame(f, 24, 16, Addr(f) + 32);
  }

  lemma {:induction false} OwnedHasFree(pages: Pages, s: seq<nat>, f: nat)
    requires f in s && f in pages && pages[f].SlabPage? && pages[f].chain != []
    ensures SumFree(pages, s) >= |pages[f].chain|
  {
    var n := |s| - 1;
    if s[n] != f {
      OwnedHasFree(pages, s[..n], f);
    }
  }

  lemma LargeRoom(size: nat, order: nat)
    requires Terminates(size) && order == LargeOrder(size)
    ensures size <= Addr(Pow2(order)) - LARGE_DATA <==> !Wraps(size)
  {
    LargeFitsIff(size);
  }

  lemma LargeDone(w: Ram, hhdm: nat, pages: Pages, slabs: seq<seq<nat>>, caches: seq<Cache>, s: State, f: nat, o: nat)
    requires HeapOk(w, hhdm, pages, slabs, caches) && Owned(pages, s.live) && Sound(s)
    requires f !in pages && IsFree(s.lists, f) && o <= MAX_ORDER
    ensures var w1 := Store(w, Addr(f), LARGE_MAGIC);
      var after := Store(w1, Addr(f) + 8, Pack(o, High32(Load(w1, Addr(f) + 8))));
      && HeapOk(after, hhdm, pages[f := LargePage(o)], slabs, caches)
      && OnlyPage(w, after, f) && Undisturbed(w, after, pages)
    ensures Owned(pages[f := LargePage(o)], s.live + {Block(f, o)})
    ensures Appears(pages, pages[f := LargePage(o)], Large(f, o))
  {
    var w1 := Store(w, Addr(f), LARGE_MAGIC);
    var after := Store(w1, Addr(f) + 8, Pack(o, High32(Load(w1, Addr(f) + 8))));
    LowOfPack'(o, High32(Load(w1, Addr(f) + 8)));
    SlotFrame(f, 0, 16, Addr(f));
    SlotFrame(f, 0, 16, Addr(f) + 8);
    assert PageOk(after, hhdm, f, LargePage(o));
    AddLarge(w, after, hhdm, pages, slabs, caches, f, o);
    FreshPageIsHarmless(w, after, pages, s, f);
    LargeAppears(pages, f, o);
  }

  lemma LowOfPack'(lo: nat, hi: int)
    requires lo < 0x1_0000_0000
    ensures Low32(Pack(lo, hi)) == lo
  {
  }

  lemma NothingDisturbed(w: Ram, pages: Pages)
    ensures Undisturbed(w, w, pages) && SameObjects(pages, pages)
  {
  }

  /** Every pointer handed out is aligned to 16 bytes. */
  lemma {:induction false} ObjAligned(hhdm: nat, pages: Pages, x: Obj)
    requires IsLiveObj(pages, x) && hhdm % 4096 == 0
    ensures (hhdm + ObjAddr(x)) % 16 == 0
  {
    var k := hhdm / 4096;
    if x.Large? {
      MulMod(256 * k + 256 * x.frame + 1, 16);
    } else {
      SlotInPage(x.cls, x.slot);
      var off := SlotOff(x.cls, x.slot);
      assert hhdm + ObjAddr(x) == (256 * k + 256 * x.frame + off / 16) * 16;
      MulMod(256 * k + 256 * x.frame + off / 16, 16);
    }
  }

  /** Masking a live pointer down to its page finds the header that says what the page is. */
  lemma MaskFindsHeader(w: Ram, hhdm: nat, pages: Pages, slabs: seq<seq<nat>>, caches: seq<Cache>, s: State, x: Obj)
    requires HeapOk(w, hhdm, pages, slabs, caches) && Owned(pages, s.live) && Sound(s) && InReach(hhdm, s)
    requires IsLiveObj(pages, x) && hhdm % 4096 == 0
    ensures 4096 <= Pow2(64)
    ensures And(hhdm + ObjAddr(x), Pow2(64) - 4096) == hhdm + Addr(x.frame)
    ensures x.Small? ==>
      && Load(w, Addr(x.frame)) == SLAB_MAGIC
      && Load(w, Addr(x.frame) + 8) == x.cls < |caches| && caches[x.cls].objSize == ClassSize(x.cls)
    ensures x.Large? ==> Load(w, Addr(x.frame)) == LARGE_MAGIC && Low32(Load(w, Addr(x.frame) + 8)) == x.order
  {
    hide Pow2, And, PageOk, HeapOk;
    HeaderSays(w, hhdm, pages, slabs, caches, x);
    ObjReach(hhdm, pages, s, x);
    PageBase(hhdm, x.frame, ObjAddr(x) - Addr(x.frame));
  }

  /** A live pointer is one of ours. */
  lemma LiveIsOurs(w: Ram, hhdm: nat, pages: Pages, slabs: seq<seq<nat>>, caches: seq<Cache>, s: State, x: Obj)
    requires HeapOk(w, hhdm, pages, slabs, caches) && Owned(pages, s.live) && Sound(s) && InReach(hhdm, s)
    requires IsLiveObj(pages, x) && hhdm % 4096 == 0
    ensures Ours(w, hhdm, hhdm + ObjAddr(x))
  {
    PtrIsNotNull(hhdm, pages, x);
    hide Pow2, And, HeapOk, Owned, Sound, InReach, IsLiveObj, ObjAddr, Load, Slots, Ours;
    MaskFindsHeader(w, hhdm, pages, slabs, caches, s, x);
    OursAt(w, hhdm, hhdm + ObjAddr(x), x.frame);
  }

  lemma PtrIsNotNull(hhdm: nat, pages: Pages, x: Obj)
    requires IsLiveObj(pages, x)
    ensures (x.Small? ==> x.cls < NUM_CLASSES) && hhdm + ObjAddr(x) != 0
  {
    hide Slots;
  }

  lemma OursAt(w: Ram, hhdm: nat, ptr: nat, f: nat)
    requires ptr != 0 && 4096 <= Pow2(64) && And(ptr, Pow2(64) - 4096) == hhdm + Addr(f)
    requires Load(w, Addr(f)) == SLAB_MAGIC || Load(w, Addr(f)) == LARGE_MAGIC
    ensures Ours(w, hhdm, ptr)
  {
    hide Pow2, And, Load, Addr;
  }

  lemma ObjReach(hhdm: nat, pages: Pages, s: State, x: Obj)
    requires Owned(pages, s.live) && Sound(s) && InReach(hhdm, s) && IsLiveObj(pages, x)
    ensures Addr(x.frame) <= ObjAddr(x) < Addr(x.frame) + 4096
    ensures hhdm + ObjAddr(x) < Pow2(64)
  {
    hide Pow2;
    var b := BlockOf(x.frame, pages[x.frame]);
    assert Covers(b, x.frame);
    assert IsLive(s, x.frame);
    if x.Small? { SlotInPage(x.cls, x.slot); }
  }

  lemma HeaderSays(w: Ram, hhdm: nat, pages: Pages, slabs: seq<seq<nat>>, caches: seq<Cache>, x: Obj)
    requires HeapOk(w, hhdm, pages, slabs, caches) && IsLiveObj(pages, x)
    ensures x.Small? ==>
      && Load(w, Addr(x.frame)) == SLAB_MAGIC
      && Load(w, Addr(x.frame) + 8) == x.cls < |caches| && caches[x.cls].objSize == ClassSize(x.cls)
    ensures x.Large? ==> Load(w, Addr(x.frame)) == LARGE_MAGIC && Low32(Load(w, Addr(x.frame) + 8)) == x.order
  {
    assert PageOk(w, hhdm, x.frame, pages[x.frame]);
  }

  lemma PushPlan(w: Ram, hhdm: nat, pages: Pages, slabs: seq<seq<nat>>, caches: seq<Cache>, s: State, f: nat, c: nat,
                 i: nat)
    requires HeapOk(w, hhdm, pages, slabs, caches) && Owned(pages, s.live) && Sound(s)
    requires IsLiveObj(pages, Small(f, c, i))
    ensures |caches| == NUM_CLASSES
    ensures c < NUM_CLASSES && f in pages && pages[f].SlabPage?
    ensures var slot := SlotAt(f, c, i);
      var now := pages[f := SlabPage(c, [i] + pages[f].chain)];
      var after := CountUp(PushSlotWords(w, hhdm, f, slot), f);
      && HeapOk(after, hhdm, now, slabs, caches[c := caches[c].(freeSlots := caches[c].freeSlots + 1)])
      && Undisturbed(w, after, now) && OnlyPage(w, after, f) && !IsFree(s.lists, f)
      && Owned(now, s.live) && Conserved(pages, s, now, s)
      && Appears(now, pages, Small(f, c, i))
  {
    ConservedOnChain(pages, s, f, c, [i] + pages[f].chain);
    var chain := pages[f].chain;
    var slot := SlotAt(f, c, i);
    var after := CountUp(PushSlotWords(w, hhdm, f, slot), f);
    assert PageOk(w, hhdm, f, pages[f]);
    PushPage(w, hhdm, f, c, chain, i);
    SlotInPage(c, i);
    PushStays(w, hhdm, f, c, i);
    ChainChange(w, after, hhdm, pages, slabs, caches, f, c, [i] + chain, caches[c].freeSlots + 1);
    PushIsHarmless(w, hhdm, pages, s, f, c, i);
    PageIsNotFree(pages, s, f);
    PushDisappears(pages, f, c, i);
  }

  lemma PushStays(w: Ram, hhdm: nat, f: nat, c: nat, i: nat)
    requires c < NUM_CLASSES && i < Slots(c)
    ensures var after := CountUp(PushSlotWords(w, hhdm, f, SlotAt(f, c, i)), f);
      OnlyPage(w, after, f) && Load(after, Addr(f) + 16) == Load(w, Addr(f) + 16)
  {
    SlotInPage(c, i);
    SlotFrame(f, SlotOff(c, i), ClassSize(c), SlotAt(f, c, i));
    SlotFrame(f, 24, 16, Addr(f) + 24);
    SlotFrame(f, 24, 16, Addr(f) + 32);
  }

  /** A large block about to be returned: the rest of the heap does not depend on it. */
  lemma DropPlan(w: Ram, hhdm: nat, pages: Pages, slabs: seq<seq<nat>>, caches: seq<Cache>, s: State, f: nat, o: nat)
    requires HeapOk(w, hhdm, pages, slabs, caches) && Owned(pages, s.live) && Sound(s) && InReach(hhdm, s)
    requires IsLiveObj(pages, Large(f, o))
    ensures o <= MAX_ORDER && Block(f, o) in s.live && f in pages && BlockOf(f, pages[f]) == Block(f, o)
    ensures HeapOk(w, hhdm, pages - {f}, slabs, caches)
    ensures Owned(pages - {f}, s.live - {Block(f, o)})
    ensures InReach(hhdm, Step(s, FreeOp(Block(f, o))))
    ensures Appears(pages - {f}, pages, Large(f, o))
  {
    DropLarge(w, hhdm, pages, slabs, caches, f);
    LargeDisappears(pages, f, o);
    assert BlockOf(f, pages[f]) == Block(f, o);
    ReachKept(hhdm, s, FreeOp(Block(f, o)));
  }

  /** kmalloc has nothing to give: every slab of the class is full and no page is free, or no block is large enough. */
  ghost predicate NoRoom(pages: Pages, slabs: seq<seq<nat>>, lists: Lists, size: nat)
    requires |lists| == MAX_ORDER + 1 && |slabs| == NUM_CLASSES && Terminates(size)
  {
    var c := ClassFor(size, 0);
    if c < NUM_CLASSES then SumFree(pages, slabs[c]) == 0 && BuddyLists.Alloc(lists, 0).1.None?
    else BuddyLists.Alloc(lists, LargeOrder(size)).1.None?
  }

  lemma {:induction false} NoneFreeInSlabs(pages: Pages, s: seq<nat>)
    requires forall f :: f in s && f in pages && pages[f].SlabPage? ==> pages[f].chain == []
    ensures SumFree(pages, s) == 0
  {
    if s != [] { NoneFreeInSlabs(pages, s[..|s| - 1]); }
  }

  /** Every slot of every slab of class c is an allocated object. */
  ghost predicate AllSlotsLive(pages: Pages, c: nat)
    requires c < NUM_CLASSES
  {
    forall f, i: nat :: IsSlab(pages, c, f) && i < Slots(c) ==> IsLiveObj(pages, Small(f, c, i))
  }

  lemma {:induction false} FullIff(w: Ram, hhdm: nat, pages: Pages, slabs: seq<seq<nat>>, caches: seq<Cache>, c: nat)
    requires HeapOk(w, hhdm, pages, slabs, caches) && c < NUM_CLASSES
    ensures SumFree(pages, slabs[c]) == 0 <==> AllSlotsLive(pages, c)
  {
    assert PagesOk(w, hhdm, pages) && MembersOk(pages, slabs);
    hide HeapOk, Slots, SumFree, MembersOk, CachesOk, ListsOk;
    if SumFree(pages, slabs[c]) == 0 {
      forall f, i: nat | IsSlab(pages, c, f) && i < Slots(c) ensures IsLiveObj(pages, Small(f, c, i)) {
        if pages[f].chain != [] { FoundHasFree(w, hhdm, pages, slabs, caches, c, f); }
      }
    }
    if AllSlotsLive(pages, c) {
      forall f | f in slabs[c] && f in pages && pages[f].SlabPage? ensures pages[f].chain == [] {
        MemberIsSlab(pages, slabs, c, f);
        if pages[f].chain != [] {
          ChainStart(w, hhdm, pages, c, f);
        }
      }
      NoneFreeInSlabs(pages, slabs[c]);
    }
  }

  lemma MemberIsSlab(pages: Pages, slabs: seq<seq<nat>>, c: nat, f: nat)
    requires MembersOk(pages, slabs) && c < NUM_CLASSES && f in slabs[c]
    ensures IsSlab(pages, c, f)
  {
  }

  lemma ChainStart(w: Ram, hhdm: nat, pages: Pages, c: nat, f: nat)
    requires PagesOk(w, hhdm, pages) && c < NUM_CLASSES && IsSlab(pages, c, f) && pages[f].chain != []
    ensures pages[f].chain[0] < Slots(c) && !IsLiveObj(pages, Small(f, c, pages[f].chain[0]))
  {
    hide Slots;
    assert PageOk(w, hhdm, f, pages[f]);
  }

  lemma EmptyIff(lists: Lists)
    requires |lists| == MAX_ORDER + 1
    ensures BuddyLists.Alloc(lists, 0).1.None? <==> forall f: nat :: !IsFree(lists, f)
  {
    var o := FirstNonEmpty(lists, 0);
    if o <= MAX_ORDER {
      var b := Block(lists[o][0], o);
      assert Listed(lists, b) && Covers(b, b.base);
      assert IsFree(lists, b.base);
    }
  }

  /** What kmalloc's refusal means for frames and objects: for a small request, that every slot of the
      class is an allocated object and no frame is free; for a large one, on coalesced lists, that no
      aligned run of its block's size is free, or that it is beyond the largest block. */
  lemma {:induction false} NoRoomMeans(w: Ram, hhdm: nat, pages: Pages, slabs: seq<seq<nat>>, caches: seq<Cache>,
                                       s: State, size: nat)
    requires HeapOk(w, hhdm, pages, slabs, caches) && Sound(s) && Terminates(size)
    requires |slabs| == NUM_CLASSES && |s.lists| == MAX_ORDER + 1
    ensures size <= 2048 ==>
      var c := ClassFor(size, 0);
      c < NUM_CLASSES && (NoRoom(pages, slabs, s.lists, size) <==>
                          AllSlotsLive(pages, c) && forall f: nat :: !IsFree(s.lists, f))
    ensures size > 2048 && Coalesced(s.lists) ==>
      (NoRoom(pages, slabs, s.lists, size) <==> LargeOrder(size) > MAX_ORDER || !RunFree(s.lists, LargeOrder(size)))
  {
    var c := ClassFor(size, 0);
    ClassBound(size);
    hide HeapOk, Slots, SumFree, ClassFor, LargeOrder, Terminates, BuddyLists.Alloc, AllSlotsLive, IsFree, Coalesced;
    hide RunFree;
    EmptyIff(s.lists);
    if c < NUM_CLASSES {
      FullIff(w, hhdm, pages, slabs, caches, c);
    } else if Coalesced(s.lists) {
      LargeRunIff(s.lists, LargeOrder(size));
    }
  }

  lemma ClassBound(size: nat)
    ensures ClassFor(size, 0) < NUM_CLASSES <==> size <= 2048
  {
    if size <= 2048 { assert size <= ClassSize(7); }
  }

  lemma LargeRunIff(lists: Lists, order: nat)
    requires WellFormed(lists) && Coalesced(lists)
    ensures BuddyLists.Alloc(lists, order).1.None? <==> order > MAX_ORDER || !RunFree(lists, order)
  {
    if order <= MAX_ORDER { AllocComplete(lists, order); }
  }

  /** f is a slab on the list, and the slabs before it are full. */
  ghost predicate FirstWithRoom(pages: Pages, s: seq<nat>, f: nat) {
    exists k :: 0 <= k < |s| && s[k] == f && SumFree(pages, s[..k]) == 0
  }

  /** Only one slab with a free slot has none before it. */
  lemma {:induction false} OneFirst(pages: Pages, s: seq<nat>, f: nat, g: nat)
    requires FirstWithRoom(pages, s, f) && f in pages && pages[f].SlabPage? && pages[f].chain != []
    requires FirstWithRoom(pages, s, g) && g in pages && pages[g].SlabPage? && pages[g].chain != []
    ensures f == g
  {
    var i :| 0 <= i < |s| && s[i] == f && SumFree(pages, s[..i]) == 0;
    var j :| 0 <= j < |s| && s[j] == g && SumFree(pages, s[..j]) == 0;
    if i < j { assert s[..j][i] == f; OwnedHasFree(pages, s[..j], f); }
    if j < i { assert s[..i][j] == g; OwnedHasFree(pages, s[..i], g); }
  }

  /** Page f has room: it had before, or it is a page just borrowed because no slab of the class had any. */
  ghost predicate Roomy(was: Pages, slabs: seq<seq<nat>>, lists: Lists, c: nat, now: Pages, after: Lists, f: nat)
    requires |lists| == MAX_ORDER + 1 && |slabs| == NUM_CLASSES && c < NUM_CLASSES
  {
    if SumFree(was, slabs[c]) > 0 then now == was && after == lists && FirstWithRoom(was, slabs[c], f)
    else BuddyLists.Alloc(lists, 0) == (after, Some(f)) && f !in was && now == was[f := SlabPage(c, DownTo(Slots(c)))]
  }

  /** The slab lists once page f of class c has room: a carved page goes to the front. */
  function SlabsAfter(was: Pages, slabs: seq<seq<nat>>, c: nat, f: nat): seq<seq<nat>> {
    if c < |slabs| && SumFree(was, slabs[c]) == 0 then slabs[c := [f] + slabs[c]] else slabs
  }

  lemma RoomyFound(pages: Pages, slabs: seq<seq<nat>>, lists: Lists, c: nat, f: nat)
    requires |lists| == MAX_ORDER + 1 && |slabs| == NUM_CLASSES && c < NUM_CLASSES && SumFree(pages, slabs[c]) > 0
    requires FirstWithRoom(pages, slabs[c], f)
    ensures Roomy(pages, slabs, lists, c, pages, lists, f) && SlabsAfter(pages, slabs, c, f) == slabs
  {
  }

  lemma RoomyGrown(was: Pages, slabs: seq<seq<nat>>, lists: Lists, c: nat, now: Pages, after: Lists, f: nat)
    requires |lists| == MAX_ORDER + 1 && |slabs| == NUM_CLASSES && c < NUM_CLASSES && SumFree(was, slabs[c]) == 0
    requires BuddyLists.Alloc(lists, 0).0 == after && BuddyLists.Alloc(lists, 0).1 == Some(f)
    requires f !in was && now == was[f := SlabPage(c, DownTo(Slots(c)))]
    ensures Roomy(was, slabs, lists, c, now, after, f) && SlabsAfter(was, slabs, c, f) == slabs[c := [f] + slabs[c]]
  {
  }

  lemma SameObjectsStill(pages: Pages)
    ensures SameObjects(pages, pages)
  {
  }

  /** All that a successful kmalloc changes: a large object is one buddy block; a small one is the head of
      the chain of the first slab that has room, or of a page just carved when none has. */
  ghost predicate Took(was: Pages, slabs: seq<seq<nat>>, lists: Lists, size: nat, now: Pages, after: Lists, x: Obj)
    requires |lists| == MAX_ORDER + 1 && |slabs| == NUM_CLASSES && Terminates(size)
  {
    match x
    case Large(f, o) =>
      && size > 2048 && o == LargeOrder(size) && BuddyLists.Alloc(lists, o) == (after, Some(f))
      && f !in was && now == was[f := LargePage(o)]
    case Small(f, c, i) =>
      && size <= 2048 && c == ClassFor(size, 0) < NUM_CLASSES
      && if SumFree(was, slabs[c]) > 0
         then IsSlab(was, c, f) && was[f].chain != [] && i == was[f].chain[0] && FirstWithRoom(was, slabs[c], f)
              && now == was[f := SlabPage(c, was[f].chain[1..])] && after == lists
         else BuddyLists.Alloc(lists, 0) == (after, Some(f)) && f !in was && IsSlab(now, c, f)
              && [i] + now[f].chain == DownTo(Slots(c)) && now == was[f := now[f]]
  }

  /** kmalloc has no choice: what it hands out, and what the heap is like afterwards, follow from the heap
      before and the size. */
  lemma {:induction false} TookIsUnique(was: Pages, slabs: seq<seq<nat>>, lists: Lists, size: nat, now: Pages,
                                        after: Lists, x: Obj, other: Pages, left: Lists, y: Obj)
    requires |lists| == MAX_ORDER + 1 && |slabs| == NUM_CLASSES && Terminates(size)
    requires Took(was, slabs, lists, size, now, after, x) && Took(was, slabs, lists, size, other, left, y)
    ensures x == y && now == other && after == left
  {
    hide SumFree, BuddyLists.Alloc, Slots, Pow2, ClassFor, LargeOrder, Terminates, Wraps, FirstWithRoom;
    if x.Small? && SumFree(was, slabs[x.cls]) > 0 {
      OneFirst(was, slabs[x.cls], x.frame, y.frame);
    } else if x.Small? {
      SameTail(x.slot, now[x.frame].chain, y.slot, other[y.frame].chain);
    }
  }

  lemma SameTail(i: nat, s: seq<nat>, j: nat, t: seq<nat>)
    requires [i] + s == [j] + t
    ensures i == j && s == t
  {
    assert s == ([i] + s)[1..] && t == ([j] + t)[1..];
    assert i == ([i] + s)[0] && j == ([j] + t)[0];
  }

  /** The object is as small as it can be: a slot of the least power of two from 16 on that holds the
      request, or, for more than 2048 bytes, the smallest block that holds it behind the header. */
  lemma {:induction false} TookFits(was: Pages, slabs: seq<seq<nat>>, lists: Lists, size: nat, now: Pages, after: Lists,
                                    x: Obj)
    requires |lists| == MAX_ORDER + 1 && |slabs| == NUM_CLASSES && Terminates(size) && size > 0
    requires Took(was, slabs, lists, size, now, after, x)
    ensures x.Small? <==> size <= 2048
    ensures x.Small? ==>
      && (exists k :: k >= 4 && ObjBytes(x) == Pow2(k) && size <= Pow2(k) && (k > 4 ==> Pow2(k - 1) < size))
      && (forall c :: 0 <= c < NUM_CLASSES && size <= ClassSize(c) ==> ObjBytes(x) <= ClassSize(c))
      && (size > 16 ==> ObjBytes(x) < 2 * size)
    ensures x.Large? && !Wraps(size) ==>
      forall o: nat :: size <= 4096 * Pow2(o) - LARGE_DATA <==> x.order <= o
  {
    hide SumFree, BuddyLists.Alloc, Slots, Pow2, ClassFor, LargeOrder, Terminates, Wraps, FirstWithRoom, ClassSize;
    if x.Small? {
      var k := ClassFits(size);
      forall c | 0 <= c < NUM_CLASSES && size <= ClassSize(c) ensures ObjBytes(x) <= ClassSize(c) {
        ClassIsLeast(size, c);
      }
      ClassIsLeast(size, x.cls);
    } else if !Wraps(size) {
      forall o: nat ensures size <= 4096 * Pow2(o) - LARGE_DATA <==> x.order <= o {
        LargeIsLeast(size, o);
      }
    }
  }

  /** A page just carved gives its last slot, and keeps the others from the last to the first. */
  lemma FreshPage(was: Pages, slabs: seq<seq<nat>>, lists: Lists, size: nat, now: Pages, after: Lists, x: Obj)
    requires |lists| == MAX_ORDER + 1 && |slabs| == NUM_CLASSES && Terminates(size)
    requires Took(was, slabs, lists, size, now, after, x) && x.Small? && SumFree(was, slabs[x.cls]) == 0
    ensures x.slot + 1 == Slots(x.cls) && |now[x.frame].chain| == x.slot
    ensures forall k :: 0 <= k < x.slot ==> now[x.frame].chain[k] == x.slot - 1 - k
  {
    hide SumFree, BuddyLists.Alloc, Slots, Pow2, ClassFor, LargeOrder, Terminates, Wraps, FirstWithRoom, ClassSize;
    var s := [x.slot] + now[x.frame].chain;
    assert s[0] == x.slot && forall k :: 0 <= k < |now[x.frame].chain| ==> now[x.frame].chain[k] == s[k + 1];
  }

  lemma AllocFails(lists: Lists, order: nat)
    requires |lists| == MAX_ORDER + 1 && BuddyLists.Alloc(lists, order).1.None?
    ensures BuddyLists.Alloc(lists, order).0 == lists
  {
  }

  lemma TookLarge(was: Pages, slabs: seq<seq<nat>>, lists: Lists, size: nat, now: Pages, after: Lists, x: Obj)
    requires |lists| == MAX_ORDER + 1 && |slabs| == NUM_CLASSES && Terminates(size)
    requires x.Large? && size > 2048 && x.order == LargeOrder(size) && x.frame !in was
    requires BuddyLists.Alloc(lists, x.order).0 == after && BuddyLists.Alloc(lists, x.order).1 == Some(x.frame)
    requires now == was[x.frame := LargePage(x.order)]
    ensures Took(was, slabs, lists, size, now, after, x)
  {
    hide BuddyLists.Alloc, Pow2, OrderFor;
  }

  lemma TookSmall(was: Pages, slabs: seq<seq<nat>>, lists: Lists, size: nat, grown: Pages, now: Pages, after: Lists,
                  x: Obj)
    requires |lists| == MAX_ORDER + 1 && |slabs| == NUM_CLASSES && size <= 2048 && Terminates(size)
    requires x.Small? && x.cls == ClassFor(size, 0) < NUM_CLASSES && IsSlab(grown, x.cls, x.frame)
    requires grown[x.frame].chain != [] && x.slot == grown[x.frame].chain[0]
    requires now == grown[x.frame := SlabPage(x.cls, grown[x.frame].chain[1..])]
    requires Roomy(was, slabs, lists, x.cls, grown, after, x.frame)
    ensures Took(was, slabs, lists, size, now, after, x)
  {
    hide SumFree, BuddyLists.Alloc, Slots, Pow2, ClassFor;
    assert [x.slot] + grown[x.frame].chain[1..] == grown[x.frame].chain;
  }

  /** Room found, then a slot popped: all that the caller is promised. */
  lemma SmallDone(was: Pages, slabs: seq<seq<nat>>, s: State, size: nat, grown: Pages, t: State, now: Pages, u: State,
                  x: Obj, w: Ram, mid: Ram, after: Ram, hhdm: nat)
    requires |s.lists| == MAX_ORDER + 1 && |slabs| == NUM_CLASSES && size <= 2048 && Terminates(size)
    requires x.Small? && x.cls == ClassFor(size, 0) < NUM_CLASSES && IsSlab(grown, x.cls, x.frame) && hhdm % 4096 == 0
    requires grown[x.frame].chain != [] && x.slot == grown[x.frame].chain[0]
    requires now == grown[x.frame := SlabPage(x.cls, grown[x.frame].chain[1..])]
    requires Roomy(was, slabs, s.lists, x.cls, grown, t.lists, x.frame) && u == t
    requires SameObjects(was, grown) && Appears(grown, now, x)
    requires Undisturbed(w, mid, was) && Undisturbed(mid, after, grown)
    requires Conserved(was, s, grown, t) && Conserved(grown, t, now, u)
    requires OthersUntouched(w, mid, was, s) && OthersUntouched(mid, after, grown, t)
    ensures Took(was, slabs, s.lists, size, now, u.lists, x) && Appears(was, now, x) && Undisturbed(w, after, was)
    ensures Conserved(was, s, now, u) && OthersUntouched(w, after, was, s) && size <= ObjBytes(x)
  {
    hide Undisturbed, Appears, SameObjects, Conserved, OthersUntouched, Took, Roomy, BuddyLists.Alloc, Pow2, Slots;
    hide SlotAt, SumFree;
    TookSmall(was, slabs, s.lists, size, grown, now, u.lists, x);
    GrowThenPop(was, grown, now, x, w, mid, after);
    ConservedTwice(was, s, grown, t, now, u);
    UntouchedTwice(w, mid, after, was, s, grown, t);
  }

  /** kfree right after kmalloc. A large block merges back, so the free blocks are the ones from before; a
      slot goes back to the head of its chain; only a page borrowed for the slot is kept. */
  lemma {:induction false} FreeUndoesMalloc(was: Pages, slabs: seq<seq<nat>>, lists: Lists, size: nat, now: Pages,
                                            after: Lists, x: Obj, end: Pages, left: Lists)
    requires WellFormed(lists) && Coalesced(lists) && |slabs| == NUM_CLASSES && Terminates(size)
    requires Took(was, slabs, lists, size, now, after, x)
    requires x.Small? ==> end == now[x.frame := SlabPage(x.cls, [x.slot] + now[x.frame].chain)] && left == after
    requires x.Large? ==> x.order <= MAX_ORDER && |after| == MAX_ORDER + 1 &&
                          end == now - {x.frame} && left == FreeBlock(after, x.frame, x.order)
    ensures x.Large? ==> end == was && SameBlocks(left, lists)
    ensures x.Small? && SumFree(was, slabs[x.cls]) > 0 ==> end == was && left == lists
    ensures x.Small? && SumFree(was, slabs[x.cls]) == 0 ==>
      x.frame !in was && end == was[x.frame := SlabPage(x.cls, DownTo(Slots(x.cls)))]
  {
    hide WellFormed, Coalesced, SumFree, Slots, Pow2, LargeOrder, Terminates, Wraps, ClassFor, FreeBlock;
    hide BuddyLists.Alloc;
    if x.Large? {
      FreeUndoesAlloc(lists, x.order);
    } else if SumFree(was, slabs[x.cls]) > 0 {
      assert [x.slot] + was[x.frame].chain[1..] == was[x.frame].chain;
    }
  }

  lemma FoundHasFree(w: Ram, hhdm: nat, pages: Pages, slabs: seq<seq<nat>>, caches: seq<Cache>, c: nat, f: nat)
    requires HeapOk(w, hhdm, pages, slabs, caches) && c < NUM_CLASSES && IsSlab(pages, c, f) && pages[f].chain != []
    ensures SumFree(pages, slabs[c]) > 0
  {
    assert f in slabs[c];
    OwnedHasFree(pages, slabs[c], f);
  }

  lemma GrownHasRoom(was: Pages, now: Pages, f: nat, c: nat)
    requires c < NUM_CLASSES && f !in was && now == was[f := SlabPage(c, DownTo(Slots(c)))]
    ensures IsSlab(now, c, f) && now[f].chain != [] && SameObjects(was, now)
  {
    forall i | 0 <= i < Slots(c) ensures i in DownTo(Slots(c)) {
      assert DownTo(Slots(c))[Slots(c) - 1 - i] == i;
    }
    GrowKeepsObjects(was, f, c, DownTo(Slots(c)));
  }

  lemma GrowThenPop(was: Pages, grown: Pages, now: Pages, x: Obj, w: Ram, mid: Ram, after: Ram)
    requires SameObjects(was, grown) && Appears(grown, now, x)
    requires Undisturbed(w, mid, was) && Undisturbed(mid, after, grown)
    ensures Appears(was, now, x) && Undisturbed(w, after, was)
  {
    forall a: nat | InLive(was, a) ensures InLive(grown, a) {
      var y :| IsLiveObj(was, y) && Inside(y, a);
      assert IsLiveObj(grown, y);
    }
  }
}
