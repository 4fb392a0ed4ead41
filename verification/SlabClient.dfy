/** Non-interference between the heap and its callers, in both directions: allocated objects keep what
    their owners stored, and owners who stay inside their objects cannot upset the allocators. */
module SlabClient {
  import opened PhysicalMemory
  import opened SlabLayout
  import opened SlabPages
  import opened SlabHeap
  import opened BuddyBlocks
  import opened BuddyLists
  import opened BuddyLinks
  import opened BuddyRuns
  import opened SlabAllocator
  import opened Bits

  // ---- a caller's store never reaches allocator words ------------------------------------------

  lemma {:induction false} LargeHeaderIsNotLive(pages: Pages, s: State, f: nat, off: nat)
    requires Owned(pages, s.live) && Sound(s) && f in pages && pages[f].LargePage? && off < LARGE_DATA
    ensures !InLive(pages, Addr(f) + off)
  {
    var a := Addr(f) + off;
    if InLive(pages, a) {
      var x :| IsLiveObj(pages, x) && Inside(x, a);
      ObjInBlock(pages, x, a);
      OwnerIsUnique(pages, s, x, a, f);
    }
  }

  /** The link word of a free slot is inside no allocated object. */
  lemma {:induction false} FreeSlotIsNotLive(pages: Pages, s: State, f: nat, c: nat, i: nat)
    requires Owned(pages, s.live) && Sound(s) && c < NUM_CLASSES && IsSlab(pages, c, f)
    requires i in pages[f].chain && i < Slots(c)
    ensures !InLive(pages, SlotAt(f, c, i))
  {
    var a := SlotAt(f, c, i);
    if InLive(pages, a) {
      var x :| IsLiveObj(pages, x) && Inside(x, a);
      SlotInPage(c, i);
      SlotFrame(f, SlotOff(c, i), ClassSize(c), a);
      hide Sound, Owned, Slots;
      ObjInBlock(pages, x, a);
      OwnerIsUnique(pages, s, x, a, f);
      SlotsDiffer(f, c, i, x);
    }
  }

  lemma SlotsDiffer(f: nat, c: nat, i: nat, x: Obj)
    requires c < NUM_CLASSES && i < Slots(c) && x.Small? && x.frame == f && x.cls == c
    requires x.slot < Slots(c) && x.slot != i
    ensures !Inside(x, SlotAt(f, c, i))
  {
    if x.slot < i { SlotsApart(c, x.slot, i); } else { SlotsApart(c, i, x.slot); }
  }

  /** The allocators' own words, those of free blocks and of the heap's pages that are in no allocated
      object, are as before. */
  ghost predicate HeapWordsKept(w: Ram, after: Ram, pages: Pages, lists: Lists) {
    forall a: nat :: HeapFrame(pages, lists, FrameOf(a)) && !InLive(pages, a) ==> Load(after, a) == Load(w, a)
  }

  lemma HeapWord(w: Ram, after: Ram, pages: Pages, lists: Lists, f: nat, a: nat)
    requires HeapWordsKept(w, after, pages, lists) && FrameOf(a) == f && !InLive(pages, a)
    requires f in pages || IsFree(lists, f)
    ensures Load(after, a) == Load(w, a)
  {
    if f in pages { assert Covers(BlockOf(f, pages[f]), f); }
  }

  lemma PageUnharmed(w: Ram, after: Ram, hhdm: nat, f: nat, p: Page)
    requires PageOk(w, hhdm, f, p)
    requires Load(after, Addr(f)) == Load(w, Addr(f)) && Load(after, Addr(f) + 8) == Load(w, Addr(f) + 8)
    requires p.SlabPage? ==>
      Load(after, Addr(f) + 24) == Load(w, Addr(f) + 24) && Load(after, Addr(f) + 32) == Load(w, Addr(f) + 32)
    requires p.SlabPage? ==> forall i :: i in p.chain && i < Slots(p.cls) ==>
      Load(after, SlotAt(f, p.cls, i)) == Load(w, SlotAt(f, p.cls, i))
    ensures PageOk(after, hhdm, f, p)
  {
  }

  lemma HeaderWord(w: Ram, after: Ram, pages: Pages, s: State, f: nat, off: nat)
    requires Owned(pages, s.live) && Sound(s) && f in pages && pages[f].SlabPage? && off < SLAB_DATA
    requires HeapWordsKept(w, after, pages, s.lists)
    ensures Load(after, Addr(f) + off) == Load(w, Addr(f) + off)
  {
    HeaderIsNotLive(pages, s, f, off);
    SlotFrame(f, 0, SLAB_DATA, Addr(f) + off);
    hide Sound, Owned, InLive, HeapWordsKept, IsFree;
    HeapWord(w, after, pages, s.lists, f, Addr(f) + off);
  }

  lemma FreeSlotWord(w: Ram, after: Ram, pages: Pages, s: State, f: nat, c: nat, i: nat)
    requires Owned(pages, s.live) && Sound(s) && c < NUM_CLASSES && IsSlab(pages, c, f)
    requires i in pages[f].chain && i < Slots(c) && HeapWordsKept(w, after, pages, s.lists)
    ensures Load(after, SlotAt(f, c, i)) == Load(w, SlotAt(f, c, i))
  {
    FreeSlotIsNotLive(pages, s, f, c, i);
    SlotInPage(c, i);
    SlotFrame(f, SlotOff(c, i), ClassSize(c), SlotAt(f, c, i));
    hide Sound, Owned, InLive, HeapWordsKept, IsFree, Slots;
    HeapWord(w, after, pages, s.lists, f, SlotAt(f, c, i));
  }

  lemma LargeWord(w: Ram, after: Ram, pages: Pages, s: State, f: nat, off: nat)
    requires Owned(pages, s.live) && Sound(s) && f in pages && pages[f].LargePage? && off < LARGE_DATA
    requires HeapWordsKept(w, after, pages, s.lists)
    ensures Load(after, Addr(f) + off) == Load(w, Addr(f) + off)
  {
    LargeHeaderIsNotLive(pages, s, f, off);
    SlotFrame(f, 0, LARGE_DATA, Addr(f) + off);
    hide Sound, Owned, InLive, HeapWordsKept, IsFree;
    HeapWord(w, after, pages, s.lists, f, Addr(f) + off);
  }

  lemma ClassKnown(w: Ram, hhdm: nat, f: nat, p: Page)
    requires PageOk(w, hhdm, f, p) && p.SlabPage?
    ensures p.cls < NUM_CLASSES
  {
  }

  lemma OtherStoresKeepSlab(w: Ram, after: Ram, hhdm: nat, pages: Pages, s: State, f: nat)
    requires Owned(pages, s.live) && Sound(s) && HeapWordsKept(w, after, pages, s.lists)
    requires f in pages && pages[f].SlabPage? && PageOk(w, hhdm, f, pages[f])
    ensures PageOk(after, hhdm, f, pages[f]) && Load(after, Addr(f) + 16) == Load(w, Addr(f) + 16)
  {
    hide PageOk, Sound, Owned, Slots, SlotAt, HeapWordsKept, Addr, Load;
    var p := pages[f];
    ClassKnown(w, hhdm, f, p);
    HeaderWord(w, after, pages, s, f, 0);
    HeaderWord(w, after, pages, s, f, 8);
    HeaderWord(w, after, pages, s, f, 16);
    HeaderWord(w, after, pages, s, f, 24);
    HeaderWord(w, after, pages, s, f, 32);
    forall i | i in p.chain && i < Slots(p.cls)
      ensures Load(after, SlotAt(f, p.cls, i)) == Load(w, SlotAt(f, p.cls, i))
    {
      FreeSlotWord(w, after, pages, s, f, p.cls, i);
    }
    PageUnharmed(w, after, hhdm, f, p);
  }

  lemma OtherStoresKeepLarge(w: Ram, after: Ram, hhdm: nat, pages: Pages, s: State, f: nat)
    requires Owned(pages, s.live) && Sound(s) && HeapWordsKept(w, after, pages, s.lists)
    requires f in pages && pages[f].LargePage? && PageOk(w, hhdm, f, pages[f])
    ensures PageOk(after, hhdm, f, pages[f])
  {
    hide PageOk, Sound, Owned, HeapWordsKept, Addr, Load;
    LargeWord(w, after, pages, s, f, 0);
    LargeWord(w, after, pages, s, f, 8);
    PageUnharmed(w, after, hhdm, f, pages[f]);
  }

  /** Stores that stay out of the allocators' own words, inside allocated objects or elsewhere, keep the
      heap and the buddy lists exactly as they are. */
  lemma {:induction false} ClientStoresAreHarmless(w: Ram, after: Ram, hhdm: nat, pages: Pages, slabs: seq<seq<nat>>,
                                                   caches: seq<Cache>, s: State, heads: seq<nat>, counts: seq<nat>)
    requires HeapOk(w, hhdm, pages, slabs, caches) && Owned(pages, s.live) && Sound(s)
    requires HeapWordsKept(w, after, pages, s.lists) && Linked(w, hhdm, heads, counts, s.lists)
    ensures HeapOk(after, hhdm, pages, slabs, caches) && Linked(after, hhdm, heads, counts, s.lists)
  {
    hide HeapWordsKept, Owned, Sound, Linked, PageOk, CachesOk, InLive;
    forall f | f in pages
      ensures PageOk(after, hhdm, f, pages[f])
      ensures pages[f].SlabPage? ==> Load(after, Addr(f) + 16) == Load(w, Addr(f) + 16)
    {
      if pages[f].SlabPage? {
        OtherStoresKeepSlab(w, after, hhdm, pages, s, f);
      } else {
        OtherStoresKeepLarge(w, after, hhdm, pages, s, f);
      }
    }
    forall c | 0 <= c < NUM_CLASSES ensures ChainedSlabs(after, hhdm, slabs[c]) {
      forall f | f in slabs[c] ensures Load(after, Addr(f) + 16) == Load(w, Addr(f) + 16) {
        assert IsSlab(pages, c, f);
      }
      ChainedStay(w, after, hhdm, slabs[c]);
    }
    forall f | IsFree(s.lists, f)
      ensures Load(after, Addr(f)) == Load(w, Addr(f)) && Load(after, Addr(f) + 8) == Load(w, Addr(f) + 8)
    {
      FreeWordsStay(w, after, pages, s, f);
    }
    LinkedStays(w, after, hhdm, heads, counts, s.lists);
  }

  lemma FreeWordsStay(w: Ram, after: Ram, pages: Pages, s: State, f: nat)
    requires Owned(pages, s.live) && Sound(s) && HeapWordsKept(w, after, pages, s.lists) && IsFree(s.lists, f)
    ensures Load(after, Addr(f)) == Load(w, Addr(f)) && Load(after, Addr(f) + 8) == Load(w, Addr(f) + 8)
  {
    SlotFrame(f, 0, 16, Addr(f));
    SlotFrame(f, 0, 16, Addr(f) + 8);
    hide IsFree, InLive, Sound, Owned, HeapWordsKept;
    if InLive(pages, Addr(f)) { LiveByteIsNotFree(pages, s, Addr(f)); }
    if InLive(pages, Addr(f) + 8) { LiveByteIsNotFree(pages, s, Addr(f) + 8); }
    HeapWord(w, after, pages, s.lists, f, Addr(f));
    HeapWord(w, after, pages, s.lists, f, Addr(f) + 8);
  }

  /** In particular a single store into an object. */
  lemma {:induction false} ClientStoreIsHarmless(w: Ram, a: nat, v: int, hhdm: nat, pages: Pages, slabs: seq<seq<nat>>,
                                                 caches: seq<Cache>, s: State, heads: seq<nat>, counts: seq<nat>)
    requires HeapOk(w, hhdm, pages, slabs, caches) && Owned(pages, s.live) && Sound(s) && InLive(pages, a)
    requires Linked(w, hhdm, heads, counts, s.lists)
    ensures HeapOk(Store(w, a, v), hhdm, pages, slabs, caches)
    ensures Linked(Store(w, a, v), hhdm, heads, counts, s.lists)
  {
    hide InLive, HeapFrame;
    assert HeapWordsKept(w, Store(w, a, v), pages, s.lists);
    ClientStoresAreHarmless(w, Store(w, a, v), hhdm, pages, slabs, caches, s, heads, counts);
  }

  // ---- a caller and its objects -----------------------------------------------------------------

  /** What one owner knows about one object: the words it stored there and has not overwritten since. */
  datatype Handle = Handle(obj: Obj, words: map<nat, int>)

  ghost predicate Remembers(w: Ram, h: Handle) {
    && (h.obj.Small? ==> h.obj.cls < NUM_CLASSES)
    && forall off :: off in h.words ==>
         off + 8 <= ObjBytes(h.obj) && Load(w, ObjAddr(h.obj) + off) == h.words[off]
  }

  ghost predicate HandlesOk(w: Ram, pages: Pages, handles: map<nat, Handle>) {
    && (forall k :: k in handles ==> IsLiveObj(pages, handles[k].obj) && Remembers(w, handles[k]))
    && (forall j, k :: j in handles && k in handles && j != k ==> handles[j].obj != handles[k].obj)
  }

  lemma {:induction false} HandlesSurvive(w: Ram, after: Ram, was: Pages, now: Pages, handles: map<nat, Handle>)
    requires HandlesOk(w, was, handles)
    requires forall k :: k in handles ==> IsLiveObj(now, handles[k].obj)
    requires Undisturbed(w, after, now) || Undisturbed(w, after, was)
    ensures HandlesOk(after, now, handles)
  {
    hide Undisturbed, Remembers, IsLiveObj;
    forall k | k in handles ensures Remembers(after, handles[k]) {
      RemembersStill(w, after, was, now, handles[k]);
    }
  }

  lemma RemembersStill(w: Ram, after: Ram, was: Pages, now: Pages, h: Handle)
    requires Remembers(w, h) && IsLiveObj(was, h.obj) && IsLiveObj(now, h.obj)
    requires Undisturbed(w, after, now) || Undisturbed(w, after, was)
    ensures Remembers(after, h)
  {
    hide IsLiveObj, ObjAddr, ObjBytes, Load;
    forall off | off in h.words ensures Load(after, ObjAddr(h.obj) + off) == h.words[off] {
      assert Inside(h.obj, ObjAddr(h.obj) + off);
      assert InLive(now, ObjAddr(h.obj) + off) && InLive(was, ObjAddr(h.obj) + off);
    }
  }

  lemma HandleIsLive(w: Ram, pages: Pages, handles: map<nat, Handle>, k: nat)
    requires HandlesOk(w, pages, handles) && k in handles
    ensures var x := handles[k].obj; IsLiveObj(pages, x) && (x.Small? ==> x.cls < NUM_CLASSES)
    ensures Remembers(w, handles[k])
  {
  }

  lemma {:induction false} HandleStore(w: Ram, pages: Pages, s: State, handles: map<nat, Handle>, k: nat,
                                       x: Obj, off: nat, v: int)
    requires HandlesOk(w, pages, handles) && Owned(pages, s.live) && Sound(s)
    requires k in handles && x == handles[k].obj && (x.Small? ==> x.cls < NUM_CLASSES) && off + 8 <= ObjBytes(x)
    ensures HandlesOk(Store(w, ObjAddr(x) + off, v), pages, handles[k := Handle(x, handles[k].words[off := v])])
  {
    hide HandlesOk, Owned, Sound, IsLiveObj, InLive, Inside, Remembers, ObjAddr, ObjBytes, Store;
    HandleIsLive(w, pages, handles, k);
    WordIsLive(pages, x, off);
    OthersRemember(w, pages, s, handles, k, ObjAddr(x) + off, v);
    OwnRemembers(w, handles[k], off, v);
    HandleUpdated(w, Store(w, ObjAddr(x) + off, v), pages, handles, k, handles[k].words[off := v]);
  }

  lemma OthersRemember(w: Ram, pages: Pages, s: State, handles: map<nat, Handle>, k: nat, a: nat, v: int)
    requires HandlesOk(w, pages, handles) && Owned(pages, s.live) && Sound(s)
    requires k in handles && Inside(handles[k].obj, a)
    ensures forall j :: j in handles && j != k ==> Remembers(Store(w, a, v), handles[j])
  {
    hide IsLiveObj, Inside, ObjAddr, ObjBytes, Owned, Sound, Remembers, Store;
    forall j | j in handles && j != k ensures Remembers(Store(w, a, v), handles[j]) {
      OtherRemembers(w, pages, s, handles[k].obj, handles[j], a, v);
    }
  }

  lemma HandleUpdated(w: Ram, after: Ram, pages: Pages, handles: map<nat, Handle>, k: nat, words: map<nat, int>)
    requires HandlesOk(w, pages, handles) && k in handles
    requires forall j :: j in handles && j != k ==> Remembers(after, handles[j])
    requires Remembers(after, Handle(handles[k].obj, words))
    ensures HandlesOk(after, pages, handles[k := Handle(handles[k].obj, words)])
  {
    hide IsLiveObj, Remembers;
  }

  lemma WordIsLive(pages: Pages, x: Obj, off: nat)
    requires IsLiveObj(pages, x) && off + 8 <= ObjBytes(x)
    ensures x.Small? ==> x.cls < NUM_CLASSES
    ensures Inside(x, ObjAddr(x) + off) && InLive(pages, ObjAddr(x) + off)
  {
  }

  lemma OwnRemembers(w: Ram, h: Handle, off: nat, v: int)
    requires Remembers(w, h) && off + 8 <= ObjBytes(h.obj)
    ensures Remembers(Store(w, ObjAddr(h.obj) + off, v), Handle(h.obj, h.words[off := v]))
  {
  }

  lemma OtherRemembers(w: Ram, pages: Pages, s: State, x: Obj, h: Handle, a: nat, v: int)
    requires Owned(pages, s.live) && Sound(s) && IsLiveObj(pages, x) && Inside(x, a)
    requires IsLiveObj(pages, h.obj) && h.obj != x && Remembers(w, h)
    ensures Remembers(Store(w, a, v), h)
  {
    forall o | o in h.words ensures ObjAddr(h.obj) + o != a {
      if ObjAddr(h.obj) + o == a { LiveObjectsDisjoint(pages, s, x, h.obj, a); }
    }
  }

  /** Any number of owners using one heap. Valid() holds after every sequence of these calls, so every
      object keeps the words its owner stored until the owner frees it. */
  class Client {
    const heap: Slab
    ghost var handles: map<nat, Handle>

    ghost predicate Valid()
      reads this, heap.Repr()
    {
      this !in heap.Repr() && heap.Valid() && HandlesOk(heap.mem.w, heap.pages, handles)
    }

    constructor (heap: Slab)
      requires heap.Valid()
      ensures Valid() && this.heap == heap && handles == map[]
    {
      this.heap := heap;
      handles := map[];
    }

    method Allocate(size: nat, ghost key: nat) returns (ptr: nat)
      requires Valid() && Terminates(size) && key !in handles
      modifies this`handles, heap`pages, heap`slabs, heap.caches, heap.buddy`lists, heap.buddy`live, heap.mem,
               heap.buddy.freeList, heap.buddy.freeCount
      ensures Valid()
      ensures ptr == 0 ==> handles == old(handles)
      ensures ptr != 0 ==> exists x: Obj ::
        handles == old(handles)[key := Handle(x, map[])] && IsLiveObj(heap.pages, x)
        && ptr == heap.hhdm + ObjAddr(x) && (size <= ObjBytes(x) <==> !Wraps(size))
    {
      hide HeapOk, Owned, InReach, Sound, IsFree, IsLive, Linked, WellFormed, Undisturbed, NoRoom, Pow2;
      hide ClassFor, LargeOrder, Terminates, Wraps, HandlesOk, Appears, SameObjects;
      ghost var was, start := heap.pages, heap.mem.w;
      ghost var x;
      ptr, x := heap.KMalloc(size);
      if ptr != 0 {
        HandleAppears(start, heap.mem.w, was, heap.pages, handles, key, x);
        handles := handles[key := Handle(x, map[])];
      } else {
        HandlesSame(start, heap.mem.w, was, heap.pages, handles);
      }
    }

    method Release(ptr: nat, ghost key: nat)
      requires Valid() && key in handles && ptr == heap.hhdm + ObjAddr(handles[key].obj)
      modifies this`handles, heap`pages, heap.caches, heap.buddy`lists, heap.buddy`live, heap.mem,
               heap.buddy.freeList, heap.buddy.freeCount
      ensures Valid() && handles == old(handles) - {key}
    {
      hide HeapOk, Owned, InReach, Sound, IsFree, IsLive, Linked, WellFormed, Undisturbed, FreeBlock, Appears, SlotAt;
      hide ObjAddr;
      ghost var was, start := heap.pages, heap.mem.w;
      LivePtrIsNotNull(heap.hhdm, handles[key].obj);
      LiveIsOurs(heap.mem.w, heap.hhdm, heap.pages, heap.slabs, heap.caches[..], heap.buddy.Now(), handles[key].obj);
      heap.KFree(ptr, handles[key].obj);
      HandleDisappears(start, heap.mem.w, was, heap.pages, handles, key);
      handles := handles - {key};
    }

    method Write(ptr: nat, off: nat, v: nat, ghost key: nat)
      requires Valid() && key in handles && ptr == heap.hhdm + ObjAddr(handles[key].obj)
      requires off % 8 == 0 && off + 8 <= ObjBytes(handles[key].obj)
      modifies this`handles, heap.mem
      ensures Valid()
      ensures handles == old(handles)[key := Handle(old(handles)[key].obj, old(handles)[key].words[off := v])]
    {
      hide HeapOk, Owned, InReach, Sound, IsFree, IsLive, Linked, WellFormed, HandlesOk, InLive, Inside, IsLiveObj;
      hide ObjAddr, ObjBytes;
      var a := ptr - heap.hhdm + off;
      HandleIsLive(heap.mem.w, heap.pages, handles, key);
      WordIsLive(heap.pages, handles[key].obj, off);
      HandleStore(heap.mem.w, heap.pages, heap.buddy.Now(), handles, key, handles[key].obj, off, v);
      ClientStoreIsHarmless(heap.mem.w, a, v, heap.hhdm, heap.pages, heap.slabs, heap.caches[..],
                            heap.buddy.Now(), heap.buddy.freeList[..], heap.buddy.freeCount[..]);
      heap.mem.w := Store(heap.mem.w, a, v);
      handles := handles[key := Handle(handles[key].obj, handles[key].words[off := v])];
    }

    method Read(ptr: nat, off: nat, ghost key: nat) returns (v: int)
      requires Valid() && key in handles && ptr == heap.hhdm + ObjAddr(handles[key].obj)
      requires off in handles[key].words
      ensures v == handles[key].words[off]
    {
      hide HeapOk, Owned, InReach, Sound, IsFree, IsLive, Linked, WellFormed, ObjAddr, ObjBytes, HandlesOk;
      HandleSays(heap.mem.w, heap.pages, handles, key, off);
      v := Load(heap.mem.w, ptr - heap.hhdm + off);
    }
  }

  lemma HandleSays(w: Ram, pages: Pages, handles: map<nat, Handle>, key: nat, off: nat)
    requires HandlesOk(w, pages, handles) && key in handles && off in handles[key].words
    ensures handles[key].obj.Small? ==> handles[key].obj.cls < NUM_CLASSES
    ensures Load(w, ObjAddr(handles[key].obj) + off) == handles[key].words[off]
  {
    assert Remembers(w, handles[key]);
  }

  lemma LivePtrIsNotNull(hhdm: nat, x: Obj)
    requires x.Small? ==> x.cls < NUM_CLASSES
    ensures hhdm + ObjAddr(x) != 0
  {
  }

  lemma HandleAppears(w: Ram, after: Ram, was: Pages, now: Pages, handles: map<nat, Handle>, key: nat, x: Obj)
    requires HandlesOk(w, was, handles) && Appears(was, now, x) && Undisturbed(w, after, was)
    ensures IsLiveObj(now, x) && HandlesOk(after, now, handles[key := Handle(x, map[])])
  {
    HandlesSurvive(w, after, was, now, handles);
    assert IsLiveObj(now, x);
  }

  lemma HandlesSame(w: Ram, after: Ram, was: Pages, now: Pages, handles: map<nat, Handle>)
    requires HandlesOk(w, was, handles) && SameObjects(was, now) && Undisturbed(w, after, was)
    ensures HandlesOk(after, now, handles)
  {
    HandlesSurvive(w, after, was, now, handles);
  }

  lemma HandleDisappears(w: Ram, after: Ram, was: Pages, now: Pages, handles: map<nat, Handle>, key: nat)
    requires HandlesOk(w, was, handles) && key in handles && Appears(now, was, handles[key].obj)
    requires Undisturbed(w, after, now)
    ensures HandlesOk(after, now, handles - {key})
  {
    var rest := handles - {key};
    forall k | k in rest ensures IsLiveObj(now, rest[k].obj) {
      assert IsLiveObj(was, handles[k].obj);
    }
    HandlesSurvive(w, after, was, now, rest);
  }
}
