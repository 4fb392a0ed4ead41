/** The whole heap as a value: every borrowed page, the per-class slab lists and the running counters. */
module SlabHeap {
  import opened Bits
  import opened PhysicalMemory
  import opened SlabLayout
  import opened SlabPages
  import opened BuddyBlocks
  import opened BuddyLists
  import opened BuddyLinks
  import opened BuddyRuns

  // ---- structure ---------------------------------------------------------------------------

  ghost predicate PagesOk(w: Ram, hhdm: nat, pages: Pages) {
    forall f :: f in pages ==> PageOk(w, hhdm, f, pages[f])
  }

  predicate IsSlab(pages: Pages, c: nat, f: nat) {
    f in pages && pages[f].SlabPage? && pages[f].cls == c
  }

  /** slabs[c] lists the pages of class c, each once. */
  ghost predicate MembersOk(pages: Pages, slabs: seq<seq<nat>>) {
    && |slabs| == NUM_CLASSES
    && (forall c :: 0 <= c < NUM_CLASSES ==> NoDuplicates(slabs[c]))
    && (forall c, f :: 0 <= c < NUM_CLASSES ==> (f in slabs[c] <==> IsSlab(pages, c, f)))
  }

  /** The `next` words of the slab headers follow one list. */
  ghost predicate ChainedSlabs(w: Ram, hhdm: nat, s: seq<nat>) {
    forall k :: 0 <= k < |s| ==> Load(w, Addr(s[k]) + 16) == NextPtr(hhdm, s, k)
  }

  ghost predicate ListsOk(w: Ram, hhdm: nat, pages: Pages, slabs: seq<seq<nat>>) {
    && MembersOk(pages, slabs)
    && forall c :: 0 <= c < NUM_CLASSES ==> ChainedSlabs(w, hhdm, slabs[c])
  }

  lemma ChainedStay(w: Ram, after: Ram, hhdm: nat, s: seq<nat>)
    requires ChainedSlabs(w, hhdm, s)
    requires forall f :: f in s ==> Load(after, Addr(f) + 16) == Load(w, Addr(f) + 16)
    ensures ChainedSlabs(after, hhdm, s)
  {
    forall k | 0 <= k < |s| ensures Load(after, Addr(s[k]) + 16) == NextPtr(hhdm, s, k) {
      assert s[k] in s;
    }
  }

  lemma ListsStay(w: Ram, after: Ram, hhdm: nat, pages: Pages, slabs: seq<seq<nat>>)
    requires ListsOk(w, hhdm, pages, slabs)
    requires forall f :: f in pages ==> Load(after, Addr(f) + 16) == Load(w, Addr(f) + 16)
    ensures ListsOk(after, hhdm, pages, slabs)
  {
    forall c | 0 <= c < NUM_CLASSES ensures ChainedSlabs(after, hhdm, slabs[c]) {
      forall f | f in slabs[c] ensures f in pages { assert IsSlab(pages, c, f); }
      ChainedStay(w, after, hhdm, slabs[c]);
    }
  }

  /** Free slots of the slab pages in s. */
  function SumFree(pages: Pages, s: seq<nat>): nat {
    if s == [] then 0
    else SumFree(pages, s[..|s| - 1]) +
         (var f := s[|s| - 1]; if f in pages && pages[f].SlabPage? then |pages[f].chain| else 0)
  }

  /** The counters a cache keeps are the sums over its slabs. */
  ghost predicate CacheOk(hhdm: nat, pages: Pages, s: seq<nat>, c: nat, cache: Cache)
    requires c < NUM_CLASSES
  {
    && cache.objSize == ClassSize(c)
    && cache.slabs == HeadPtr(hhdm, s)
    && cache.slabCount == |s|
    && cache.totalSlots == |s| * Slots(c)
    && cache.freeSlots == SumFree(pages, s)
  }

  ghost predicate CachesOk(hhdm: nat, pages: Pages, slabs: seq<seq<nat>>, caches: seq<Cache>) {
    && |slabs| == |caches| == NUM_CLASSES
    && forall c :: 0 <= c < NUM_CLASSES ==> CacheOk(hhdm, pages, slabs[c], c, caches[c])
  }

  ghost predicate HeapOk(w: Ram, hhdm: nat, pages: Pages, slabs: seq<seq<nat>>, caches: seq<Cache>) {
    PagesOk(w, hhdm, pages) && ListsOk(w, hhdm, pages, slabs) && CachesOk(hhdm, pages, slabs, caches)
  }

  function BlockOf(f: nat, p: Page): Block {
    Block(f, if p.SlabPage? then 0 else p.order)
  }

  /** Every page the heap uses is a block it got from the buddy allocator and has not returned. */
  ghost predicate Owned(pages: Pages, live: set<Block>) {
    forall f :: f in pages ==> BlockOf(f, pages[f]) in live
  }

  predicate IsPageBlock(pages: Pages, b: Block) {
    b.base in pages && BlockOf(b.base, pages[b.base]) == b
  }

  /** Handed-out blocks that are not the heap's stay handed out, and no further ones appear. */
  ghost predicate OthersSame(was: Pages, wasLive: set<Block>, now: Pages, nowLive: set<Block>) {
    forall b :: b in nowLive && !IsPageBlock(now, b) <==> b in wasLive && !IsPageBlock(was, b)
  }

  /** Frame f is part of a page or block the heap uses. */
  ghost predicate InPage(pages: Pages, f: nat) {
    exists g :: g in pages && Covers(BlockOf(g, pages[g]), f)
  }

  /** The frames the two allocators may write to: free ones and the heap's own. */
  ghost predicate HeapFrame(pages: Pages, lists: Lists, f: nat) {
    IsFree(lists, f) || InPage(pages, f)
  }

  /** What a heap call does to the books: no frame enters or leaves the buddy allocator, the blocks others
      hold are as before, and so are the frames the heap may write to. */
  ghost predicate Conserved(was: Pages, s: State, now: Pages, t: State) {
    && Steady(s, t) && OthersSame(was, s.live, now, t.live)
    && forall f: nat :: HeapFrame(was, s.lists, f) <==> HeapFrame(now, t.lists, f)
  }

  lemma HeapFrameKept(was: Pages, s: State, now: Pages, t: State, f: nat)
    requires Sound(s) && Sound(t) && Owned(was, s.live) && Owned(now, t.live)
    requires IsFree(s.lists, f) || IsLive(s, f) <==> IsFree(t.lists, f) || IsLive(t, f)
    requires OthersSame(was, s.live, now, t.live) && HeapFrame(was, s.lists, f)
    ensures HeapFrame(now, t.lists, f)
  {
    HeapFrameIsHeld(was, s, f);
    if !IsFree(t.lists, f) {
      hide Sound, Owned, IsFree;
      var b :| b in t.live && Covers(b, f);
      if !IsPageBlock(now, b) {
        assert b in s.live && !IsPageBlock(was, b);
        HeldIsNoHeapFrame(was, s, b, f);
      }
    }
  }

  lemma HeapFrameIsHeld(pages: Pages, s: State, f: nat)
    requires Owned(pages, s.live) && HeapFrame(pages, s.lists, f)
    ensures IsFree(s.lists, f) || IsLive(s, f)
  {
    hide IsFree;
  }

  lemma NotFreeIfLive(s: State, b: Block, f: nat)
    requires Sound(s) && b in s.live && Covers(b, f)
    ensures !IsFree(s.lists, f)
  {
    LiveIsNotFree(s);
  }

  lemma HeapFramesKept(was: Pages, s: State, now: Pages, t: State)
    requires Sound(s) && Sound(t) && Owned(was, s.live) && Owned(now, t.live)
    requires Steady(s, t) && OthersSame(was, s.live, now, t.live)
    ensures Conserved(was, s, now, t)
  {
    hide Sound, Owned, OthersSame, HeapFrame;
    OthersSameBack(was, s, now, t);
    forall f: nat ensures HeapFrame(was, s.lists, f) <==> HeapFrame(now, t.lists, f) {
      if HeapFrame(was, s.lists, f) { HeapFrameKept(was, s, now, t, f); }
      if HeapFrame(now, t.lists, f) { HeapFrameKept(now, t, was, s, f); }
    }
  }

  lemma OthersSameBack(was: Pages, s: State, now: Pages, t: State)
    requires OthersSame(was, s.live, now, t.live)
    ensures OthersSame(now, t.live, was, s.live)
  {
  }

  lemma ConservedNothing(pages: Pages, s: State)
    ensures Conserved(pages, s, pages, s)
  {
  }

  lemma ConservedTwice(was: Pages, s: State, mid: Pages, t: State, now: Pages, u: State)
    requires Conserved(was, s, mid, t) && Conserved(mid, t, now, u)
    ensures Conserved(was, s, now, u)
  {
  }

  lemma ConservedOnGrow(pages: Pages, s: State, t: State, f: nat, p: Page)
    requires Steady(s, t) && t.live == s.live + {BlockOf(f, p)} && BlockOf(f, p) !in s.live && f !in pages
    requires Sound(s) && Sound(t) && Owned(pages, s.live) && Owned(pages[f := p], t.live)
    ensures Conserved(pages, s, pages[f := p], t)
  {
    HeapFramesKept(pages, s, pages[f := p], t);
  }

  lemma ConservedOnChain(pages: Pages, s: State, f: nat, c: nat, chain: seq<nat>)
    requires IsSlab(pages, c, f) && Sound(s) && Owned(pages, s.live)
    ensures Conserved(pages, s, pages[f := SlabPage(c, chain)], s)
  {
    HeapFramesKept(pages, s, pages[f := SlabPage(c, chain)], s);
  }

  lemma DropOthersSame(pages: Pages, live: set<Block>, now: set<Block>, f: nat)
    requires f in pages && now == live - {BlockOf(f, pages[f])}
    ensures OthersSame(pages, live, pages - {f}, now)
  {
  }

  lemma ConservedOnDrop(pages: Pages, s: State, t: State, f: nat)
    requires f in pages && Steady(s, t) && t.live == s.live - {BlockOf(f, pages[f])}
    requires Sound(s) && Sound(t) && Owned(pages, s.live) && Owned(pages - {f}, t.live)
    ensures Conserved(pages, s, pages - {f}, t)
  {
    DropOthersSame(pages, s.live, t.live, f);
    hide Steady, Sound, Owned, OthersSame, HeapFrame;
    HeapFramesKept(pages, s, pages - {f}, t);
  }

  // ---- live objects --------------------------------------------------------------------------

  ghost predicate IsLiveObj(pages: Pages, x: Obj) {
    match x
    case Small(f, c, i) => c < NUM_CLASSES && IsSlab(pages, c, f) && i < Slots(c) && i !in pages[f].chain
    case Large(f, o) => f in pages && pages[f] == LargePage(o) && o <= MAX_ORDER
  }

  function ObjAddr(x: Obj): nat
    requires x.Small? ==> x.cls < NUM_CLASSES
  {
    match x
    case Small(f, c, i) => SlotAt(f, c, i)
    case Large(f, o) => Addr(f) + LARGE_DATA
  }

  function ObjBytes(x: Obj): nat
    requires x.Small? ==> x.cls < NUM_CLASSES
  {
    match x
    case Small(f, c, i) => ClassSize(c)
    case Large(f, o) => Addr(Pow2(o)) - LARGE_DATA
  }

  ghost predicate Inside(x: Obj, a: nat) {
    (x.Small? ==> x.cls < NUM_CLASSES) && ObjAddr(x) <= a < ObjAddr(x) + ObjBytes(x)
  }

  /** Byte a belongs to some allocated object. */
  ghost predicate InLive(pages: Pages, a: nat) {
    exists x :: IsLiveObj(pages, x) && Inside(x, a)
  }

  /** No byte of an object that is allocated according to `pages` differs. */
  ghost predicate Undisturbed(w: Ram, after: Ram, pages: Pages) {
    forall a: nat :: InLive(pages, a) ==> Load(after, a) == Load(w, a)
  }

  /** An object lies inside the block its page came from, behind that page's header. */
  lemma {:induction false} ObjInBlock(pages: Pages, x: Obj, a: nat)
    requires IsLiveObj(pages, x) && Inside(x, a)
    ensures x.frame in pages && Covers(BlockOf(x.frame, pages[x.frame]), FrameOf(a))
    ensures ObjAddr(x) % 16 == 0
    ensures x.Small? ==> FrameOf(a) == x.frame && a >= Addr(x.frame) + SLAB_DATA
    ensures x.Large? ==> a >= Addr(x.frame) + LARGE_DATA
  {
    if x.Small? {
      SlotInPage(x.cls, x.slot);
      SlotFrame(x.frame, SlotOff(x.cls, x.slot), ClassSize(x.cls), a);
    } else {
      LargeFrames(x.frame, Pow2(x.order), a);
    }
  }

  lemma SlotFrame(frame: nat, off: nat, size: nat, a: nat)
    requires off + size <= 4096 && Addr(frame) + off <= a < Addr(frame) + off + size
    ensures FrameOf(a) == frame
    ensures off % 16 == 0 ==> (Addr(frame) + off) % 16 == 0
    ensures Pow2(0) == 1
  {
  }

  lemma LargeFrames(frame: nat, n: nat, a: nat)
    requires Addr(frame) + LARGE_DATA <= a < Addr(frame) + Addr(n)
    ensures frame <= FrameOf(a) < frame + n
    ensures (Addr(frame) + LARGE_DATA) % 16 == 0
  {
    FrameBounds(frame, frame + n, a);
    MulMod(256 * frame + 1, 16);
  }

  lemma FrameBounds(x: nat, y: nat, a: nat)
    requires Addr(x) <= a < Addr(y)
    ensures x <= FrameOf(a) < y
  {
  }

  /** Allocated objects never overlap: no byte belongs to two of them. */
  lemma {:induction false} LiveObjectsDisjoint(pages: Pages, s: State, x: Obj, y: Obj, a: nat)
    requires Owned(pages, s.live) && Sound(s)
    requires IsLiveObj(pages, x) && IsLiveObj(pages, y) && Inside(x, a) && Inside(y, a)
    ensures x == y
  {
    ObjInBlock(pages, x, a);
    ObjInBlock(pages, y, a);
    var b, c := BlockOf(x.frame, pages[x.frame]), BlockOf(y.frame, pages[y.frame]);
    assert b == c;
    if x.Small? && y.Small? && x.slot != y.slot {
      if x.slot < y.slot { SlotsApart(x.cls, x.slot, y.slot); } else { SlotsApart(x.cls, y.slot, x.slot); }
    }
  }

  /** Bytes of allocated objects lie in handed-out blocks, so never in a free one. */
  lemma {:induction false} LiveByteIsNotFree(pages: Pages, s: State, a: nat)
    requires Owned(pages, s.live) && Sound(s) && InLive(pages, a)
    ensures !IsFree(s.lists, FrameOf(a))
  {
    var x :| IsLiveObj(pages, x) && Inside(x, a);
    ObjInBlock(pages, x, a);
    FitsNotFree(s.lists, BlockOf(x.frame, pages[x.frame]));
  }

  /** Neither are the header words of any page in use. */
  lemma {:induction false} PageIsNotFree(pages: Pages, s: State, f: nat)
    requires Owned(pages, s.live) && Sound(s) && f in pages
    ensures !IsFree(s.lists, f)
  {
    FitsNotFree(s.lists, BlockOf(f, pages[f]));
    assert Covers(BlockOf(f, pages[f]), f);
  }

  /** Stores that stay in free frames leave pages in use, and every object in them, alone. */
  lemma {:induction false} FreeWritesAreHarmless(w: Ram, after: Ram, hhdm: nat, pages: Pages, s: State)
    requires Owned(pages, s.live) && Sound(s) && OnlyFreeTouched(w, after, s.lists)
    ensures Undisturbed(w, after, pages)
    ensures forall f :: f in pages ==> SameFrame(w, after, f)
  {
    forall a: nat | InLive(pages, a) ensures Load(after, a) == Load(w, a) {
      LiveByteIsNotFree(pages, s, a);
    }
    forall f, a: nat | f in pages && Addr(f) <= a < Addr(f) + 4096 ensures Load(after, a) == Load(w, a) {
      PageIsNotFree(pages, s, f);
      assert FrameOf(a) == f;
    }
  }

  lemma {:induction false} HeapStays(w: Ram, after: Ram, hhdm: nat, pages: Pages, slabs: seq<seq<nat>>,
                                     caches: seq<Cache>)
    requires HeapOk(w, hhdm, pages, slabs, caches)
    requires forall f :: f in pages ==> SameFrame(w, after, f)
    ensures HeapOk(after, hhdm, pages, slabs, caches)
  {
    forall f | f in pages
      ensures PageOk(after, hhdm, f, pages[f]) && Load(after, Addr(f) + 16) == Load(w, Addr(f) + 16)
    {
      PageStays(w, after, hhdm, f, pages[f]);
    }
    ListsStay(w, after, hhdm, pages, slabs);
  }

  // ---- one page changes ----------------------------------------------------------------------

  /** Stores inside one page leave the others alone. */
  ghost predicate OnlyPage(w: Ram, after: Ram, f: nat) {
    forall a: nat :: FrameOf(a) != f ==> Load(after, a) == Load(w, a)
  }

  lemma OtherPagesStay(w: Ram, after: Ram, hhdm: nat, pages: Pages, f: nat)
    requires PagesOk(w, hhdm, pages) && OnlyPage(w, after, f)
    ensures forall g :: g in pages && g != f ==>
      PageOk(after, hhdm, g, pages[g]) && Load(after, Addr(g) + 16) == Load(w, Addr(g) + 16)
  {
    forall g | g in pages && g != f
      ensures PageOk(after, hhdm, g, pages[g]) && Load(after, Addr(g) + 16) == Load(w, Addr(g) + 16)
    {
      forall a: nat | Addr(g) <= a < Addr(g) + 4096 ensures Load(after, a) == Load(w, a) {
        assert FrameOf(a) == g;
      }
      PageStays(w, after, hhdm, g, pages[g]);
    }
  }

  lemma {:induction false} SumFreeChange(pages: Pages, s: seq<nat>, f: nat, c: nat, chain: seq<nat>)
    requires NoDuplicates(s) && IsSlab(pages, c, f)
    ensures SumFree(pages[f := SlabPage(c, chain)], s) ==
              SumFree(pages, s) + if f in s then |chain| - |pages[f].chain| else 0
  {
    if s != [] {
      var n := |s| - 1;
      SumFreeChange(pages, s[..n], f, c, chain);
      if s[n] == f {
        assert f !in s[..n];
      } else {
        assert f in s <==> f in s[..n];
      }
    }
  }

  lemma {:induction false} SumFreeSame(pages: Pages, others: Pages, s: seq<nat>)
    requires forall f :: f in s ==> f in pages && f in others && pages[f] == others[f]
    ensures SumFree(others, s) == SumFree(pages, s)
  {
    if s != [] {
      SumFreeSame(pages, others, s[..|s| - 1]);
    }
  }

  /** The chain of one slab changes: the counters of its class, and only those, follow. */
  lemma {:induction false} ChainChangeCounts(hhdm: nat, pages: Pages, slabs: seq<seq<nat>>, caches: seq<Cache>,
                                             f: nat, c: nat, chain: seq<nat>, free: nat)
    requires c < NUM_CLASSES && CachesOk(hhdm, pages, slabs, caches) && MembersOk(pages, slabs)
    requires IsSlab(pages, c, f) && free == caches[c].freeSlots + |chain| - |pages[f].chain|
    ensures CachesOk(hhdm, pages[f := SlabPage(c, chain)], slabs, caches[c := caches[c].(freeSlots := free)])
  {
    var now := pages[f := SlabPage(c, chain)];
    SumFreeChange(pages, slabs[c], f, c, chain);
    forall d | 0 <= d < NUM_CLASSES && d != c ensures CacheOk(hhdm, now, slabs[d], d, caches[d]) {
      OtherClass(pages, slabs, f, c, d);
      SumFreeSame(pages, now, slabs[d]);
    }
  }

  lemma OtherClass(pages: Pages, slabs: seq<seq<nat>>, f: nat, c: nat, d: nat)
    requires MembersOk(pages, slabs) && c < NUM_CLASSES && d < NUM_CLASSES && c != d
    requires IsSlab(pages, c, f) || f !in pages
    ensures f !in slabs[d]
    ensures forall g :: g in slabs[d] ==> g in pages
  {
    assert f in slabs[d] <==> IsSlab(pages, d, f);
    forall g | g in slabs[d] ensures g in pages { assert IsSlab(pages, d, g); }
  }

  lemma ChainChangeMembers(pages: Pages, slabs: seq<seq<nat>>, f: nat, c: nat, chain: seq<nat>)
    requires MembersOk(pages, slabs) && IsSlab(pages, c, f)
    ensures MembersOk(pages[f := SlabPage(c, chain)], slabs)
  {
    forall d, g | 0 <= d < NUM_CLASSES ensures g in slabs[d] <==> IsSlab(pages[f := SlabPage(c, chain)], d, g) {
      assert g in slabs[d] <==> IsSlab(pages, d, g);
    }
  }

  /** Replacing the chain of one page, with the header and links to match, keeps the heap. */
  lemma {:induction false} ChainChange(w: Ram, after: Ram, hhdm: nat, pages: Pages, slabs: seq<seq<nat>>,
                                       caches: seq<Cache>, f: nat, c: nat, chain: seq<nat>, free: nat)
    requires HeapOk(w, hhdm, pages, slabs, caches) && c < NUM_CLASSES && IsSlab(pages, c, f)
    requires OnlyPage(w, after, f) && PageOk(after, hhdm, f, SlabPage(c, chain))
    requires Load(after, Addr(f) + 16) == Load(w, Addr(f) + 16)
    requires free == caches[c].freeSlots + |chain| - |pages[f].chain|
    ensures HeapOk(after, hhdm, pages[f := SlabPage(c, chain)], slabs, caches[c := caches[c].(freeSlots := free)])
  {
    hide PageOk, MembersOk, CacheOk, ChainedSlabs, OnlyPage;
    OtherPagesStay(w, after, hhdm, pages, f);
    ChainChangeCounts(hhdm, pages, slabs, caches, f, c, chain, free);
    ListsStay(w, after, hhdm, pages, slabs);
    ChainChangeMembers(pages, slabs, f, c, chain);
  }

  // ---- pages come and go -----------------------------------------------------------------------

  /** A freshly carved page goes to the front of its class's list. */
  lemma {:induction false} AddSlab(w: Ram, after: Ram, hhdm: nat, pages: Pages, slabs: seq<seq<nat>>,
                                   caches: seq<Cache>, f: nat, c: nat, chain: seq<nat>)
    requires HeapOk(w, hhdm, pages, slabs, caches) && c < NUM_CLASSES && f !in pages
    requires OnlyPage(w, after, f) && PageOk(after, hhdm, f, SlabPage(c, chain))
    requires Load(after, Addr(f) + 16) == caches[c].slabs && |chain| == Slots(c)
    ensures HeapOk(after, hhdm, pages[f := SlabPage(c, chain)], slabs[c := [f] + slabs[c]],
                   caches[c := Cache(ClassSize(c), Ptr(hhdm, f), caches[c].slabCount + 1,
                                     caches[c].totalSlots + Slots(c), caches[c].freeSlots + Slots(c))])
  {
    hide PageOk, MembersOk, ChainedSlabs, OnlyPage, CacheOk;
    OtherPagesStay(w, after, hhdm, pages, f);
    ListsStay(w, after, hhdm, pages, slabs);
    SlabHead(hhdm, pages, slabs, caches, c);
    AddSlabLists(after, hhdm, pages, slabs, f, c, chain);
    AddSlabCounts(hhdm, pages, slabs, caches, f, c, chain);
  }

  lemma SlabHead(hhdm: nat, pages: Pages, slabs: seq<seq<nat>>, caches: seq<Cache>, c: nat)
    requires CachesOk(hhdm, pages, slabs, caches) && c < NUM_CLASSES
    ensures caches[c].slabs == HeadPtr(hhdm, slabs[c])
  {
  }

  lemma {:induction false} AddSlabCounts(hhdm: nat, pages: Pages, slabs: seq<seq<nat>>, caches: seq<Cache>,
                                         f: nat, c: nat, chain: seq<nat>)
    requires MembersOk(pages, slabs) && CachesOk(hhdm, pages, slabs, caches) && c < NUM_CLASSES && f !in pages
    requires |chain| == Slots(c)
    ensures CachesOk(hhdm, pages[f := SlabPage(c, chain)], slabs[c := [f] + slabs[c]],
                     caches[c := Cache(ClassSize(c), Ptr(hhdm, f), caches[c].slabCount + 1,
                                       caches[c].totalSlots + Slots(c), caches[c].freeSlots + Slots(c))])
  {
    var now := pages[f := SlabPage(c, chain)];
    forall d | 0 <= d < NUM_CLASSES ensures SumFree(now, slabs[d]) == SumFree(pages, slabs[d]) {
      forall g | g in slabs[d] ensures g in pages && g != f { assert IsSlab(pages, d, g); }
      SumFreeSame(pages, now, slabs[d]);
    }
    SumFreeFront(now, f, slabs[c]);
    SumFreeOne(now, f);
    OneMore(|slabs[c]|, Slots(c));
  }

  lemma OneMore(n: nat, s: nat)
    ensures (n + 1) * s == n * s + s
  {
  }

  lemma SumFreeOne(pages: Pages, f: nat)
    requires f in pages && pages[f].SlabPage?
    ensures SumFree(pages, [f]) == |pages[f].chain|
  {
    assert [f][..0] == [];
  }

  lemma {:induction false} AddSlabLists(w: Ram, hhdm: nat, pages: Pages, slabs: seq<seq<nat>>, f: nat, c: nat,
                                        chain: seq<nat>)
    requires ListsOk(w, hhdm, pages, slabs) && c < NUM_CLASSES && f !in pages
    requires Load(w, Addr(f) + 16) == HeadPtr(hhdm, slabs[c])
    ensures ListsOk(w, hhdm, pages[f := SlabPage(c, chain)], slabs[c := [f] + slabs[c]])
  {
    var now, lists := pages[f := SlabPage(c, chain)], slabs[c := [f] + slabs[c]];
    assert f !in slabs[c] by { assert f in slabs[c] <==> IsSlab(pages, c, f); }
    forall d, g | 0 <= d < NUM_CLASSES ensures g in lists[d] <==> IsSlab(now, d, g) {
      assert g in slabs[d] <==> IsSlab(pages, d, g);
    }
    ChainedFront(w, hhdm, slabs[c], f);
  }

  lemma ChainedFront(w: Ram, hhdm: nat, s: seq<nat>, f: nat)
    requires ChainedSlabs(w, hhdm, s) && Load(w, Addr(f) + 16) == HeadPtr(hhdm, s)
    ensures ChainedSlabs(w, hhdm, [f] + s)
  {
    var t := [f] + s;
    hide Load, Addr, Ptr;
    forall k | 0 <= k < |t| ensures Load(w, Addr(t[k]) + 16) == NextPtr(hhdm, t, k) {
      if k > 0 { FrontShift(hhdm, s, f, k); }
    }
  }

  lemma FrontShift(hhdm: nat, s: seq<nat>, f: nat, k: nat)
    requires 0 < k <= |s|
    ensures ([f] + s)[k] == s[k - 1] && NextPtr(hhdm, [f] + s, k) == NextPtr(hhdm, s, k - 1)
  {
  }

  lemma {:induction false} SumFreeFront(pages: Pages, f: nat, s: seq<nat>)
    ensures SumFree(pages, [f] + s) == SumFree(pages, [f]) + SumFree(pages, s)
  {
    if s != [] {
      var n := |s| - 1;
      SumFreeFront(pages, f, s[..n]);
      assert ([f] + s)[..n + 1] == [f] + s[..n];
    } else {
      assert [f] + s == [f];
    }
  }

  lemma {:induction false} AddLarge(w: Ram, after: Ram, hhdm: nat, pages: Pages, slabs: seq<seq<nat>>,
                                    caches: seq<Cache>, f: nat, o: nat)
    requires HeapOk(w, hhdm, pages, slabs, caches) && f !in pages
    requires OnlyPage(w, after, f) && PageOk(after, hhdm, f, LargePage(o))
    ensures HeapOk(after, hhdm, pages[f := LargePage(o)], slabs, caches)
  {
    OtherPagesStay(w, after, hhdm, pages, f);
    ListsStay(w, after, hhdm, pages, slabs);
    LargeIsNoSlab(hhdm, pages, pages[f := LargePage(o)], slabs, caches);
  }

  lemma {:induction false} LargeIsNoSlab(hhdm: nat, pages: Pages, now: Pages, slabs: seq<seq<nat>>, caches: seq<Cache>)
    requires MembersOk(pages, slabs) && CachesOk(hhdm, pages, slabs, caches)
    requires forall c, f :: IsSlab(pages, c, f) ==> f in now && now[f] == pages[f]
    requires forall c, f :: IsSlab(now, c, f) ==> IsSlab(pages, c, f)
    ensures MembersOk(now, slabs) && CachesOk(hhdm, now, slabs, caches)
  {
    forall d, f | 0 <= d < NUM_CLASSES ensures f in slabs[d] <==> IsSlab(now, d, f) {
      assert f in slabs[d] <==> IsSlab(pages, d, f);
    }
    forall d | 0 <= d < NUM_CLASSES ensures CacheOk(hhdm, now, slabs[d], d, caches[d]) {
      forall f | f in slabs[d] ensures f in pages && f in now && pages[f] == now[f] {
        assert IsSlab(pages, d, f);
      }
      SumFreeSame(pages, now, slabs[d]);
    }
  }

  lemma {:induction false} DropLarge(w: Ram, hhdm: nat, pages: Pages, slabs: seq<seq<nat>>, caches: seq<Cache>, f: nat)
    requires HeapOk(w, hhdm, pages, slabs, caches) && f in pages && pages[f].LargePage?
    ensures HeapOk(w, hhdm, pages - {f}, slabs, caches)
  {
    LargeIsNoSlab(hhdm, pages, pages - {f}, slabs, caches);
  }

  // ---- which stores reach allocated objects ------------------------------------------------------

  lemma UndisturbedTwice(w: Ram, mid: Ram, after: Ram, pages: Pages)
    requires Undisturbed(w, mid, pages) && Undisturbed(mid, after, pages)
    ensures Undisturbed(w, after, pages)
  {
  }

  /** A page that was free a moment ago holds no allocated object. */
  lemma {:induction false} FreshPageIsHarmless(w: Ram, after: Ram, pages: Pages, s: State, f: nat)
    requires Owned(pages, s.live) && Sound(s) && IsFree(s.lists, f) && OnlyPage(w, after, f)
    ensures Undisturbed(w, after, pages) && f !in pages
  {
    forall a: nat | InLive(pages, a) ensures Load(after, a) == Load(w, a) {
      LiveByteIsNotFree(pages, s, a);
    }
    if f in pages { PageIsNotFree(pages, s, f); }
  }

  /** The header of a slab page belongs to no object. */
  lemma {:induction false} HeaderIsNotLive(pages: Pages, s: State, f: nat, off: nat)
    requires Owned(pages, s.live) && Sound(s) && f in pages && pages[f].SlabPage? && off < SLAB_DATA
    ensures !InLive(pages, Addr(f) + off)
  {
    var a := Addr(f) + off;
    if InLive(pages, a) {
      var x :| IsLiveObj(pages, x) && Inside(x, a);
      ObjInBlock(pages, x, a);
      OwnerIsUnique(pages, s, x, a, f);
    }
  }

  lemma OwnerIsUnique(pages: Pages, s: State, x: Obj, a: nat, f: nat)
    requires Owned(pages, s.live) && Sound(s) && f in pages && FrameOf(a) == f
    requires IsLiveObj(pages, x) && Inside(x, a)
    ensures x.frame == f
  {
    ObjInBlock(pages, x, a);
    assert Covers(BlockOf(f, pages[f]), f);
    assert BlockOf(x.frame, pages[x.frame]) == BlockOf(f, pages[f]);
  }

  lemma {:induction false} PopIsHarmless(w: Ram, hhdm: nat, pages: Pages, s: State, f: nat, slot: nat)
    requires Owned(pages, s.live) && Sound(s) && f in pages && pages[f].SlabPage?
    ensures Undisturbed(w, PopWords(w, hhdm, f, slot), pages)
  {
    HeaderIsNotLive(pages, s, f, 24);
    HeaderIsNotLive(pages, s, f, 32);
  }

  /** Once slot i is back on the chain, nothing allocated overlaps it. */
  lemma {:induction false} FreedSlotIsNotLive(pages: Pages, s: State, f: nat, c: nat, i: nat)
    requires Owned(pages, s.live) && Sound(s) && IsLiveObj(pages, Small(f, c, i))
    ensures !InLive(pages[f := SlabPage(c, [i] + pages[f].chain)], SlotAt(f, c, i))
  {
    var now := pages[f := SlabPage(c, [i] + pages[f].chain)];
    var a := SlotAt(f, c, i);
    forall y | IsLiveObj(now, y) && Inside(y, a) ensures false {
      assert IsLiveObj(pages, y);
      assert Inside(Small(f, c, i), a);
      LiveObjectsDisjoint(pages, s, Small(f, c, i), y, a);
    }
  }

  lemma {:induction false} PushIsHarmless(w: Ram, hhdm: nat, pages: Pages, s: State, f: nat, c: nat, i: nat)
    requires Owned(pages, s.live) && Sound(s) && IsLiveObj(pages, Small(f, c, i))
    ensures Undisturbed(w, CountUp(PushSlotWords(w, hhdm, f, SlotAt(f, c, i)), f),
                        pages[f := SlabPage(c, [i] + pages[f].chain)])
  {
    var now := pages[f := SlabPage(c, [i] + pages[f].chain)];
    FreedSlotIsNotLive(pages, s, f, c, i);
    assert Owned(now, s.live);
    HeaderIsNotLive(now, s, f, 24);
    HeaderIsNotLive(now, s, f, 32);
  }

  // ---- what the steps do to the set of objects -----------------------------------------------------

  /** x is the one object that `now` has and `was` has not. */
  ghost predicate Appears(was: Pages, now: Pages, x: Obj) {
    !IsLiveObj(was, x) && forall y :: IsLiveObj(now, y) <==> IsLiveObj(was, y) || y == x
  }

  ghost predicate SameObjects(was: Pages, now: Pages) {
    forall y :: IsLiveObj(was, y) <==> IsLiveObj(now, y)
  }

  lemma PopAppears(pages: Pages, f: nat, c: nat, chain: seq<nat>)
    requires c < NUM_CLASSES && chain != [] && f in pages && pages[f] == SlabPage(c, chain)
    requires chain[0] < Slots(c) && chain[0] !in chain[1..]
    ensures Appears(pages, pages[f := SlabPage(c, chain[1..])], Small(f, c, chain[0]))
  {
    assert forall i :: i in chain <==> i == chain[0] || i in chain[1..];
  }

  lemma PushDisappears(pages: Pages, f: nat, c: nat, i: nat)
    requires IsLiveObj(pages, Small(f, c, i))
    ensures Appears(pages[f := SlabPage(c, [i] + pages[f].chain)], pages, Small(f, c, i))
  {
    assert forall j :: j in [i] + pages[f].chain <==> j == i || j in pages[f].chain;
  }

  lemma GrowKeepsObjects(pages: Pages, f: nat, c: nat, chain: seq<nat>)
    requires c < NUM_CLASSES && f !in pages && forall i :: 0 <= i < Slots(c) ==> i in chain
    ensures SameObjects(pages, pages[f := SlabPage(c, chain)])
  {
  }

  lemma LargeAppears(pages: Pages, f: nat, o: nat)
    requires f !in pages && o <= MAX_ORDER
    ensures Appears(pages, pages[f := LargePage(o)], Large(f, o))
  {
  }

  lemma LargeDisappears(pages: Pages, f: nat, o: nat)
    requires IsLiveObj(pages, Large(f, o))
    ensures Appears(pages - {f}, pages, Large(f, o))
  {
  }

  /** Stores inside a page that is not free leave the buddy lists as they are. */
  lemma {:induction false} ListsUnharmed(w: Ram, after: Ram, hhdm: nat, heads: seq<nat>, counts: seq<nat>,
                                         lists: Lists, f: nat)
    requires Linked(w, hhdm, heads, counts, lists) && OnlyPage(w, after, f) && !IsFree(lists, f)
    ensures Linked(after, hhdm, heads, counts, lists)
  {
    forall g | IsFree(lists, g) ensures FrameOf(Addr(g)) != f && FrameOf(Addr(g) + 8) != f {
      SlotFrame(g, 0, 16, Addr(g));
      SlotFrame(g, 0, 16, Addr(g) + 8);
    }
    LinkedStays(w, after, hhdm, heads, counts, lists);
  }

  // ---- everything else in memory ------------------------------------------------------------------

  /** Every word that differs lies in a free frame or in one of the heap's own. */
  ghost predicate OthersUntouched(w: Ram, after: Ram, pages: Pages, s: State) {
    forall a: nat :: !HeapFrame(pages, s.lists, FrameOf(a)) ==> Load(after, a) == Load(w, a)
  }

  lemma UntouchedNothing(w: Ram, pages: Pages, s: State)
    ensures OthersUntouched(w, w, pages, s)
  {
  }

  lemma UntouchedTwice(w: Ram, mid: Ram, after: Ram, was: Pages, s: State, now: Pages, t: State)
    requires OthersUntouched(w, mid, was, s) && OthersUntouched(mid, after, now, t) && Conserved(was, s, now, t)
    ensures OthersUntouched(w, after, was, s)
  {
    hide HeapFrame, Steady, OthersSame;
  }

  /** A block borrowed, or not, and stores in the page made of it. */
  lemma UntouchedByBorrow(w: Ram, mid: Ram, after: Ram, pages: Pages, s: State, f: nat)
    requires OnlyFreeTouched(w, mid, s.lists)
    requires mid == after || (OnlyPage(mid, after, f) && IsFree(s.lists, f))
    ensures OthersUntouched(w, after, pages, s)
  {
    hide IsFree;
  }

  lemma UntouchedByPage(w: Ram, after: Ram, pages: Pages, s: State, f: nat)
    requires OnlyPage(w, after, f) && f in pages
    ensures OthersUntouched(w, after, pages, s)
  {
    assert Covers(BlockOf(f, pages[f]), f);
    hide IsFree;
  }

  /** A block returned: its first words become a list node once its frames are free. */
  lemma UntouchedByReturn(w: Ram, after: Ram, pages: Pages, s: State, now: Pages, t: State)
    requires OnlyFreeTouched(w, after, t.lists) && Conserved(pages, s, now, t)
    ensures OthersUntouched(w, after, pages, s)
  {
    hide IsFree, InPage, Steady, OthersSame;
  }

  /** A handed-out block that is not the heap's is none of the frames the heap may write to. */
  lemma {:induction false} HeldIsNoHeapFrame(pages: Pages, s: State, b: Block, f: nat)
    requires Sound(s) && Owned(pages, s.live) && b in s.live && !IsPageBlock(pages, b) && Covers(b, f)
    ensures !HeapFrame(pages, s.lists, f)
  {
    NotFreeIfLive(s, b, f);
  }

  /** Neither is a frame the buddy allocator never had. */
  lemma {:induction false} ForeignIsNoHeapFrame(pages: Pages, s: State, f: nat)
    requires Owned(pages, s.live) && !IsFree(s.lists, f) && !IsLive(s, f)
    ensures !HeapFrame(pages, s.lists, f)
  {
  }
}
