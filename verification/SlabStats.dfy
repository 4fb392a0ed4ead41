/** The counters slab_get_stats reports, against the set of objects that are actually allocated. */
module SlabStats {
  import opened PhysicalMemory
  import opened SlabLayout
  import opened SlabPages
  import opened SlabHeap
  import opened BuddyLists
  import opened BuddyLinks
  import opened BuddyRuns
  import opened SlabAllocator

  datatype ClassStats = ClassStats(objSize: nat, slabCount: nat, totalSlots: nat, freeSlots: nat, bytesInUse: nat)

  /** The allocated slots of the slab pages in s. */
  function LiveIn(pages: Pages, s: seq<nat>, c: nat): set<Obj>
    requires c < NUM_CLASSES
  {
    if s == [] then {}
    else LiveIn(pages, s[..|s| - 1], c) + LiveSlots(pages, s[|s| - 1], c)
  }

  function LiveSlots(pages: Pages, f: nat, c: nat): set<Obj>
    requires c < NUM_CLASSES
  {
    if IsSlab(pages, c, f) then set i | i in Below(Slots(c)) && i !in pages[f].chain :: Small(f, c, i) else {}
  }

  lemma {:induction false} LiveInIs(pages: Pages, s: seq<nat>, c: nat)
    requires c < NUM_CLASSES
    ensures forall x :: x in LiveIn(pages, s, c) <==> x.Small? && x.cls == c && x.frame in s && IsLiveObj(pages, x)
  {
    if s != [] {
      LiveInIs(pages, s[..|s| - 1], c);
    }
  }

  function Elements(s: seq<nat>): set<nat> {
    if s == [] then {} else Elements(s[..|s| - 1]) + {s[|s| - 1]}
  }

  lemma {:induction false} ElementsAre(s: seq<nat>)
    ensures forall x :: x in Elements(s) <==> x in s
    ensures NoDuplicates(s) ==> |Elements(s)| == |s|
  {
    if s != [] {
      var n := |s| - 1;
      ElementsAre(s[..n]);
      forall x ensures x in Elements(s) <==> x in s {
        assert x in s <==> x in s[..n] || x == s[n];
      }
    }
  }

  lemma {:induction false} ImageCount(slots: set<nat>, f: nat, c: nat)
    ensures |set i | i in slots :: Small(f, c, i)| == |slots|
  {
    if slots != {} {
      var i :| i in slots;
      ImageCount(slots - {i}, f, c);
      assert (set j | j in slots :: Small(f, c, j)) == (set j | j in slots - {i} :: Small(f, c, j)) + {Small(f, c, i)};
    }
  }

  lemma {:induction false} PageCount(w: Ram, hhdm: nat, pages: Pages, f: nat, c: nat)
    requires c < NUM_CLASSES && IsSlab(pages, c, f) && PageOk(w, hhdm, f, pages[f])
    ensures |LiveSlots(pages, f, c)| == Slots(c) - |pages[f].chain|
  {
    hide PageOk, Slots, Elements;
    var chain := pages[f].chain;
    var taken := set i | i in Below(Slots(c)) && i !in chain;
    ElementsAre(chain);
    ImageCount(taken, f, c);
    TakenSlots(pages, f, c, taken);
    ChainInPage(w, hhdm, f, c, chain);
    hide LiveSlots;
    assert Below(Slots(c)) == taken + Elements(chain);
  }

  lemma TakenSlots(pages: Pages, f: nat, c: nat, taken: set<nat>)
    requires c < NUM_CLASSES && IsSlab(pages, c, f)
    requires taken == set i | i in Below(Slots(c)) && i !in pages[f].chain
    ensures (set i | i in taken :: Small(f, c, i)) == LiveSlots(pages, f, c)
  {
    hide Slots;
  }

  lemma ChainInPage(w: Ram, hhdm: nat, f: nat, c: nat, chain: seq<nat>)
    requires PageOk(w, hhdm, f, SlabPage(c, chain))
    ensures NoDuplicates(chain) && forall x :: x in chain ==> x in Below(Slots(c))
  {
  }

  lemma {:induction false} ListCount(w: Ram, hhdm: nat, pages: Pages, s: seq<nat>, c: nat)
    requires c < NUM_CLASSES && NoDuplicates(s)
    requires forall f :: f in s ==> IsSlab(pages, c, f) && PageOk(w, hhdm, f, pages[f])
    ensures |LiveIn(pages, s, c)| == |s| * Slots(c) - SumFree(pages, s)
  {
    if s != [] {
      var n := |s| - 1;
      ListCount(w, hhdm, pages, s[..n], c);
      PageCount(w, hhdm, pages, s[n], c);
      LiveInIs(pages, s[..n], c);
      assert LiveIn(pages, s[..n], c) !! LiveSlots(pages, s[n], c);
      OneMore(n, Slots(c));
    }
  }

  /** A cache's counters are exact: total minus free slots is the number of objects of its class in use. */
  lemma {:induction false} CountersExact(w: Ram, hhdm: nat, pages: Pages, slabs: seq<seq<nat>>, caches: seq<Cache>,
                                         c: nat)
    requires HeapOk(w, hhdm, pages, slabs, caches) && c < NUM_CLASSES
    ensures var live := LiveIn(pages, slabs[c], c);
      && (forall x :: x in live <==> x.Small? && x.cls == c && IsLiveObj(pages, x))
      && caches[c].totalSlots - caches[c].freeSlots == |live|
      && caches[c].slabCount == |slabs[c]|
      && caches[c].totalSlots == |slabs[c]| * Slots(c) && caches[c].freeSlots == SumFree(pages, slabs[c])
  {
    LiveInIs(pages, slabs[c], c);
    forall f | f in slabs[c] ensures IsSlab(pages, c, f) && PageOk(w, hhdm, f, pages[f]) {}
    ListCount(w, hhdm, pages, slabs[c], c);
    assert CacheOk(hhdm, pages, slabs[c], c, caches[c]);
    forall x ensures x in LiveIn(pages, slabs[c], c) <==> x.Small? && x.cls == c && IsLiveObj(pages, x) {
      if x.Small? && x.cls == c && IsLiveObj(pages, x) { assert x.frame in slabs[c]; }
    }
  }

  function StatsOf(k: Cache): ClassStats
    requires k.totalSlots >= k.freeSlots
  {
    ClassStats(k.objSize, k.slabCount, k.totalSlots, k.freeSlots, (k.totalSlots - k.freeSlots) * k.objSize)
  }

  /** What one line of the statistics promises. */
  ghost predicate StatsExact(pages: Pages, slabs: seq<seq<nat>>, c: nat, st: ClassStats)
    requires c < NUM_CLASSES && |slabs| == NUM_CLASSES
  {
    var live := LiveIn(pages, slabs[c], c);
    && st.objSize == ClassSize(c)
    && st.slabCount == |slabs[c]|
    && st.totalSlots == |slabs[c]| * Slots(c) && st.freeSlots == SumFree(pages, slabs[c])
    && st.totalSlots - st.freeSlots == |live|
    && st.bytesInUse == |live| * ClassSize(c)
  }

  method GetStats(heap: Slab) returns (out: seq<ClassStats>)
    requires heap.Valid()
    ensures |out| == NUM_CLASSES
    ensures forall c :: 0 <= c < NUM_CLASSES ==> StatsExact(heap.pages, heap.slabs, c, out[c])
  {
    out := [];
    assert |heap.slabs| == NUM_CLASSES && heap.caches.Length == NUM_CLASSES;
    hide HeapOk, Owned, InReach, StatsExact, Linked, WellFormed, Sound, IsFree, IsLive, LiveIn, SumFree, StatsOf;
    for c := 0 to NUM_CLASSES
      invariant |out| == c
      invariant forall d :: 0 <= d < c ==> StatsExact(heap.pages, heap.slabs, d, out[d])
    {
      CacheIsExact(heap.mem.w, heap.hhdm, heap.pages, heap.slabs, heap.caches[..], c);
      var k := heap.caches[c];
      assert heap.caches[..][c] == k;
      out := out + [StatsOf(k)];
    }
  }

  lemma CacheIsExact(w: Ram, hhdm: nat, pages: Pages, slabs: seq<seq<nat>>, caches: seq<Cache>, c: nat)
    requires HeapOk(w, hhdm, pages, slabs, caches) && c < NUM_CLASSES
    ensures |slabs| == NUM_CLASSES && |caches| == NUM_CLASSES
    ensures var k := caches[c];
      && k.totalSlots >= k.freeSlots
      && StatsExact(pages, slabs, c, StatsOf(k))
  {
    hide HeapOk, LiveIn, ClassSize;
    CacheSize(hhdm, pages, slabs, caches, w, c);
    CountersExact(w, hhdm, pages, slabs, caches, c);
  }
}
