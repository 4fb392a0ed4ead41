/** Slab pages and large blocks as values: headers, threaded slot lists, cache counters, live objects. */
module SlabPages {
  import opened PhysicalMemory
  import opened SlabLayout
  import opened BuddyBlocks
  import opened BuddyLists

  /** What a page the heap borrowed is used for. A slab page keeps its free slots, head of the chain first. */
  datatype Page = SlabPage(cls: nat, chain: seq<nat>) | LargePage(order: nat)

  type Pages = map<nat, Page>

  /** struct kmem_cache: the list head is a pointer, the rest are the running counters. */
  datatype Cache = Cache(objSize: nat, slabs: nat, slabCount: nat, totalSlots: nat, freeSlots: nat)

  /** An allocated object: a slot of a slab page, or everything behind the header of a large block. */
  datatype Obj = Small(frame: nat, cls: nat, slot: nat) | Large(frame: nat, order: nat)

  // ---- one page --------------------------------------------------------------------------

  function SlotAt(frame: nat, c: nat, i: nat): nat
    requires c < NUM_CLASSES
  {
    Addr(frame) + SlotOff(c, i)
  }

  function ChainPtr(hhdm: nat, frame: nat, c: nat, chain: seq<nat>, k: nat): nat
    requires c < NUM_CLASSES
  {
    if k < |chain| then hhdm + SlotAt(frame, c, chain[k]) else 0
  }

  /** The chain threaded through the free slots of the page, from the head in the header. */
  ghost predicate ChainOk(w: Ram, hhdm: nat, frame: nat, c: nat, chain: seq<nat>)
    requires c < NUM_CLASSES
  {
    && NoDuplicates(chain)
    && Load(w, Addr(frame) + 24) == ChainPtr(hhdm, frame, c, chain, 0)
    && forall k :: 0 <= k < |chain| ==>
         chain[k] < Slots(c) && Load(w, SlotAt(frame, c, chain[k])) == ChainPtr(hhdm, frame, c, chain, k + 1)
  }

  ghost predicate PageOk(w: Ram, hhdm: nat, frame: nat, p: Page) {
    match p
    case SlabPage(c, chain) =>
      && c < NUM_CLASSES
      && Load(w, Addr(frame)) == SLAB_MAGIC
      && Load(w, Addr(frame) + 8) == c
      && Load(w, Addr(frame) + 32) == Pack(|chain|, Slots(c))
      && ChainOk(w, hhdm, frame, c, chain)
    case LargePage(o) =>
      && o <= MAX_ORDER
      && Load(w, Addr(frame)) == LARGE_MAGIC
      && Low32(Load(w, Addr(frame) + 8)) == o
  }

  ghost predicate SameFrame(w: Ram, after: Ram, frame: nat) {
    forall a: nat :: Addr(frame) <= a < Addr(frame) + 4096 ==> Load(after, a) == Load(w, a)
  }

  lemma PageStays(w: Ram, after: Ram, hhdm: nat, frame: nat, p: Page)
    requires PageOk(w, hhdm, frame, p) && SameFrame(w, after, frame)
    ensures PageOk(after, hhdm, frame, p)
    ensures Load(after, Addr(frame) + 16) == Load(w, Addr(frame) + 16)
  {
    if p.SlabPage? {
      forall k | 0 <= k < |p.chain|
        ensures Load(after, SlotAt(frame, p.cls, p.chain[k])) == Load(w, SlotAt(frame, p.cls, p.chain[k]))
      {
        SlotInPage(p.cls, p.chain[k]);
      }
    }
  }

  /** kmalloc's pop: the head moves to the next link, the count drops by one. */
  function PopWords(w: Ram, hhdm: nat, frame: nat, slot: nat): Ram {
    var moved := Store(w, Addr(frame) + 24, Load(w, slot));
    Store(moved, Addr(frame) + 32, Load(moved, Addr(frame) + 32) - 1)
  }

  lemma {:induction false} PopPage(w: Ram, hhdm: nat, frame: nat, c: nat, chain: seq<nat>)
    requires chain != [] && PageOk(w, hhdm, frame, SlabPage(c, chain))
    ensures chain[0] < Slots(c) && chain[0] !in chain[1..]
    ensures PageOk(PopWords(w, hhdm, frame, SlotAt(frame, c, chain[0])), hhdm, frame, SlabPage(c, chain[1..]))
  {
    var after, rest := PopWords(w, hhdm, frame, SlotAt(frame, c, chain[0])), chain[1..];
    SlotInPage(c, chain[0]);
    forall k | 0 <= k < |rest|
      ensures rest[k] < Slots(c) && Load(after, SlotAt(frame, c, rest[k])) == ChainPtr(hhdm, frame, c, rest, k + 1)
    {
      assert rest[k] == chain[k + 1];
      SlotInPage(c, rest[k]);
    }
  }

  /** kfree's push: link the slot to the head, move the head to it, count one more. */
  function PushSlotWords(w: Ram, hhdm: nat, frame: nat, slot: nat): Ram {
    var linked := Store(w, slot, Load(w, Addr(frame) + 24));
    Store(linked, Addr(frame) + 24, hhdm + slot)
  }

  function CountUp(w: Ram, frame: nat): Ram {
    Store(w, Addr(frame) + 32, Load(w, Addr(frame) + 32) + 1)
  }

  lemma {:induction false} PushChain(w: Ram, hhdm: nat, frame: nat, c: nat, chain: seq<nat>, i: nat)
    requires c < NUM_CLASSES && ChainOk(w, hhdm, frame, c, chain) && i < Slots(c) && i !in chain
    ensures ChainOk(PushSlotWords(w, hhdm, frame, SlotAt(frame, c, i)), hhdm, frame, c, [i] + chain)
  {
    var after, more := PushSlotWords(w, hhdm, frame, SlotAt(frame, c, i)), [i] + chain;
    SlotInPage(c, i);
    forall k | 0 <= k < |more|
      ensures more[k] < Slots(c) && Load(after, SlotAt(frame, c, more[k])) == ChainPtr(hhdm, frame, c, more, k + 1)
    {
      if k > 0 {
        assert more[k] == chain[k - 1] != i;
        SlotInPage(c, more[k]);
        if more[k] < i { SlotsApart(c, more[k], i); } else { SlotsApart(c, i, more[k]); }
        assert ChainPtr(hhdm, frame, c, more, k + 1) == ChainPtr(hhdm, frame, c, chain, k);
      }
    }
  }

  lemma {:induction false} PushPage(w: Ram, hhdm: nat, frame: nat, c: nat, chain: seq<nat>, i: nat)
    requires PageOk(w, hhdm, frame, SlabPage(c, chain)) && i < Slots(c) && i !in chain
    ensures PageOk(CountUp(PushSlotWords(w, hhdm, frame, SlotAt(frame, c, i)), frame), hhdm, frame,
                   SlabPage(c, [i] + chain))
  {
    PushChain(w, hhdm, frame, c, chain, i);
    SlotInPage(c, i);
    var mid := PushSlotWords(w, hhdm, frame, SlotAt(frame, c, i));
    ChainIgnoresCount(mid, hhdm, frame, c, [i] + chain, Load(mid, Addr(frame) + 32) + 1);
  }

  lemma ChainIgnoresCount(w: Ram, hhdm: nat, frame: nat, c: nat, chain: seq<nat>, v: int)
    requires c < NUM_CLASSES && ChainOk(w, hhdm, frame, c, chain)
    ensures ChainOk(Store(w, Addr(frame) + 32, v), hhdm, frame, c, chain)
  {
    forall k | 0 <= k < |chain| ensures Addr(frame) + 32 < SlotAt(frame, c, chain[k]) {
      SlotInPage(c, chain[k]);
    }
  }
}
