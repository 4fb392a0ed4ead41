/** The allocators store aligned 64-bit words, and objects consist of whole words: no store reaches into
    an object from below. */
module WordStores {
  import opened PhysicalMemory
  import opened BuddyLinks
  import opened SlabLayout
  import opened SlabPages
  import opened SlabHeap
  import opened SlabAllocator

  /** Only words at multiples of 8 differ. */
  ghost predicate OnWords(w: Ram, after: Ram) {
    forall a: int :: a % 8 != 0 ==> Load(after, a) == Load(w, a)
  }

  lemma StoreOnWord(w: Ram, mid: Ram, a: int, v: int)
    requires OnWords(w, mid) && a % 8 == 0
    ensures OnWords(w, Store(mid, a, v))
  {
  }

  lemma FrameWord(frame: nat, off: nat)
    requires off % 8 == 0
    ensures (Addr(frame) + off) % 8 == 0
  {
    assert Addr(frame) + off == 8 * (512 * frame + off / 8);
  }

  /** list_push and list_remove store to the two words of block nodes. */
  lemma {:induction false} ListStoresAreAligned(w: Ram, hhdm: nat, frame: nat, head: nat, prev: nat, next: nat)
    requires hhdm > 0
    ensures OnWords(w, PushWords(w, hhdm, Ptr(hhdm, head), frame)) && OnWords(w, PushWords(w, hhdm, 0, frame))
    ensures OnWords(w, UnlinkWords(w, hhdm, Ptr(hhdm, prev), Ptr(hhdm, next)))
    ensures OnWords(w, UnlinkWords(w, hhdm, 0, Ptr(hhdm, next))) && OnWords(w, UnlinkWords(w, hhdm, Ptr(hhdm, prev), 0))
    ensures OnWords(w, UnlinkWords(w, hhdm, 0, 0))
  {
    FrameWord(frame, 0);
    FrameWord(frame, 8);
    FrameWord(head, 8);
    FrameWord(prev, 0);
    FrameWord(next, 8);
    hide Addr;
  }

  lemma SlotWord(frame: nat, c: nat, i: nat)
    requires c < NUM_CLASSES && i < Slots(c)
    ensures SlotAt(frame, c, i) % 8 == 0
  {
    SlotInPage(c, i);
    FrameWord(frame, SlotOff(c, i));
  }

  lemma HeaderOnWords(frame: nat)
    ensures Addr(frame) % 8 == 0 && (Addr(frame) + 8) % 8 == 0 && (Addr(frame) + 16) % 8 == 0
    ensures (Addr(frame) + 24) % 8 == 0 && (Addr(frame) + 32) % 8 == 0
  {
    FrameWord(frame, 0);
    FrameWord(frame, 8);
    FrameWord(frame, 16);
    FrameWord(frame, 24);
    FrameWord(frame, 32);
  }

  /** kmalloc's pop and kfree's push store to header words and to the first word of a slot. */
  lemma {:induction false} SlotStoresAreAligned(w: Ram, hhdm: nat, frame: nat, c: nat, i: nat)
    requires c < NUM_CLASSES && i < Slots(c)
    ensures OnWords(w, PopWords(w, hhdm, frame, SlotAt(frame, c, i)))
    ensures OnWords(w, CountUp(PushSlotWords(w, hhdm, frame, SlotAt(frame, c, i)), frame))
  {
    var slot := SlotAt(frame, c, i);
    SlotWord(frame, c, i);
    HeaderOnWords(frame);
    hide Addr, SlotAt, Slots, Load, Store, OnWords;
    NothingStored(w);
    var link, moved := Store(w, slot, Load(w, Addr(frame) + 24)), Store(w, Addr(frame) + 24, Load(w, slot));
    StoreOnWord(w, w, Addr(frame) + 24, Load(w, slot));
    StoreOnWord(w, moved, Addr(frame) + 32, Load(moved, Addr(frame) + 32) - 1);
    StoreOnWord(w, w, slot, Load(w, Addr(frame) + 24));
    StoreOnWord(w, link, Addr(frame) + 24, hhdm + slot);
    var pushed := PushSlotWords(w, hhdm, frame, slot);
    StoreOnWord(w, pushed, Addr(frame) + 32, Load(pushed, Addr(frame) + 32) + 1);
  }

  lemma NothingStored(w: Ram)
    ensures OnWords(w, w)
  {
  }

  /** So do the stores that make a page of slots: its header, its links and its place in the list. */
  lemma {:induction false} CarveStoresAreAligned(w: Ram, hhdm: nat, frame: nat, c: nat, i: nat, n: nat, v: int)
    requires c < NUM_CLASSES && i < Slots(c)
    ensures OnWords(w, HeaderWords(w, frame, c, n)) && OnWords(w, Store(w, Addr(frame) + 16, v))
    ensures var slot := SlotAt(frame, c, i);
      OnWords(w, Store(Store(w, slot, Load(w, Addr(frame) + 24)), Addr(frame) + 24, hhdm + slot))
  {
    var slot := SlotAt(frame, c, i);
    SlotWord(frame, c, i);
    HeaderOnWords(frame);
    hide Addr, SlotAt, Slots, Load, Store, OnWords, Pack, Low32, High32;
    NothingStored(w);
    StoreOnWord(w, w, Addr(frame) + 16, v);
    StoreOnWord(w, w, slot, Load(w, Addr(frame) + 24));
    StoreOnWord(w, Store(w, slot, Load(w, Addr(frame) + 24)), Addr(frame) + 24, hhdm + slot);
    var w1 := Store(w, Addr(frame), SLAB_MAGIC);
    var w2 := Store(w1, Addr(frame) + 8, c);
    var w3 := Store(w2, Addr(frame) + 32, Pack(Low32(Load(w2, Addr(frame) + 32)), n));
    var w4 := Store(w3, Addr(frame) + 32, Pack(n, High32(Load(w3, Addr(frame) + 32))));
    StoreOnWord(w, w, Addr(frame), SLAB_MAGIC);
    StoreOnWord(w, w1, Addr(frame) + 8, c);
    StoreOnWord(w, w2, Addr(frame) + 32, Pack(Low32(Load(w2, Addr(frame) + 32)), n));
    StoreOnWord(w, w3, Addr(frame) + 32, Pack(n, High32(Load(w3, Addr(frame) + 32))));
    StoreOnWord(w, w4, Addr(frame) + 24, 0);
  }

  lemma LargeStoresAreAligned(w: Ram, frame: nat, magic: int, v: int)
    ensures OnWords(w, Store(Store(w, Addr(frame), magic), Addr(frame) + 8, v))
  {
    FrameWord(frame, 0);
    FrameWord(frame, 8);
    hide Addr;
  }

  /** An aligned word with one byte in an allocated object lies in it as a whole, so stores elsewhere
      leave every byte of the object. */
  lemma {:induction false} ObjectsAreWholeWords(pages: Pages, x: Obj, a: nat, k: nat)
    requires IsLiveObj(pages, x) && a % 8 == 0 && k < 8 && Inside(x, a + k)
    ensures Inside(x, a) && Inside(x, a + 7)
  {
    StartsOnWord(pages, x);
    WordSizes(x);
    hide IsLiveObj, ObjAddr, ObjBytes;
    WholeWords(ObjAddr(x), ObjBytes(x), a, k);
  }

  lemma StartsOnWord(pages: Pages, x: Obj)
    requires IsLiveObj(pages, x)
    ensures ObjAddr(x) % 8 == 0
  {
    match x
    case Small(f, c, i) => SlotWord(f, c, i);
    case Large(f, o) => FrameWord(f, LARGE_DATA);
  }

  lemma WordSizes(x: Obj)
    requires x.Small? ==> x.cls < NUM_CLASSES
    ensures ObjBytes(x) % 8 == 0
  {
  }

  lemma WholeWords(addr: nat, bytes: nat, a: nat, k: nat)
    requires addr % 8 == 0 && bytes % 8 == 0 && a % 8 == 0 && k < 8 && addr <= a + k < addr + bytes
    ensures addr <= a && a + 7 < addr + bytes
  {
  }
}
