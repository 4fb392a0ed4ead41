/** Building the kernel's address space: the direct map of all memory, then the kernel image. */
module Vmm {
  import opened Bits
  import opened PhysicalMemory
  import opened FrameBits
  import opened PhysicalFrames
  import opened PageEntries
  import opened PageTables
  import opened Paging

  /** Frames the direct map can reach without two of them sharing a 48-bit virtual page. */
  const WINDOW: nat := 0x10_0000_0000

  /** The virtual page of a frame in the direct map. */
  function DirectPage(hhdm: nat, frame: nat): nat {
    PageOf(hhdm + Addr(frame))
  }

  lemma {:induction false} DirectPagesDiffer(hhdm: nat, f: nat, g: nat)
    requires hhdm % 4096 == 0 && f < WINDOW && g < WINDOW && DirectPage(hhdm, f) == DirectPage(hhdm, g)
    ensures f == g
  {
    var h := hhdm / 4096;
    assert (hhdm + Addr(f)) / 4096 == h + f && (hhdm + Addr(g)) / 4096 == h + g;
    SameResidue(h + f, h + g);
  }

  lemma SameResidue(x: nat, y: nat)
    requires x % WINDOW == y % WINDOW && x < y + WINDOW && y < x + WINDOW
    ensures x == y
  {
    assert x == (x / WINDOW) * 0x10_0000_0000 + x % WINDOW;
    assert y == (y / WINDOW) * 0x10_0000_0000 + y % WINDOW;
  }

  /** Every frame in [s, e) is mapped writable, supervisor only, at its place in the direct map. */
  ghost predicate Mirrored(maps: map<nat, Mapping>, hhdm: nat, s: nat, e: nat) {
    forall f :: s <= f < e ==> DirectPage(hhdm, f) in maps && maps[DirectPage(hhdm, f)] == Mapping(f, true, false)
  }

  /** Mapping one more frame into the direct map disturbs no frame already there. */
  lemma {:induction false} MirrorMore(maps: map<nat, Mapping>, hhdm: nat, s: nat, e: nat, f: nat)
    requires hhdm % 4096 == 0 && f < WINDOW && e <= WINDOW && Mirrored(maps, hhdm, s, e)
    ensures Mirrored(maps[DirectPage(hhdm, f) := Mapping(f, true, false)], hhdm, s, e)
    ensures f == e ==> Mirrored(maps[DirectPage(hhdm, f) := Mapping(f, true, false)], hhdm, s, e + 1)
  {
    forall g | s <= g < e && DirectPage(hhdm, g) == DirectPage(hhdm, f) ensures g == f {
      DirectPagesDiffer(hhdm, f, g);
    }
  }

  /** The rounded-out frame range of an entry. */
  function RangeFirst(e: Entry): nat {
    e.base / 4096
  }

  function RangeEnd(e: Entry): nat {
    (e.base + e.length + 4095) / 4096
  }

  ghost predicate AllMirrored(maps: map<nat, Mapping>, hhdm: nat, regions: seq<Entry>, k: nat)
    requires k <= |regions|
  {
    forall i :: 0 <= i < k ==> Mirrored(maps, hhdm, RangeFirst(regions[i]), RangeEnd(regions[i]))
  }

  /** The virtual page of page p of the image, whose addresses use bits above 47. */
  function ImagePage(p: nat): nat {
    p % WINDOW
  }

  /** Pages [first, end) of the image are mapped to the frames from `frame` on, with the given write right. */
  ghost predicate ImageMapped(maps: map<nat, Mapping>, first: nat, end: nat, frame: nat, write: bool) {
    forall p :: first <= p < end ==>
      ImagePage(p) in maps && maps[ImagePage(p)] == Mapping((frame + (p - first)) % FRAME_LIMIT, write, false)
  }

  /** The image shares no virtual page with the direct map. */
  ghost predicate Apart(hhdm: nat, top: nat, first: nat, end: nat) {
    forall f, p :: 0 <= f < top && first <= p < end ==> DirectPage(hhdm, f) != ImagePage(p)
  }

  lemma {:induction false} ImageMore(maps: map<nat, Mapping>, hhdm: nat, regions: seq<Entry>, top: nat, p: nat,
                                     m: Mapping)
    requires AllMirrored(maps, hhdm, regions, |regions|) && Apart(hhdm, top, p, p + 1)
    requires forall i :: 0 <= i < |regions| ==> RangeEnd(regions[i]) <= top
    ensures AllMirrored(maps[ImagePage(p) := m], hhdm, regions, |regions|)
  {
  }

  lemma {:induction false} ImageGrows(maps: map<nat, Mapping>, first: nat, end: nat, frame: nat, write: bool)
    requires first <= end && end - first < WINDOW && ImageMapped(maps, first, end, frame, write)
    ensures ImageMapped(maps[ImagePage(end) := Mapping((frame + (end - first)) % FRAME_LIMIT, write, false)],
                        first, end + 1, frame, write)
  {
    forall p | first <= p < end ensures ImagePage(p) != ImagePage(end) {
      if ImagePage(p) == ImagePage(end) { SameResidue(p, end); }
    }
  }

  lemma {:induction false} ImageKept(maps: map<nat, Mapping>, first: nat, end: nat, frame: nat, write: bool, q: nat,
                                     m: Mapping)
    requires first <= end <= q < first + WINDOW && ImageMapped(maps, first, end, frame, write)
    ensures ImageMapped(maps[ImagePage(q) := m], first, end, frame, write)
  {
    forall p | first <= p < end ensures ImagePage(p) != ImagePage(q) {
      if ImagePage(p) == ImagePage(q) { SameResidue(p, q); }
    }
  }

  // ---- what the finished map means for addresses -------------------------------------------------

  /** Frame base b lies in the range of an entry, rounded out to whole frames. */
  predicate Reaches(e: Entry, b: nat) {
    b % 4096 == 0 && e.base < b + 4096 && b < e.base + e.length
  }

  /** Every byte of every frame that an entry of the memory map reaches is found at its physical address plus
      the direct-map offset, for writing, and out of ring 3's reach. */
  lemma {:induction false} DirectMapWorks(w: Ram, s: Space, hhdm: nat, regions: seq<Entry>, k: nat, a: nat)
    requires SpaceOk(w, s) && hhdm % 4096 == 0 && k < |regions| && AllMirrored(s.maps, hhdm, regions, |regions|)
    requires Reaches(regions[k], a - a % 4096)
    ensures ROOT in s.tables
    ensures var r := HardwareWalk(w, Addr(s.tables[ROOT].frame), hhdm + a);
      r.Some? && r.value.phys == a && r.value.write && !r.value.user
  {
    hide SpaceOk, HardwareWalk, PageOf, DirectPage;
    InRange(regions[k], a);
    hide RangeFirst, RangeEnd;
    WalkIsLookup(w, s, hhdm + a);
    SamePlace(hhdm, a);
    assert Mirrored(s.maps, hhdm, RangeFirst(regions[k]), RangeEnd(regions[k]));
  }

  lemma InRange(e: Entry, a: nat)
    requires Reaches(e, a - a % 4096)
    ensures RangeFirst(e) <= FrameOf(a) < RangeEnd(e)
  {
  }

  lemma SamePlace(hhdm: nat, a: nat)
    requires hhdm % 4096 == 0
    ensures PageOf(hhdm + a) == DirectPage(hhdm, FrameOf(a)) && (hhdm + a) % 4096 == a % 4096
  {
    assert (hhdm + a) / 4096 == hhdm / 4096 + FrameOf(a) == (hhdm + Addr(FrameOf(a))) / 4096;
  }

  /** Every byte of the image is reachable where it was linked, with the right of its half. */
  lemma {:induction false} ImageWorks(w: Ram, s: Space, first: nat, end: nat, frame: nat, write: bool, v: nat)
    requires SpaceOk(w, s) && ImageMapped(s.maps, first, end, frame, write)
    requires first <= v / 4096 < end && frame + (end - first) <= FRAME_LIMIT
    ensures ROOT in s.tables
    ensures var r := HardwareWalk(w, Addr(s.tables[ROOT].frame), v);
      r.Some? && r.value.phys == v - Addr(first) + Addr(frame) && r.value.write == write && !r.value.user
  {
    WalkIsLookup(w, s, v);
    var p := v / 4096;
    assert PageOf(v) == ImagePage(p);
    MulModPlus(0, FRAME_LIMIT, frame + (p - first));
  }

  // ---- the loops -----------------------------------------------------------------------------------

  /** One range of the direct map, page by page. */
  method MapHhdmRange(a: AddressSpace, base: nat, length: nat, ghost regions: seq<Entry>, ghost k: nat,
                      ghost before: seq<bool>, ghost pages: set<nat>)
    returns (ok: bool)
    requires a.Valid() && a.hhdm % 4096 == 0 && k < |regions|
    requires base == regions[k].base && length == regions[k].length
    requires base + length + 4095 < Pow2(64)
    requires forall i :: 0 <= i < |regions| ==> RangeEnd(regions[i]) <= WINDOW
    requires AllMirrored(a.space.maps, a.hhdm, regions, k)
    requires Built(before, a.pmm.used, a.space, pages) && RangeIn(a.hhdm, regions[k], pages)
    modifies a`space, a.mem, a.pmm, a.pmm.bitmap
    ensures a.Valid() && a.pmm.bitmap == old(a.pmm.bitmap) && a.pmm.usableFrames == old(a.pmm.usableFrames)
    ensures Built(before, a.pmm.used, a.space, pages)
    ensures ok ==> AllMirrored(a.space.maps, a.hhdm, regions, k + 1)
    ensures !ok ==> FirstFree(a.pmm.used, 0) == |a.pmm.used| && Unserved(a.space, pages)
  {
    hide SpaceOk, TablesTaken, Shows, CountFree, FirstFree, And, Pow2, Mirrored, DirectPage, Has, Grown, Built;
    hide Unserved, PathNode, RangeIn, PageOf;
    RoundedRange(base, length);
    var start, end := And(base, Pow2(64) - 4096), And(base + length + 4095, Pow2(64) - 4096);
    ghost var s, e := RangeFirst(regions[k]), RangeEnd(regions[k]);
    WriteOnly();
    NothingMirrored(a.space.maps, a.hhdm, s);
    var p := start;
    while p < end
      invariant start <= p && p % 4096 == 0 && FrameOf(p) <= (if s <= e then e else s)
      invariant a.Valid() && a.pmm.bitmap == old(a.pmm.bitmap) && a.pmm.usableFrames == old(a.pmm.usableFrames)
      invariant Built(before, a.pmm.used, a.space, pages)
      invariant AllMirrored(a.space.maps, a.hhdm, regions, k)
      invariant Mirrored(a.space.maps, a.hhdm, s, FrameOf(p))
      decreases end - p
    {
      ghost var maps := a.space.maps;
      ghost var used, was, w := a.pmm.used, a.space, a.mem.w;
      ok := a.Map(p + a.hhdm, p, VM_WRITE);
      DirectPlace(a.hhdm, regions[k], p, pages);
      BuiltMore(before, used, a.pmm.used, w, a.mem.w, was, a.space, pages, PageOf(p + a.hhdm), false);
      if !ok {
        LeftUnserved(a.space, pages, PageOf(p + a.hhdm));
        return false;
      }
      MirrorAll(maps, a.hhdm, regions, k, s, p);
      p := p + 4096;
    }
    ok := true;
  }

  lemma DirectPlace(hhdm: nat, e: Entry, p: nat, pages: set<nat>)
    requires hhdm % 4096 == 0 && RangeIn(hhdm, e, pages) && RangeFirst(e) <= FrameOf(p) < RangeEnd(e)
    ensures PageOf(p + hhdm) in pages
  {
    SamePlace(hhdm, p);
    hide PageOf, DirectPage, RangeFirst, RangeEnd;
  }

  lemma ImagePlace(first: nat, end: nat, v: nat, pages: set<nat>)
    requires ImageIn(first, end, pages) && first <= FrameOf(v) < end
    ensures PageOf(v) in pages
  {
    assert PageOf(v) == ImagePage(FrameOf(v));
  }

  lemma LeftUnserved(s: Space, pages: set<nat>, page: nat)
    requires page in pages && PathNode(page, 0) !in s.tables
    ensures Unserved(s, pages)
  {
  }

  lemma WriteOnly()
    ensures Has(VM_WRITE, VM_WRITE) && !Has(VM_WRITE, VM_USER)
    ensures !Has(0, VM_WRITE) && !Has(0, VM_USER)
  {
  }

  lemma NothingMirrored(maps: map<nat, Mapping>, hhdm: nat, s: nat)
    ensures Mirrored(maps, hhdm, s, s)
  {
  }

  lemma FourKIsPow2()
    ensures Pow2(12) == 4096
  {
  }

  lemma RoundedDown(x: nat)
    requires x < Pow2(64)
    ensures 4096 <= Pow2(64) && And(x, Pow2(64) - 4096) == Addr(x / 4096)
  {
    FourKIsPow2();
    hide And, Pow2;
    AndHighMask(x, 12, 64);
  }

  lemma RoundedRange(base: nat, length: nat)
    requires base + length + 4095 < Pow2(64)
    ensures 4096 <= Pow2(64)
    ensures And(base, Pow2(64) - 4096) == Addr(base / 4096)
    ensures And(base + length + 4095, Pow2(64) - 4096) == Addr((base + length + 4095) / 4096)
  {
    hide And, Pow2, Addr;
    RoundedDown(base);
    RoundedDown(base + length + 4095);
  }

  lemma MirrorAll(maps: map<nat, Mapping>, hhdm: nat, regions: seq<Entry>, k: nat, s: nat, p: nat)
    requires hhdm % 4096 == 0 && p % 4096 == 0 && FrameOf(p) < WINDOW && k < |regions|
    requires forall i :: 0 <= i < |regions| ==> RangeEnd(regions[i]) <= WINDOW
    requires AllMirrored(maps, hhdm, regions, k) && Mirrored(maps, hhdm, s, FrameOf(p))
    requires Has(VM_WRITE, VM_WRITE) && !Has(VM_WRITE, VM_USER)
    ensures var now := maps[PageOf(p + hhdm) := MappingFor(p, VM_WRITE)];
      AllMirrored(now, hhdm, regions, k) && Mirrored(now, hhdm, s, FrameOf(p) + 1)
  {
    hide Mirrored, Has;
    var f := FrameOf(p);
    assert PageOf(p + hhdm) == DirectPage(hhdm, f) && MappingFor(p, VM_WRITE) == Mapping(f, true, false);
    MirrorMore(maps, hhdm, s, f, f);
    forall i | 0 <= i < k
      ensures Mirrored(maps[DirectPage(hhdm, f) := Mapping(f, true, false)], hhdm, RangeFirst(regions[i]),
                       RangeEnd(regions[i]))
    {
      MirrorMore(maps, hhdm, RangeFirst(regions[i]), RangeEnd(regions[i]), f);
    }
  }

  /** Half of the kernel image, page by page. */
  method MapKernelRange(a: AddressSpace, virtStart: nat, virtEnd: nat, virtualBase: nat, physicalBase: nat, flags: nat,
                        ghost regions: seq<Entry>, ghost top: nat, ghost done: nat, ghost doneFrame: nat,
                        ghost before: seq<bool>, ghost pages: set<nat>)
    returns (ok: bool)
    requires a.Valid() && a.hhdm % 4096 == 0
    requires flags == 0 || flags == VM_WRITE
    requires virtStart % 4096 == 0 && virtEnd % 4096 == 0 && virtualBase % 4096 == 0 && physicalBase % 4096 == 0
    requires virtualBase <= virtStart <= virtEnd
    requires Addr(done) <= virtStart && virtEnd - Addr(done) <= Addr(WINDOW)
    requires forall i :: 0 <= i < |regions| ==> RangeEnd(regions[i]) <= top
    requires AllMirrored(a.space.maps, a.hhdm, regions, |regions|)
    requires Apart(a.hhdm, top, FrameOf(virtStart), FrameOf(virtEnd))
    requires ImageMapped(a.space.maps, done, FrameOf(virtStart), doneFrame, false)
    requires Built(before, a.pmm.used, a.space, pages) && ImageIn(FrameOf(virtStart), FrameOf(virtEnd), pages)
    modifies a`space, a.mem, a.pmm, a.pmm.bitmap
    ensures a.Valid() && a.pmm.bitmap == old(a.pmm.bitmap) && a.pmm.usableFrames == old(a.pmm.usableFrames)
    ensures Built(before, a.pmm.used, a.space, pages)
    ensures ok ==>
      && AllMirrored(a.space.maps, a.hhdm, regions, |regions|)
      && ImageMapped(a.space.maps, done, FrameOf(virtStart), doneFrame, false)
      && ImageMapped(a.space.maps, FrameOf(virtStart), FrameOf(virtEnd),
                     FrameOf(virtStart - virtualBase + physicalBase), flags == VM_WRITE)
    ensures !ok ==> FirstFree(a.pmm.used, 0) == |a.pmm.used| && Unserved(a.space, pages)
  {
    hide SpaceOk, TablesTaken, Shows, CountFree, FirstFree, Has, AllMirrored, ImageMapped, Apart, Grown, Built;
    hide Unserved, PathNode, ImageIn, PageOf, ImagePage;
    ghost var first, frame := FrameOf(virtStart), FrameOf(virtStart - virtualBase + physicalBase);
    WriteOnly();
    NoImage(a.space.maps, first, frame, flags == VM_WRITE);
    var v := virtStart;
    while v < virtEnd
      invariant virtStart <= v <= virtEnd && v % 4096 == 0
      invariant a.Valid() && a.pmm.bitmap == old(a.pmm.bitmap) && a.pmm.usableFrames == old(a.pmm.usableFrames)
      invariant Built(before, a.pmm.used, a.space, pages)
      invariant AllMirrored(a.space.maps, a.hhdm, regions, |regions|)
      invariant ImageMapped(a.space.maps, done, first, doneFrame, false)
      invariant ImageMapped(a.space.maps, first, FrameOf(v), frame, flags == VM_WRITE)
      decreases virtEnd - v
    {
      var phys := v - virtualBase + physicalBase;
      ghost var maps := a.space.maps;
      ghost var used, was, w := a.pmm.used, a.space, a.mem.w;
      ok := a.Map(v, phys, flags);
      ImagePlace(FrameOf(virtStart), FrameOf(virtEnd), v, pages);
      BuiltMore(before, used, a.pmm.used, w, a.mem.w, was, a.space, pages, PageOf(v), false);
      if !ok {
        LeftUnserved(a.space, pages, PageOf(v));
        return false;
      }
      ImageStep(maps, a.hhdm, regions, top, done, doneFrame, first, FrameOf(virtEnd), frame, v, phys, flags);
      v := v + 4096;
    }
    ok := true;
  }

  lemma NoImage(maps: map<nat, Mapping>, first: nat, frame: nat, write: bool)
    ensures ImageMapped(maps, first, first, frame, write)
  {
  }

  lemma ImageStep(maps: map<nat, Mapping>, hhdm: nat, regions: seq<Entry>, top: nat, done: nat, doneFrame: nat,
                  first: nat, end: nat, frame: nat, v: nat, phys: nat, flags: nat)
    requires forall i :: 0 <= i < |regions| ==> RangeEnd(regions[i]) <= top
    requires AllMirrored(maps, hhdm, regions, |regions|) && Apart(hhdm, top, first, end)
    requires done <= first <= FrameOf(v) < end <= done + WINDOW && v % 4096 == 0 && phys % 4096 == 0
    requires FrameOf(phys) == frame + (FrameOf(v) - first)
    requires ImageMapped(maps, done, first, doneFrame, false)
    requires ImageMapped(maps, first, FrameOf(v), frame, flags == VM_WRITE)
    requires (Has(flags, VM_WRITE) <==> flags == VM_WRITE) && !Has(flags, VM_USER)
    ensures var now := maps[PageOf(v) := MappingFor(phys, flags)];
      && AllMirrored(now, hhdm, regions, |regions|)
      && ImageMapped(now, done, first, doneFrame, false)
      && ImageMapped(now, first, FrameOf(v) + 1, frame, flags == VM_WRITE)
  {
    hide Has, AllMirrored, ImageMapped;
    var p := FrameOf(v);
    var m := Mapping((frame + (p - first)) % FRAME_LIMIT, flags == VM_WRITE, false);
    assert PageOf(v) == ImagePage(p) && MappingFor(phys, flags) == m;
    assert Apart(hhdm, top, p, p + 1);
    ImageMore(maps, hhdm, regions, top, p, m);
    ImageKept(maps, done, first, doneFrame, false, p, m);
    ImageGrows(maps, first, p, frame, flags == VM_WRITE);
  }

  /** The direct map of every entry and the two halves of the kernel image. */
  ghost predicate KernelMapped(maps: map<nat, Mapping>, hhdm: nat, regions: seq<Entry>, virtualBase: nat,
                               physicalBase: nat, kernelStart: nat, dataStart: nat, kernelEnd: nat)
    requires virtualBase <= kernelStart <= dataStart
  {
    && AllMirrored(maps, hhdm, regions, |regions|)
    && ImageMapped(maps, FrameOf(kernelStart), FrameOf(dataStart),
                   FrameOf(kernelStart - virtualBase + physicalBase), false)
    && ImageMapped(maps, FrameOf(dataStart), FrameOf(kernelEnd),
                   FrameOf(dataStart - virtualBase + physicalBase), true)
  }

  /** The whole map: memory at its place in the direct map, and the kernel where it is linked, its code not
      for writing, its data for writing. */
  lemma {:induction false} KernelWorks(w: Ram, s: Space, hhdm: nat, regions: seq<Entry>, virtualBase: nat,
                                       physicalBase: nat, kernelStart: nat, dataStart: nat, kernelEnd: nat, v: nat)
    requires SpaceOk(w, s) && virtualBase <= kernelStart <= dataStart <= kernelEnd <= virtualBase + Addr(WINDOW)
    requires kernelStart % 4096 == 0 && dataStart % 4096 == 0 && kernelEnd % 4096 == 0
    requires virtualBase % 4096 == 0 && physicalBase % 4096 == 0 && kernelStart <= v < kernelEnd
    requires FrameOf(physicalBase) + WINDOW <= FRAME_LIMIT
    requires KernelMapped(s.maps, hhdm, regions, virtualBase, physicalBase, kernelStart, dataStart, kernelEnd)
    ensures ROOT in s.tables
    ensures var r := HardwareWalk(w, Addr(s.tables[ROOT].frame), v);
      && r.Some? && r.value.phys == v - virtualBase + physicalBase
      && (r.value.write <==> v >= dataStart) && !r.value.user
  {
    hide SpaceOk, HardwareWalk, ImageMapped, AllMirrored;
    var first := if v < dataStart then kernelStart else dataStart;
    var end := if v < dataStart then dataStart else kernelEnd;
    var frame := FrameOf(first - virtualBase + physicalBase);
    ImagePlaces(virtualBase, physicalBase, first, end, v);
    assert ImageMapped(s.maps, FrameOf(first), FrameOf(end), frame, v >= dataStart);
    hide FrameOf, KernelMapped;
    ImageWorks(w, s, FrameOf(first), FrameOf(end), frame, v >= dataStart, v);
  }

  lemma ImagePlaces(virtualBase: nat, physicalBase: nat, first: nat, end: nat, v: nat)
    requires virtualBase <= first <= v < end <= virtualBase + Addr(WINDOW)
    requires first % 4096 == 0 && end % 4096 == 0 && virtualBase % 4096 == 0 && physicalBase % 4096 == 0
    ensures FrameOf(first) <= v / 4096 < FrameOf(end)
    ensures var frame := FrameOf(first - virtualBase + physicalBase);
      && frame + (FrameOf(end) - FrameOf(first)) <= FrameOf(physicalBase) + WINDOW
      && v - Addr(FrameOf(first)) + Addr(frame) == v - virtualBase + physicalBase
  {
  }

  // ---- which pages, and how many tables they take ---------------------------------------------------

  ghost predicate RangeIn(hhdm: nat, e: Entry, pages: set<nat>) {
    forall f :: RangeFirst(e) <= f < RangeEnd(e) ==> DirectPage(hhdm, f) in pages
  }

  ghost predicate ImageIn(first: nat, end: nat, pages: set<nat>) {
    forall p :: first <= p < end ==> ImagePage(p) in pages
  }

  /** The virtual pages vmm_init maps: every frame of every entry in the direct map, and the image. */
  function KernelPages(hhdm: nat, regions: seq<Entry>, first: nat, end: nat): set<nat> {
    (set i, f | 0 <= i < |regions| && RangeFirst(regions[i]) <= f < RangeEnd(regions[i]) :: DirectPage(hhdm, f))
    + (set p | first <= p < end :: ImagePage(p))
  }

  lemma PagesIn(hhdm: nat, regions: seq<Entry>, first: nat, mid: nat, end: nat)
    requires first <= mid <= end
    ensures var pages := KernelPages(hhdm, regions, first, end);
      && (forall i :: 0 <= i < |regions| ==> RangeIn(hhdm, regions[i], pages))
      && ImageIn(first, mid, pages) && ImageIn(mid, end, pages)
  {
    hide DirectPage, ImagePage, RangeFirst, RangeEnd;
  }

  lemma AllPagesMapped(maps: map<nat, Mapping>, hhdm: nat, regions: seq<Entry>, virtualBase: nat, physicalBase: nat,
                       kernelStart: nat, dataStart: nat, kernelEnd: nat)
    requires virtualBase <= kernelStart <= dataStart <= kernelEnd
    requires KernelMapped(maps, hhdm, regions, virtualBase, physicalBase, kernelStart, dataStart, kernelEnd)
    ensures forall p :: p in KernelPages(hhdm, regions, FrameOf(kernelStart), FrameOf(kernelEnd)) ==> p in maps
  {
    hide DirectPage, ImagePage, RangeFirst, RangeEnd;
  }

  /** Page p is the direct map's for a frame that some entry reaches. */
  ghost predicate MirrorsSome(hhdm: nat, regions: seq<Entry>, p: nat) {
    exists i, b: nat :: 0 <= i < |regions| && Reaches(regions[i], b) && p == PageOf(hhdm + b)
  }

  /** Page p is that of some address of the image. */
  ghost predicate InImage(kernelStart: nat, kernelEnd: nat, p: nat) {
    exists v: nat :: kernelStart <= v < kernelEnd && p == PageOf(v)
  }

  /** The pages of the frames that the entries reach, those of the image, and no others. */
  ghost predicate OnlyKernel(maps: map<nat, Mapping>, hhdm: nat, regions: seq<Entry>, kernelStart: nat,
                             kernelEnd: nat)
  {
    forall p: nat :: p in maps <==> MirrorsSome(hhdm, regions, p) || InImage(kernelStart, kernelEnd, p)
  }

  lemma MirrorsMean(hhdm: nat, regions: seq<Entry>, p: nat)
    ensures MirrorsSome(hhdm, regions, p) <==>
      exists i, f: nat :: 0 <= i < |regions| && RangeFirst(regions[i]) <= f < RangeEnd(regions[i])
                          && p == DirectPage(hhdm, f)
  {
    if MirrorsSome(hhdm, regions, p) {
      var i, b: nat :| 0 <= i < |regions| && Reaches(regions[i], b) && p == PageOf(hhdm + b);
      FrameReached(regions[i], FrameOf(b));
      assert p == DirectPage(hhdm, FrameOf(b));
    }
    if i, f: nat :| 0 <= i < |regions| && RangeFirst(regions[i]) <= f < RangeEnd(regions[i])
                    && p == DirectPage(hhdm, f)
    {
      FrameReached(regions[i], f);
      assert p == PageOf(hhdm + Addr(f));
    }
  }

  lemma ImageMeans(kernelStart: nat, kernelEnd: nat, p: nat)
    requires kernelStart % 4096 == 0 && kernelEnd % 4096 == 0
    ensures InImage(kernelStart, kernelEnd, p) <==>
      exists q: nat :: FrameOf(kernelStart) <= q < FrameOf(kernelEnd) && p == ImagePage(q)
  {
    if InImage(kernelStart, kernelEnd, p) {
      var v: nat :| kernelStart <= v < kernelEnd && p == PageOf(v);
      assert FrameOf(kernelStart) <= FrameOf(v) < FrameOf(kernelEnd) && p == ImagePage(FrameOf(v));
    }
    if q: nat :| FrameOf(kernelStart) <= q < FrameOf(kernelEnd) && p == ImagePage(q) {
      ImageAddress(kernelStart, kernelEnd, q);
    }
  }

  lemma {:induction false} PagesMean(hhdm: nat, regions: seq<Entry>, kernelStart: nat, kernelEnd: nat, p: nat)
    requires kernelStart % 4096 == 0 && kernelEnd % 4096 == 0
    ensures p in KernelPages(hhdm, regions, FrameOf(kernelStart), FrameOf(kernelEnd)) <==>
            MirrorsSome(hhdm, regions, p) || InImage(kernelStart, kernelEnd, p)
  {
    MirrorsMean(hhdm, regions, p);
    ImageMeans(kernelStart, kernelEnd, p);
    hide RangeFirst, RangeEnd, DirectPage, ImagePage, FrameOf, MirrorsSome, InImage;
  }

  lemma FrameReached(e: Entry, f: nat)
    ensures Reaches(e, Addr(f)) <==> RangeFirst(e) <= f < RangeEnd(e)
  {
  }

  lemma ImageAddress(kernelStart: nat, kernelEnd: nat, q: nat)
    requires kernelStart % 4096 == 0 && kernelEnd % 4096 == 0
    requires FrameOf(kernelStart) <= q < FrameOf(kernelEnd)
    ensures kernelStart <= Addr(q) < kernelEnd && ImagePage(q) == PageOf(Addr(q))
  {
  }

  lemma NothingElse(before: seq<bool>, now: seq<bool>, s: Space, hhdm: nat, regions: seq<Entry>, kernelStart: nat,
                    kernelEnd: nat)
    requires kernelStart % 4096 == 0 && kernelEnd % 4096 == 0
    requires var pages := KernelPages(hhdm, regions, FrameOf(kernelStart), FrameOf(kernelEnd));
      Built(before, now, s, pages) && forall p :: p in pages ==> p in s.maps
    ensures OnlyKernel(s.maps, hhdm, regions, kernelStart, kernelEnd)
  {
    var pages := KernelPages(hhdm, regions, FrameOf(kernelStart), FrameOf(kernelEnd));
    assert s.maps.Keys == pages;
    hide KernelPages, Built, MirrorsSome, InImage;
    forall p: nat ensures p in s.maps <==> MirrorsSome(hhdm, regions, p) || InImage(kernelStart, kernelEnd, p) {
      PagesMean(hhdm, regions, kernelStart, kernelEnd, p);
    }
  }

  /** So the processor finds nothing anywhere else: not a frame behind an entry's end, for one. */
  lemma {:induction false} TranslatesIff(w: Ram, s: Space, hhdm: nat, regions: seq<Entry>, kernelStart: nat,
                                         kernelEnd: nat, v: nat)
    requires SpaceOk(w, s) && OnlyKernel(s.maps, hhdm, regions, kernelStart, kernelEnd)
    ensures ROOT in s.tables
    ensures HardwareWalk(w, Addr(s.tables[ROOT].frame), v).Some? <==>
            MirrorsSome(hhdm, regions, PageOf(v)) || InImage(kernelStart, kernelEnd, PageOf(v))
  {
    hide SpaceOk, HardwareWalk, PageOf, MirrorsSome, InImage;
    WalkIsLookup(w, s, v);
  }

  /** The mapping part of vmm_init: a zeroed top-level table, the direct map of every region the boot
      loader reports, then the image, read-only below the data and writable from there on. Null stands
      for the panic when frames run out, which happens just when fewer are free than tables are needed. */
  method Init(pmm: Pmm, mem: Memory, regions: seq<Entry>, hhdm: nat, virtualBase: nat, physicalBase: nat,
              kernelStart: nat, dataStart: nat, kernelEnd: nat, ghost top: nat) returns (a: AddressSpace?)
    requires pmm.Valid() && |pmm.used| <= FRAME_LIMIT && hhdm % 4096 == 0
    requires kernelStart % 4096 == 0 && dataStart % 4096 == 0 && kernelEnd % 4096 == 0
    requires virtualBase % 4096 == 0 && physicalBase % 4096 == 0
    requires virtualBase <= kernelStart <= dataStart <= kernelEnd && kernelEnd - kernelStart <= Addr(WINDOW)
    requires top <= WINDOW
    requires forall i :: 0 <= i < |regions| ==>
      regions[i].base + regions[i].length + 4095 < Pow2(64) && RangeEnd(regions[i]) <= top
    requires Apart(hhdm, top, FrameOf(kernelStart), FrameOf(kernelEnd))
    modifies mem, pmm, pmm.bitmap
    ensures pmm.Valid() && pmm.bitmap == old(pmm.bitmap) && pmm.usableFrames == old(pmm.usableFrames)
    ensures a == null ==> FirstFree(pmm.used, 0) == |pmm.used|
    ensures a == null <==>
      CountFree(old(pmm.used)) < |PathTables(KernelPages(hhdm, regions, FrameOf(kernelStart), FrameOf(kernelEnd)))|
    ensures a != null ==> TookForTables(old(pmm.used), pmm.used, NO_SPACE, a.space)
    ensures a != null ==>
      && fresh(a) && a.Valid() && a.hhdm == hhdm && a.mem == mem && a.pmm == pmm
      && KernelMapped(a.space.maps, hhdm, regions, virtualBase, physicalBase, kernelStart, dataStart, kernelEnd)
      && OnlyKernel(a.space.maps, hhdm, regions, kernelStart, kernelEnd)
  {
    hide SpaceOk, TablesTaken, TookForTables, Shows, CountFree, FirstFree, KernelMapped, Apart, Pow2, RangeEnd, Zeroed;
    hide OnlyKernel, KernelPages, PathTables, Built, Unserved, AllMirrored;
    ghost var before := pmm.used;
    ghost var pages := KernelPages(hhdm, regions, FrameOf(kernelStart), FrameOf(kernelEnd));
    FoundFree(before);
    var pml4 := pmm.AllocFrame();
    if pml4 == 0 {
      NoneForRoot(before, pages);
      return null;
    }
    ZeroFrame(mem, pml4);
    ZeroedTable(old(mem.w), mem.w, FrameOf(pml4));
    var space := new AddressSpace(mem, pmm, hhdm, pml4);
    NoRegions(space.space.maps, hhdm, regions);
    RootTaken(before, pmm.used, FrameOf(pml4), pages);
    var ok := MapAll(space, regions, virtualBase, physicalBase, kernelStart, dataStart, kernelEnd, top, before, pages);
    if !ok {
      RanOut(mem.w, before, pmm.used, space.space, pages);
      return null;
    }
    AllPagesMapped(space.space.maps, hhdm, regions, virtualBase, physicalBase, kernelStart, dataStart, kernelEnd);
    Sufficed(mem.w, before, pmm.used, space.space, pages);
    NothingElse(before, pmm.used, space.space, hhdm, regions, kernelStart, kernelEnd);
    a := space;
  }

  /** All the mapping loops, over a space that has its top-level table only. */
  method MapAll(a: AddressSpace, regions: seq<Entry>, virtualBase: nat, physicalBase: nat, kernelStart: nat,
                dataStart: nat, kernelEnd: nat, ghost top: nat, ghost before: seq<bool>, ghost pages: set<nat>)
    returns (ok: bool)
    requires a.Valid() && a.hhdm % 4096 == 0 && AllMirrored(a.space.maps, a.hhdm, regions, 0)
    requires kernelStart % 4096 == 0 && dataStart % 4096 == 0 && kernelEnd % 4096 == 0
    requires virtualBase % 4096 == 0 && physicalBase % 4096 == 0
    requires virtualBase <= kernelStart <= dataStart <= kernelEnd && kernelEnd - kernelStart <= Addr(WINDOW)
    requires top <= WINDOW
    requires forall i :: 0 <= i < |regions| ==>
      regions[i].base + regions[i].length + 4095 < Pow2(64) && RangeEnd(regions[i]) <= top
    requires Apart(a.hhdm, top, FrameOf(kernelStart), FrameOf(kernelEnd))
    requires Built(before, a.pmm.used, a.space, pages)
    requires pages == KernelPages(a.hhdm, regions, FrameOf(kernelStart), FrameOf(kernelEnd))
    modifies a`space, a.mem, a.pmm, a.pmm.bitmap
    ensures a.Valid() && a.pmm.bitmap == old(a.pmm.bitmap) && a.pmm.usableFrames == old(a.pmm.usableFrames)
    ensures Built(before, a.pmm.used, a.space, pages)
    ensures !ok ==> FirstFree(a.pmm.used, 0) == |a.pmm.used| && Unserved(a.space, pages)
    ensures ok ==>
      KernelMapped(a.space.maps, a.hhdm, regions, virtualBase, physicalBase, kernelStart, dataStart, kernelEnd)
  {
    hide SpaceOk, TablesTaken, Shows, CountFree, FirstFree, AllMirrored, ImageMapped, Apart, Pow2, RangeEnd, RangeIn;
    hide ImageIn, KernelPages, Built, Unserved;
    ghost var first, mid, end := FrameOf(kernelStart), FrameOf(dataStart), FrameOf(kernelEnd);
    ghost var frame := FrameOf(kernelStart - virtualBase + physicalBase);
    PagesIn(a.hhdm, regions, first, mid, end);
    RangesFit(regions, top);
    for i := 0 to |regions|
      invariant a.Valid() && a.pmm.bitmap == old(a.pmm.bitmap) && a.pmm.usableFrames == old(a.pmm.usableFrames)
      invariant Built(before, a.pmm.used, a.space, pages)
      invariant AllMirrored(a.space.maps, a.hhdm, regions, i)
    {
      ok := MapHhdmRange(a, regions[i].base, regions[i].length, regions, i, before, pages);
      if !ok {
        return false;
      }
    }
    NoImage(a.space.maps, first, frame, false);
    ApartParts(a.hhdm, top, first, mid, end);
    ok := MapKernelRange(a, kernelStart, dataStart, virtualBase, physicalBase, 0, regions, top, first, frame,
                         before, pages);
    if !ok {
      return false;
    }
    ok := MapKernelRange(a, dataStart, kernelEnd, virtualBase, physicalBase, VM_WRITE, regions, top, first, frame,
                         before, pages);
  }

  lemma NoneForRoot(before: seq<bool>, pages: set<nat>)
    requires FirstFree(before, 0) == |before|
    ensures CountFree(before) < |PathTables(pages)|
  {
    NoneLeft(before);
    assert ROOT in PathTables(pages);
  }

  lemma RanOut(w: Ram, before: seq<bool>, now: seq<bool>, s: Space, pages: set<nat>)
    requires SpaceOk(w, s) && Built(before, now, s, pages) && FirstFree(now, 0) == |now| && Unserved(s, pages)
    ensures CountFree(before) < |PathTables(pages)|
  {
    NoneLeft(now);
    TooFew(before, now, s, pages);
  }

  lemma Sufficed(w: Ram, before: seq<bool>, now: seq<bool>, s: Space, pages: set<nat>)
    requires SpaceOk(w, s) && Built(before, now, s, pages) && forall p :: p in pages ==> p in s.maps
    ensures CountFree(before) >= |PathTables(pages)| && TookForTables(before, now, NO_SPACE, s)
  {
    AllServed(w, s, pages);
    BuiltCounts(before, now, s, pages);
  }

  lemma RootTaken(before: seq<bool>, now: seq<bool>, f: nat, pages: set<nat>)
    requires f < |before| && !before[f] && now == before[f := true]
    ensures Built(before, now, Space(map[ROOT := Table(f, true)], map[]), pages)
  {
    var t := Space(map[ROOT := Table(f, true)], map[]);
    assert t.tables[ROOT].frame == f;
  }

  lemma ZeroedTable(w: Ram, after: Ram, f: nat)
    requires Zeroed(w, after, f, 512)
    ensures forall i: nat :: i < 512 ==> Load(after, SlotOf(f, i)) == 0
  {
  }

  lemma NoRegions(maps: map<nat, Mapping>, hhdm: nat, regions: seq<Entry>)
    ensures AllMirrored(maps, hhdm, regions, 0)
  {
  }

  lemma RangesFit(regions: seq<Entry>, top: nat)
    requires top <= WINDOW && forall i :: 0 <= i < |regions| ==> RangeEnd(regions[i]) <= top
    ensures forall i :: 0 <= i < |regions| ==> RangeEnd(regions[i]) <= WINDOW
  {
  }

  lemma ApartParts(hhdm: nat, top: nat, first: nat, mid: nat, end: nat)
    requires first <= mid <= end && Apart(hhdm, top, first, end)
    ensures Apart(hhdm, top, first, mid) && Apart(hhdm, top, mid, end)
  {
  }
}
