/** The binary buddy allocator: one intrusive doubly linked free list per order. */
module BuddyAllocator {
  import opened Bits
  import opened PhysicalMemory
  import opened BuddyBlocks
  import opened BuddyLists
  import opened BuddyLinks
  import opened BuddyRuns
  import BuddySeed
  import opened BuddyClaims
  import opened FrameBits
  import opened PhysicalFrames

  /** Bytes of one block of order o. */
  function BlockBytes(o: nat): nat {
    Addr(Pow2(o))
  }

  lemma BuddyAddress(frame: nat, order: nat)
    ensures Xor(Addr(frame), BlockBytes(order)) == Addr(Xor(frame, Pow2(order)))
  {
    assert Pow2(12) == 4096;
    XorScale(frame, Pow2(order), 12);
  }

  lemma TouchedInOrder(w: Ram, mid: Ram, after: Ram, some: Lists, more: Lists, all: Lists)
    requires OnlyFreeTouched(w, mid, some) && OnlyFreeTouched(mid, after, more)
    requires forall f :: IsFree(some, f) ==> IsFree(all, f)
    requires forall f :: IsFree(more, f) ==> IsFree(all, f)
    ensures OnlyFreeTouched(w, after, all)
  {
  }

  lemma TouchedByPush(w: Ram, mid: Ram, after: Ram, lists: Lists, order: nat, frame: nat)
    requires order < |lists| && OnlyFreeTouched(w, mid, lists)
    requires OnlyFreeTouched(mid, after, Push(lists, order, frame))
    ensures OnlyFreeTouched(w, after, Push(lists, order, frame))
  {
    PushListed(lists, Block(frame, order));
    forall f | IsFree(lists, f) ensures IsFree(Push(lists, order, frame), f) {
      var b :| Listed(lists, b) && Covers(b, f);
      assert Listed(Push(lists, order, frame), b);
    }
    TouchedInOrder(w, mid, after, lists, Push(lists, order, frame), Push(lists, order, frame));
  }

  lemma TouchedBySeed(w: Ram, mid: Ram, after: Ram, lists: Lists, first: nat, end: nat)
    requires |lists| == MAX_ORDER + 1 && OnlyFreeTouched(w, mid, lists)
    requires OnlyFreeTouched(mid, after, BuddySeed.SeedRun(lists, first, end))
    ensures OnlyFreeTouched(w, after, BuddySeed.SeedRun(lists, first, end))
  {
    var now := BuddySeed.SeedRun(lists, first, end);
    BuddySeed.SeedPushes(lists, first, end);
    forall f | IsFree(lists, f) ensures IsFree(now, f) {
      var b :| Listed(lists, b) && Covers(b, f);
      assert Listed(now, b);
    }
    TouchedInOrder(w, mid, after, lists, now, now);
  }

  class Buddy {
    const mem: Memory
    const freeList: array<nat>
    const freeCount: array<nat>
    var hhdm: nat

    /** The abstract lists, and the blocks handed out and not yet returned. */
    ghost var lists: Lists
    ghost var live: set<Block>

    ghost function Repr(): set<object> {
      {this, mem, freeList, freeCount}
    }

    /** The in-memory lists say what `lists` says. */
    ghost predicate Threads()
      reads Repr()
    {
      && freeList != freeCount && freeList.Length == freeCount.Length == MAX_ORDER + 1
      && hhdm > 0
      && |lists| == MAX_ORDER + 1 && WellFormed(lists)
      && Linked(mem.w, hhdm, freeList[..], freeCount[..], lists)
    }

    ghost function Now(): State
      reads this
    {
      State(lists, live)
    }

    ghost predicate Valid()
      reads Repr()
    {
      Threads() && Sound(Now()) && !IsFree(lists, 0) && !IsLive(Now(), 0)
    }

    constructor (mem: Memory, hhdm: nat)
      requires hhdm > 0
      ensures Valid() && this.mem == mem && this.hhdm == hhdm
      ensures fresh(freeList) && fresh(freeCount)
      ensures lists == seq(MAX_ORDER + 1, _ => []) && live == {}
    {
      this.mem := mem;
      this.hhdm := hhdm;
      freeList := new nat[MAX_ORDER + 1](_ => 0);
      freeCount := new nat[MAX_ORDER + 1](_ => 0);
      lists := seq(MAX_ORDER + 1, _ => []);
      live := {};
      new;
      assert Linked(mem.w, hhdm, freeList[..], freeCount[..], lists);
    }

    method ListPush(order: nat, phys: nat)
      requires order <= MAX_ORDER
      requires Threads() && phys % 4096 == 0 && Fits(lists, Block(FrameOf(phys), order))
      modifies this`lists, mem, freeList, freeCount
      ensures Threads() && lists == Push(old(lists), order, FrameOf(phys))
      ensures OnlyFreeTouched(old(mem.w), mem.w, lists)
    {
      hide WellFormed, Linked, OnlyFreeTouched, Fits, Push;
      HeadSays(mem.w, hhdm, freeList[..], freeCount[..], lists, order);
      ghost var b := Block(FrameOf(phys), order);
      assert phys == Addr(b.base);
      PushLinks(mem.w, hhdm, freeList[..], freeCount[..], lists, b);
      var n, head := phys + hhdm, freeList[order];
      mem.w := Store(mem.w, n - hhdm + 8, 0);
      mem.w := Store(mem.w, n - hhdm, head);
      if head != 0 {
        mem.w := Store(mem.w, head - hhdm + 8, n);
      }
      freeList[order] := n;
      freeCount[order] := freeCount[order] + 1;
      lists := Push(lists, order, b.base);
      assert freeList[..] == old(freeList[..])[order := n];
      assert freeCount[..] == old(freeCount[..])[order := old(freeCount[order]) + 1];
    }

    method ListRemove(order: nat, n: nat)
      requires Threads() && order <= MAX_ORDER
      requires n >= hhdm && (n - hhdm) % 4096 == 0 && FrameOf(n - hhdm) in lists[order]
      modifies this`lists, mem, freeList, freeCount
      ensures Threads() && lists == Remove(old(lists), order, FrameOf(n - hhdm))
      ensures OnlyFreeTouched(old(mem.w), mem.w, old(lists))
    {
      hide WellFormed, Linked, OnlyFreeTouched, Remove;
      ghost var b := Block(FrameOf(n - hhdm), order);
      assert n - hhdm == Addr(b.base);
      UnlinkWhole(mem.w, hhdm, freeList[..], freeCount[..], lists, b);
      var next, prev := Load(mem.w, n - hhdm), Load(mem.w, n - hhdm + 8);
      if prev != 0 {
        mem.w := Store(mem.w, prev - hhdm, next);
      } else {
        freeList[order] := next;
      }
      if next != 0 {
        mem.w := Store(mem.w, next - hhdm + 8, prev);
      }
      freeCount[order] := freeCount[order] - 1;
      lists := Remove(lists, order, b.base);
      assert freeList[..] == if prev != 0 then old(freeList[..]) else old(freeList[..])[order := next];
      assert freeCount[..] == old(freeCount[..])[order := old(freeCount[order]) - 1];
    }

    method ListFind(order: nat, phys: nat) returns (n: nat)
      requires Threads() && order <= MAX_ORDER && phys % 4096 == 0
      ensures n == if FrameOf(phys) in lists[order] then phys + hhdm else 0
    {
      ghost var s, k := lists[order], 0;
      n := freeList[order];
      while n != 0
        invariant k <= |s| && n == (if k < |s| then Ptr(hhdm, s[k]) else 0)
        invariant FrameOf(phys) !in s[..k]
        decreases |s| - k
      {
        assert NodeAt(mem.w, hhdm, s, k);
        if n - hhdm == phys {
          return;
        }
        n := Load(mem.w, n - hhdm);
        k := k + 1;
      }
      assert s[..k] == s;
    }

    /** The search of buddy_alloc: the smallest order from `order` on with a block on its list. */
    method SmallestNonEmpty(order: nat) returns (o: nat)
      requires Threads() && order <= MAX_ORDER
      ensures order <= o <= MAX_ORDER + 1 && o == FirstNonEmpty(lists, order)
      ensures o <= MAX_ORDER ==> lists[o] != []
    {
      hide WellFormed, Linked;
      o := order;
      while o <= MAX_ORDER && freeList[o] == 0
        invariant order <= o <= MAX_ORDER + 1
        invariant FirstNonEmpty(lists, order) == FirstNonEmpty(lists, o)
      {
        HeadSays(mem.w, hhdm, freeList[..], freeCount[..], lists, o);
        o := o + 1;
      }
      if o <= MAX_ORDER {
        HeadSays(mem.w, hhdm, freeList[..], freeCount[..], lists, o);
      }
    }

    method Alloc(order: nat) returns (phys: nat)
      requires Valid()
      modifies this`lists, this`live, mem, freeList, freeCount
      ensures Valid()
      ensures var (after, got) := BuddyLists.Alloc(old(lists), order);
        && lists == after
        && phys == (if got.Some? then Addr(got.value) else 0)
        && (got.Some? ==> phys != 0 && order <= MAX_ORDER)
        && live == if got.Some? then old(live) + {Block(got.value, order)} else old(live)
      ensures OnlyFreeTouched(old(mem.w), mem.w, old(lists))
      ensures Steady(old(Now()), Now())
    {
      hide Steady, WellFormed, Fits, Linked, Sound, OnlyFreeTouched, IsFree, IsLive, SplitDown, Push, Remove;
      AllocSafe(lists, live, order);
      NothingTouched(mem.w, lists);
      if order > MAX_ORDER {
        return 0;
      }
      var o := SmallestNonEmpty(order);
      if o > MAX_ORDER {
        return 0;
      }
      HeadSays(mem.w, hhdm, freeList[..], freeCount[..], lists, o);
      var n := freeList[o];
      ghost var frame := lists[o][0];
      ghost var result := SplitDown(Remove(lists, o, frame), frame, o, order);
      StartSplit(lists, o, order);
      ListRemove(o, n);
      phys := n - hhdm;
      while o > order
        invariant Threads() && order <= o <= MAX_ORDER
        invariant Splitting(lists, frame, o, order, result, old(lists))
        invariant OnlyFreeTouched(old(mem.w), mem.w, old(lists)) && live == old(live)
      {
        o := o - 1;
        var upper := phys + BlockBytes(o);
        ContinueSplit(lists, frame, o + 1, order, result, old(lists));
        ghost var words := mem.w;
        ListPush(o, upper);
        TouchedInOrder(old(mem.w), words, mem.w, old(lists), lists, old(lists));
      }
      EndSplit(lists, frame, order, result, old(lists));
      live := live + {Block(frame, order)};
    }

    method Free(phys: nat, order: nat)
      requires Valid()
      requires order <= MAX_ORDER ==> phys % 4096 == 0 && Block(FrameOf(phys), order) in live
      modifies this`lists, this`live, mem, freeList, freeCount
      ensures Valid()
      ensures order > MAX_ORDER ==> lists == old(lists) && live == old(live) && mem.w == old(mem.w)
      ensures order <= MAX_ORDER ==>
        && lists == FreeBlock(old(lists), FrameOf(phys), order)
        && live == old(live) - {Block(FrameOf(phys), order)}
      ensures OnlyFreeTouched(old(mem.w), mem.w, lists)
      ensures Steady(old(Now()), Now())
    {
      hide Steady, WellFormed, Fits, Linked, Sound, OnlyFreeTouched, IsFree, IsLive, FreeBlock, Push, Remove;
      hide Merging, Xor, Pow2;
      NothingTouched(mem.w, lists);
      NothingMoved(Now());
      if order > MAX_ORDER {
        return;
      }
      ghost var b := Block(FrameOf(phys), order);
      FreeSafe(lists, live, b);
      ghost var result := FreeBlock(lists, b.base, order);
      NothingTouched(mem.w, result);
      var base, o := phys, order;
      while o < MAX_ORDER
        invariant order <= o <= MAX_ORDER && base % 4096 == 0
        invariant Threads() && Merging(lists, Block(FrameOf(base), o), result)
        invariant OnlyFreeTouched(old(mem.w), mem.w, result) && live == old(live)
      {
        var buddy := Xor(base, BlockBytes(o));
        ghost var frame, other := FrameOf(base), Xor(FrameOf(base), Pow2(o));
        BuddyAddress(frame, o);
        var bn := ListFind(o, buddy);
        if bn == 0 {
          break;
        }
        ContinueMerge(lists, frame, other, o, result);
        ghost var before, words := lists, mem.w;
        ListRemove(o, bn);
        TouchedInOrder(old(mem.w), words, mem.w, result, before, result);
        if buddy < base {
          base := buddy;
        }
        o := o + 1;
      }
      ghost var words := mem.w;
      EndMerge(lists, FrameOf(base), o, result);
      ListPush(o, base);
      TouchedInOrder(old(mem.w), words, mem.w, result, lists, result);
      live := live - {b};
    }

    /** Chop the frames [first, end) into the largest aligned blocks they hold. */
    method SeedRun(first: nat, end: nat)
      requires Threads() && BuddySeed.Unlisted(lists, first, end)
      modifies this`lists, mem, freeList, freeCount
      ensures Threads() && lists == BuddySeed.SeedRun(old(lists), first, end)
      ensures first <= end ==> TotalFrames(lists) == TotalFrames(old(lists)) + (end - first)
      ensures OnlyFreeTouched(old(mem.w), mem.w, lists)
    {
      hide WellFormed, Linked, Fits, OnlyFreeTouched, Push, AlignedTo, BuddySeed.Unlisted, IsFree, Pow2, And;
      hide TotalFrames;
      hide BuddySeed.LargestFit, BuddySeed.SeedRun;
      if first <= end { BuddySeed.SeedCounts(lists, first, end); }
      var f := first;
      NothingTouched(mem.w, lists);
      while f < end
        invariant Threads() && BuddySeed.Unlisted(lists, f, end) && OnlyFreeTouched(old(mem.w), mem.w, lists)
        invariant BuddySeed.SeedRun(lists, f, end) == BuddySeed.SeedRun(old(lists), first, end)
        decreases end - f
      {
        var order: nat := MAX_ORDER;
        while order > 0 && (And(f, Pow2(order) - 1) != 0 || f + Pow2(order) > end)
          invariant order <= MAX_ORDER
          invariant BuddySeed.LargestFit(f, end, MAX_ORDER) == BuddySeed.LargestFit(f, end, order)
          invariant Threads()
          modifies {}
        {
          BuddySeed.FitStep(f, end, order);
          order := order - 1;
        }
        BuddySeed.FitStep(f, end, order);
        BuddySeed.SeedNext(lists, f, end, order);
        ghost var was, mid := lists, mem.w;
        ListPush(order, f * 4096);
        assert lists == Push(was, order, f);
        TouchedByPush(old(mem.w), mid, mem.w, was, order, f);
        f := f + Pow2(order);
      }
      BuddySeed.SeedDone(lists, f, end);
    }

    method ClearLists()
      requires freeList != freeCount && freeList.Length == freeCount.Length == MAX_ORDER + 1 && hhdm > 0
      modifies this`lists, this`live, freeList, freeCount
      ensures Threads() && live == {} && lists == BuddySeed.EMPTY && TotalFrames(lists) == 0
      ensures lists == BuddySeed.SeedAll(BuddySeed.EMPTY, [])
    {
      for o := 0 to MAX_ORDER + 1
        invariant forall p :: 0 <= p < o ==> freeList[p] == 0 && freeCount[p] == 0
        modifies freeList, freeCount
      {
        freeList[o] := 0;
        freeCount[o] := 0;
      }
      lists, live := BuddySeed.EMPTY, {};
      StartEmpty(mem.w, hhdm, freeList[..], freeCount[..]);
    }

    /** Take every free frame but `reserve` of them out of the bitmap allocator and onto the free lists. */
    method Init(pmm: Pmm, regions: seq<Entry>, hhdm: nat, reserve: nat)
      returns (ghost runs: seq<BuddySeed.FrameRun>, ghost homes: seq<nat>)
      requires freeList != freeCount && freeList.Length == freeCount.Length == MAX_ORDER + 1
      requires hhdm > 0 && pmm.Valid() && pmm.bitmap as object !in {freeList, freeCount}
      requires forall g :: 0 <= g < |pmm.used| && !pmm.used[g] ==> InUsable(regions, g)
      modifies this, mem, freeList, freeCount, pmm, pmm.bitmap
      ensures Valid() && pmm.Valid() && live == {} && this.hhdm == hhdm && pmm.bitmap == old(pmm.bitmap)
      ensures pmm.usableFrames == old(pmm.usableFrames)
      ensures lists == BuddySeed.SeedAll(BuddySeed.EMPTY, runs)
      ensures Claimed(old(pmm.used), pmm.used, runs) && Tidy(regions, runs, homes)
      ensures pmm.used == ClaimWalk(regions, 0, old(pmm.used), Budget(old(pmm.freeFrames), reserve)).0
      ensures forall f: nat :: IsFree(lists, f) <==> f < |pmm.used| && pmm.used[f] && !old(pmm.used)[f]
      ensures pmm.freeFrames == if old(pmm.freeFrames) < reserve then old(pmm.freeFrames) else reserve
      ensures TotalFrames(lists) == old(pmm.freeFrames) - pmm.freeFrames
      ensures MapOk(regions) ==> (Coalesced(lists) <==> NoPairStraddles(regions, old(pmm.used), pmm.used))
      ensures MapOk(regions) && NoRegionsCut(regions) ==> Coalesced(lists)
      ensures OnlyFreeTouched(old(mem.w), mem.w, lists)
    {
      hide WellFormed, Linked, Claimed, Swept, Shows, CountFree, TotalFrames, IsFree, BuddySeed.Unlisted, InUsable;
      hide Holds, BuddySeed.SeedRun, BuddySeed.SeedAll, Tidy, Behind, ClaimWalk, ClaimRegion, MapOk, Coalesced;
      hide NoPairStraddles, NoRegionsCut, OnlyFreeTouched;
      this.hhdm := hhdm;
      ClearLists();
      runs, homes := [], [];
      var pmmFree := pmm.freeFrames;
      var budget := if pmmFree > reserve then pmmFree - reserve else 0;
      var claimed: nat := 0;
      ghost var before := pmm.used;
      StartClaims(regions, before);
      StartTidy(regions);
      NothingTouched(mem.w, lists);
      var i: nat := 0;
      while i < |regions| && claimed < budget
        invariant i <= |regions| && claimed <= budget && live == {}
        invariant Threads() && pmm.Valid() && lists == BuddySeed.SeedAll(BuddySeed.EMPTY, runs)
        invariant Claimed(before, pmm.used, runs) && pmm.freeFrames == pmmFree - claimed &&
          TotalFrames(lists) == claimed
        invariant Tidy(regions, runs, homes) && Behind(runs, homes, i, 0) && OnlyFreeTouched(old(mem.w), mem.w, lists)
        invariant ClaimWalk(regions, i, pmm.used, budget - claimed) == ClaimWalk(regions, 0, before, budget)
        invariant claimed < budget ==> Swept(regions, pmm.used, i, if i < |regions| then FirstFrame(regions[i]) else 0)
        invariant pmm.bitmap == old(pmm.bitmap) && this.hhdm == hhdm && pmm.usableFrames == old(pmm.usableFrames)
      {
        ghost var was, left := pmm.used, budget - claimed;
        if regions[i].usable {
          claimed, runs, homes := SeedRegion(pmm, regions, i, claimed, budget, before, runs, homes, old(mem.w));
        }
        WalkRegion(regions, i, was, left, pmm.used, budget - claimed);
        BehindNext(runs, homes, i, if regions[i].usable then FrameEnd(regions[i]) else 0);
        if claimed < budget {
          SweepNext(regions, pmm.used, i, if regions[i].usable then FrameEnd(regions[i]) else FirstFrame(regions[i]));
        }
        i := i + 1;
      }
      WalkEnds(regions, i, pmm.used, budget - claimed);
      EndClaims(regions, before, pmm.used, runs, i, pmm.freeFrames, claimed, budget);
      CoalescedAfter(regions, before, pmm.used, runs, homes);
    }

    /** One region of the memory map: claim maximal runs of free frames and seed each. */
    method SeedRegion(pmm: Pmm, regions: seq<Entry>, i: nat, claimed0: nat, budget: nat,
                      ghost before: seq<bool>, ghost runs0: seq<BuddySeed.FrameRun>, ghost homes0: seq<nat>,
                      ghost w0: Ram)
      returns (claimed: nat, ghost runs: seq<BuddySeed.FrameRun>, ghost homes: seq<nat>)
      requires i < |regions| && regions[i].usable && claimed0 <= budget
      requires pmm.bitmap as object !in {freeList, freeCount}
      requires Threads() && pmm.Valid() && lists == BuddySeed.SeedAll(BuddySeed.EMPTY, runs0)
      requires Claimed(before, pmm.used, runs0) && Tidy(regions, runs0, homes0) && Behind(runs0, homes0, i, 0)
      requires Swept(regions, pmm.used, i, FirstFrame(regions[i])) && OnlyFreeTouched(w0, mem.w, lists)
      modifies this`lists, mem, freeList, freeCount, pmm, pmm.bitmap
      ensures Threads() && pmm.Valid() && lists == BuddySeed.SeedAll(BuddySeed.EMPTY, runs)
      ensures pmm.bitmap == old(pmm.bitmap) && pmm.usableFrames == old(pmm.usableFrames)
      ensures Claimed(before, pmm.used, runs)
      ensures Tidy(regions, runs, homes) && Behind(runs, homes, i, FrameEnd(regions[i]))
      ensures claimed <= budget && pmm.freeFrames + claimed == old(pmm.freeFrames) + claimed0
      ensures (pmm.used, budget - claimed) ==
                ClaimRegion(old(pmm.used), FirstFrame(regions[i]), FrameEnd(regions[i]), budget - claimed0)
      ensures TotalFrames(lists) == TotalFrames(old(lists)) + claimed - claimed0
      ensures claimed < budget ==> Swept(regions, pmm.used, i, FrameEnd(regions[i]))
      ensures OnlyFreeTouched(w0, mem.w, lists)
    {
      hide WellFormed, Linked, Claimed, Swept, Shows, CountFree, TotalFrames, BuddySeed.Unlisted, BuddySeed.SeedRun;
      hide BuddySeed.SeedAll, Tidy, Behind, Blocked, ClaimRegion, OnlyFreeTouched;
      var first, end := regions[i].base / 4096, regions[i].base / 4096 + regions[i].length / 4096;
      ghost var used0 := pmm.used;
      var f := first;
      claimed, runs, homes := claimed0, runs0, homes0;
      NothingBehind(before, pmm.used, runs, homes, i, first);
      while f < end && claimed < budget
        invariant first <= f <= end && claimed <= budget
        invariant Threads() && pmm.Valid() && lists == BuddySeed.SeedAll(BuddySeed.EMPTY, runs)
        invariant pmm.bitmap == old(pmm.bitmap) && pmm.usableFrames == old(pmm.usableFrames)
        invariant Claimed(before, pmm.used, runs) && Swept(regions, pmm.used, i, f)
        invariant Tidy(regions, runs, homes) && Behind(runs, homes, i, f) && OnlyFreeTouched(w0, mem.w, lists)
        invariant f < end && claimed < budget ==> Blocked(pmm.used, runs, homes, i, f)
        invariant ClaimRegion(pmm.used, f, end, budget - claimed) == ClaimRegion(used0, first, end, budget - claimed0)
        invariant pmm.freeFrames + claimed == old(pmm.freeFrames) + claimed0
        invariant TotalFrames(lists) == TotalFrames(old(lists)) + claimed - claimed0
        decreases end - f
      {
        ghost var was := pmm.used;
        var got := pmm.ClaimFrame(f * 4096);
        if !got {
          SweepMore(regions, pmm.used, i, f);
          BlockedMore(pmm.used, runs, homes, i, f);
          ClaimSkips(pmm.used, f, end, budget - claimed);
          f := f + 1;
          continue;
        }
        ClaimFirst(regions, before, was, runs, i, f);
        ClaimTakes(was, f, end, budget - claimed);
        NoneEndsHere(was, runs, homes, i, f);
        var runStart := f;
        f := f + 1;
        claimed := claimed + 1;
        f, claimed := GrowRun(pmm, regions, i, runStart, f, end, claimed, budget, before, runs);
        CloseRun(before, pmm.used, runs, BuddySeed.FrameRun(runStart, f));
        ghost var listed, mid := lists, mem.w;
        SeedRun(runStart, f);
        TouchedBySeed(w0, mid, mem.w, listed, runStart, f);
        RunClosed(regions, before, pmm.used, runs, homes, i, BuddySeed.FrameRun(runStart, f));
        runs, homes := runs + [BuddySeed.FrameRun(runStart, f)], homes + [i];
        if f < end && claimed < budget { StoppedHere(pmm.used, runs, homes, i, f); }
      }
      ClaimEnds(pmm.used, f, end, budget - claimed);
      BehindMore(runs, homes, i, f, end);
    }

    /** Extend the run [start, f0) as far as budget and free frames allow. */
    static method GrowRun(pmm: Pmm, ghost regions: seq<Entry>, ghost i: nat, start: nat, f0: nat, end: nat,
                          claimed0: nat, budget: nat, ghost before: seq<bool>, ghost runs: seq<BuddySeed.FrameRun>)
      returns (f: nat, claimed: nat)
      requires start < f0 <= end && claimed0 <= budget && i < |regions| && pmm.Valid()
      requires Claimed(before, pmm.used, runs + [BuddySeed.FrameRun(start, f0)]) && Swept(regions, pmm.used, i, f0)
      modifies pmm, pmm.bitmap
      ensures pmm.Valid() && pmm.bitmap == old(pmm.bitmap) && pmm.usableFrames == old(pmm.usableFrames)
      ensures f0 <= f <= end && claimed <= budget &&
        claimed - claimed0 == f - f0 == old(pmm.freeFrames) - pmm.freeFrames
      ensures Claimed(before, pmm.used, runs + [BuddySeed.FrameRun(start, f)]) && Swept(regions, pmm.used, i, f)
      ensures ClaimRegion(pmm.used, f, end, budget - claimed) == ClaimRegion(old(pmm.used), f0, end, budget - claimed0)
      ensures f < end && claimed < budget ==> f >= |pmm.used| || pmm.used[f]
    {
      hide Claimed, Swept, Shows, CountFree, ClaimRegion;
      f, claimed := f0, claimed0;
      while f < end && claimed < budget
        invariant pmm.Valid() && pmm.bitmap == old(pmm.bitmap) && pmm.usableFrames == old(pmm.usableFrames)
        invariant f0 <= f <= end && claimed <= budget &&
          claimed - claimed0 == f - f0 == old(pmm.freeFrames) - pmm.freeFrames
        invariant Claimed(before, pmm.used, runs + [BuddySeed.FrameRun(start, f)]) && Swept(regions, pmm.used, i, f)
        invariant ClaimRegion(pmm.used, f, end, budget - claimed) ==
          ClaimRegion(old(pmm.used), f0, end, budget - claimed0)
        decreases end - f
      {
        ghost var was := pmm.used;
        var more := pmm.ClaimFrame(f * 4096);
        if !more {
          break;
        }
        ClaimNext(regions, before, was, runs, start, i, f);
        ClaimTakes(was, f, end, budget - claimed);
        f := f + 1;
        claimed := claimed + 1;
      }
    }

    /** Per-order counts and the total of free bytes. */
    method GetStats() returns (counts: seq<nat>, totalFreeBytes: nat)
      requires Threads()
      ensures |counts| == MAX_ORDER + 1 && forall o :: 0 <= o <= MAX_ORDER ==> counts[o] == |lists[o]|
      ensures totalFreeBytes == Addr(TotalFrames(lists))
    {
      counts := freeCount[..];
      totalFreeBytes := 0;
      var o := 0;
      while o <= MAX_ORDER
        invariant o <= MAX_ORDER + 1 && totalFreeBytes == Addr(FramesUpTo(lists, o))
      {
        assert freeCount[o] == freeCount[..][o];
        ScaleProduct(freeCount[o], Pow2(o));
        totalFreeBytes := totalFreeBytes + freeCount[o] * BlockBytes(o);
        o := o + 1;
      }
    }
  }

  lemma ScaleProduct(n: nat, size: nat)
    ensures n * Addr(size) == Addr(n * size)
  {
  }

  lemma NothingTouched(w: Ram, lists: Lists)
    ensures OnlyFreeTouched(w, w, lists)
  {
  }

  lemma NothingMoved(s: State)
    ensures Steady(s, s)
  {
  }

  lemma HeadSays(w: Ram, hhdm: nat, heads: seq<nat>, counts: seq<nat>, lists: Lists, o: nat)
    requires hhdm > 0 && Linked(w, hhdm, heads, counts, lists) && o < |lists|
    ensures heads[o] == 0 <==> lists[o] == []
    ensures lists[o] != [] ==> heads[o] == Ptr(hhdm, lists[o][0])
    ensures heads[o] == 0 || heads[o] >= hhdm
  {
  }

  /** What an allocation may leave behind: a sound state in which frame 0 still belongs to nobody. */
  lemma AllocSafe(lists: Lists, live: set<Block>, order: nat)
    requires Sound(State(lists, live)) && !IsFree(lists, 0) && !IsLive(State(lists, live), 0)
    ensures var (after, got) := BuddyLists.Alloc(lists, order);
      var t := State(after, if got.Some? then live + {Block(got.value, order)} else live);
      && Sound(t) && !IsFree(after, 0) && !IsLive(t, 0) && Steady(State(lists, live), t)
      && (got.Some? ==> got.value > 0)
  {
    StepKeeps(State(lists, live), AllocOp(order));
    StepConserves(State(lists, live), AllocOp(order));
    AllocKeeps(lists, order);
  }

  lemma FreeSafe(lists: Lists, live: set<Block>, b: Block)
    requires Sound(State(lists, live)) && !IsFree(lists, 0) && !IsLive(State(lists, live), 0) && b in live
    ensures b.order <= MAX_ORDER
    ensures var t := State(FreeBlock(lists, b.base, b.order), live - {b});
      Sound(t) && !IsFree(t.lists, 0) && !IsLive(t, 0) && Merging(lists, b, t.lists) && Steady(State(lists, live), t)
    ensures Steady(State(lists, live), State(lists, live))
  {
    StepConserves(State(lists, live), FreeOp(b));
    StepKeeps(State(lists, live), FreeOp(b));
    FreeKeeps(lists, b.base, b.order);
  }

  // ---- the split loop: its state and its step ------------------------------------------

  ghost predicate Splitting(lists: Lists, frame: nat, o: nat, order: nat, result: Lists, before: Lists) {
    && order <= o <= MAX_ORDER
    && WellFormed(lists) && Fits(lists, Block(frame, o))
    && SplitDown(lists, frame, o, order) == result
    && forall f :: IsFree(lists, f) || Covers(Block(frame, o), f) ==> IsFree(before, f)
  }

  lemma StartSplit(lists: Lists, o: nat, order: nat)
    requires WellFormed(lists) && order <= o <= MAX_ORDER && lists[o] != []
    ensures var frame := lists[o][0];
      var rest := Remove(lists, o, frame);
      Splitting(rest, frame, o, order, SplitDown(rest, frame, o, order), lists)
  {
    assert Listed(lists, Block(lists[o][0], o));
    RemoveKeeps(lists, Block(lists[o][0], o));
  }

  lemma ContinueSplit(lists: Lists, frame: nat, o: nat, order: nat, result: Lists, before: Lists)
    requires Splitting(lists, frame, o, order, result, before) && o > order
    ensures Addr(frame) + BlockBytes(o - 1) == Addr(frame + Pow2(o - 1))
    ensures Fits(lists, Block(frame + Pow2(o - 1), o - 1))
    ensures Splitting(Push(lists, o - 1, frame + Pow2(o - 1)), frame, o - 1, order, result, before)
    ensures forall f :: IsFree(Push(lists, o - 1, frame + Pow2(o - 1)), f) ==> IsFree(before, f)
  {
    hide WellFormed, AlignedTo, Coalesced, Xor;
    SplitStep(lists, Block(frame, o));
    HalvesOf(Block(frame, o));
  }

  lemma EndSplit(lists: Lists, frame: nat, order: nat, result: Lists, before: Lists)
    requires Splitting(lists, frame, order, order, result, before)
    ensures lists == result
  {
  }

  // ---- the merge loop: its state and its step ------------------------------------------

  ghost predicate Merging(lists: Lists, b: Block, result: Lists) {
    && WellFormed(lists) && Fits(lists, b)
    && FreeBlock(lists, b.base, b.order) == result
    && forall f :: IsFree(lists, f) || Covers(b, f) ==> IsFree(result, f)
  }

  lemma ContinueMerge(lists: Lists, frame: nat, other: nat, o: nat, result: Lists)
    requires Merging(lists, Block(frame, o), result) && o < MAX_ORDER && o < |lists|
    requires other == Xor(frame, Pow2(o)) && other in lists[o]
    ensures Merging(Remove(lists, o, other), Block(if other < frame then other else frame, o + 1), result)
    ensures forall f :: IsFree(lists, f) ==> IsFree(result, f)
  {
    MergeStep(lists, Block(frame, o));
  }

  lemma EndMerge(lists: Lists, frame: nat, o: nat, result: Lists)
    requires Merging(lists, Block(frame, o), result) && o < |lists|
    requires o == MAX_ORDER || Xor(frame, Pow2(o)) !in lists[o]
    ensures Fits(lists, Block(frame, o))
    ensures Push(lists, o, frame) == result
  {
  }

  lemma StartEmpty(w: Ram, hhdm: nat, heads: seq<nat>, counts: seq<nat>)
    requires |heads| == |counts| == MAX_ORDER + 1
    requires forall o :: 0 <= o <= MAX_ORDER ==> heads[o] == 0 && counts[o] == 0
    ensures WellFormed(BuddySeed.EMPTY) && Linked(w, hhdm, heads, counts, BuddySeed.EMPTY)
    ensures BuddySeed.EMPTY == BuddySeed.SeedAll(BuddySeed.EMPTY, []) && TotalFrames(BuddySeed.EMPTY) == 0
  {
    BuddySeed.EmptyCounts(MAX_ORDER + 1);
    BuddySeed.EmptyIsFine();
  }
}
