/** Where task stacks come from: what the heap guarantees about them is what the tasks need of each other. */
module TaskStacks {
  import opened Bits
  import opened PhysicalMemory
  import opened SlabPages
  import opened SlabHeap
  import opened BuddyRuns
  import opened ContextSwitch
  import opened TaskRuns

  /** An allocated object that can serve as a stack: a large one of at least STACK_SIZE bytes. */
  ghost predicate IsStack(pages: Pages, x: Obj) {
    IsLiveObj(pages, x) && x.Large? && STACK_SIZE <= ObjBytes(x)
  }

  /** The stack that starts at the pointer the heap returned for x, seen through the direct map. */
  function StackOf(hhdm: nat, x: Obj): Extent
    requires x.Large?
  {
    StackAt(hhdm + ObjAddr(x))
  }

  /** The first part of an object of sufficient size belongs to it. */
  lemma StackInside(hhdm: nat, pages: Pages, x: Obj, a: int)
    requires IsStack(pages, x) && StackOf(hhdm, x).lo <= a < StackOf(hhdm, x).hi
    ensures a >= hhdm && Inside(x, a - hhdm) && InLive(pages, a - hhdm)
  {
    assert Inside(x, a - hhdm);
  }

  /** Two stacks the heap has given out and not taken back never overlap. */
  lemma {:induction false} HeapStacksApart(hhdm: nat, pages: Pages, s: BuddyRuns.State, x: Obj, y: Obj)
    requires Owned(pages, s.live) && Sound(s) && IsStack(pages, x) && IsStack(pages, y) && x != y
    ensures Apart(StackOf(hhdm, x), StackOf(hhdm, y))
  {
    var p, q := StackOf(hhdm, x), StackOf(hhdm, y);
    if !Apart(p, q) {
      var a := if p.lo <= q.lo then q.lo else p.lo;
      StackInside(hhdm, pages, x, a);
      StackInside(hhdm, pages, y, a);
      LiveObjectsDisjoint(pages, s, x, y, a - hhdm);
    }
  }

  /** A heap call by the running task leaves every suspended task's stack as it was, so it is a
      computation the other tasks allow. */
  lemma {:induction false} HeapCallKeepsStack(w: Ram, after: Ram, hhdm: nat, pages: Pages, x: Obj, a: int)
    requires Undisturbed(w, after, pages) && IsStack(pages, x)
    requires StackOf(hhdm, x).lo <= a < StackOf(hhdm, x).hi
    ensures a >= hhdm && Load(after, a - hhdm) == Load(w, a - hhdm)
  {
    StackInside(hhdm, pages, x, a);
  }

  /** A stack starts 16 bytes into a page, behind the block's header: aligned to 16, not to the page. */
  lemma StackAlignment(hhdm: nat, x: Obj)
    requires x.Large? && hhdm % 4096 == 0
    ensures StackOf(hhdm, x).lo % 4096 == 16 && StackOf(hhdm, x).lo % 16 == 0
    ensures Top(StackOf(hhdm, x).lo) == StackOf(hhdm, x).hi
  {
    var k := hhdm / 4096 + x.frame;
    assert StackOf(hhdm, x).lo == k * 4096 + 16;
    MulModPlus(k, 4096, 16);
    MulMod(256 * k + 1, 16);
    MulMod(256 * k + 1025, 16);
  }
}
