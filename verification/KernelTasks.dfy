/** Making a task with the kernel's own heap: where its stack comes from and why it is nobody else's. */
module KernelTasks {
  import opened Bits
  import opened PhysicalMemory
  import opened PhysicalFrames
  import opened BuddyBlocks
  import opened BuddyLists
  import opened SlabLayout
  import opened SlabPages
  import opened SlabHeap
  import opened SlabAllocator
  import opened SlabClient
  import opened FrameOwnership
  import opened MemoryStack
  import opened ContextSwitch
  import TaskRuns
  import opened TaskStacks
  import opened Scheduling

  /** Bytes of a task structure. */
  const TASK_BYTES := 32

  /** The extent is a stack the heap has given out. */
  ghost predicate HeapStack(hhdm: nat, pages: Pages, e: Extent) {
    exists x :: IsStack(pages, x) && e == StackOf(hhdm, x)
  }

  /** The extent lies in the direct map and is no usable memory, as the stack the boot loader left. */
  ghost predicate BootStack(regions: seq<Entry>, hhdm: nat, e: Extent) {
    hhdm <= e.lo < e.hi && forall a: nat :: e.lo <= hhdm + a < e.hi ==> !InUsable(regions, FrameOf(a))
  }

  /** Every task runs on the boot stack or on one from the heap. */
  ghost predicate StacksOk(ring: seq<TaskRuns.Entry>, hhdm: nat, regions: seq<Entry>, pages: Pages) {
    forall i :: 0 <= i < |ring| ==> HeapStack(hhdm, pages, ring[i].stack) || BootStack(regions, hhdm, ring[i].stack)
  }

  ghost predicate StaysLive(was: Pages, now: Pages) {
    forall x :: IsLiveObj(was, x) ==> IsLiveObj(now, x)
  }

  lemma StacksFollow(ring: seq<TaskRuns.Entry>, hhdm: nat, regions: seq<Entry>, was: Pages, now: Pages)
    requires StacksOk(ring, hhdm, regions, was) && StaysLive(was, now)
    ensures StacksOk(ring, hhdm, regions, now)
  {
    forall i | 0 <= i < |ring| && HeapStack(hhdm, was, ring[i].stack) ensures HeapStack(hhdm, now, ring[i].stack) {
      var x :| IsStack(was, x) && ring[i].stack == StackOf(hhdm, x);
      assert IsStack(now, x);
    }
  }

  /** Every byte of a stack from the heap is usable memory. */
  lemma {:induction false} HeapStackIsUsable(hhdm: nat, b: Books, y: Obj, a: int)
    requires BooksOk(b) && IsStack(b.pages, y) && StackOf(hhdm, y).lo <= a < StackOf(hhdm, y).hi
    ensures a >= hhdm && InUsable(b.regions, FrameOf(a - hhdm))
  {
    StackInside(hhdm, b.pages, y, a);
    hide BooksOk, IsStack, InLive, HeapFrame;
    LiveByteIsHeapFrame(b.pages, b.s.lists, a - hhdm);
    if !InUsable(b.regions, FrameOf(a - hhdm)) {
      AsideIffNoHeapFrame(b, FrameOf(a - hhdm));
    }
  }

  /** So it shares nothing with the boot stack. */
  lemma {:induction false} BootStackApart(hhdm: nat, b: Books, y: Obj, e: Extent)
    requires BooksOk(b) && IsStack(b.pages, y) && BootStack(b.regions, hhdm, e)
    ensures TaskRuns.Apart(StackOf(hhdm, y), e)
  {
    var p := StackOf(hhdm, y);
    if !TaskRuns.Apart(p, e) {
      hide BooksOk, IsStack, InUsable;
      HeapStackIsUsable(hhdm, b, y, if p.lo <= e.lo then e.lo else p.lo);
    }
  }

  /** A newly allocated stack is apart from the stack of every task there is. */
  lemma {:induction false} NewStackApart(ring: seq<TaskRuns.Entry>, hhdm: nat, b: Books, was: Pages, y: Obj)
    requires BooksOk(b) && IsStack(b.pages, y) && !IsLiveObj(was, y) && StaysLive(was, b.pages)
    requires StacksOk(ring, hhdm, b.regions, was)
    ensures forall i :: 0 <= i < |ring| ==> TaskRuns.Apart(StackOf(hhdm, y), ring[i].stack)
  {
    forall i | 0 <= i < |ring| ensures TaskRuns.Apart(StackOf(hhdm, y), ring[i].stack) {
      if HeapStack(hhdm, was, ring[i].stack) {
        var x :| IsStack(was, x) && ring[i].stack == StackOf(hhdm, x);
        HeapStacksApart(hhdm, b.pages, b.s, y, x);
      } else {
        BootStackApart(hhdm, b, y, ring[i].stack);
      }
    }
  }

  /** A heap call leaves the boot stack as it was, too. */
  lemma {:induction false} BootStackKept(b: Books, w: Ram, after: Ram, hhdm: nat, e: Extent, a: nat)
    requires Kept(b, w, after) && BootStack(b.regions, hhdm, e) && e.lo <= hhdm + a < e.hi
    ensures Load(after, a) == Load(w, a)
  {
    assert Aside(b, FrameOf(a));
  }

  /** An object with room for a stack is a block of its own, and its end is an address. */
  lemma StackFits(hhdm: nat, pages: Pages, s: BuddyRuns.State, y: Obj)
    requires Owned(pages, s.live) && InReach(hhdm, s) && IsLiveObj(pages, y) && TaskRuns.STACK_SIZE <= ObjBytes(y)
    ensures IsStack(pages, y) && hhdm + ObjAddr(y) + TaskRuns.STACK_SIZE < Pow2(64)
  {
    hide Slots, Owned, InReach;
    if y.Large? { LastFrame(hhdm, pages, s, y.frame, y.order); }
  }

  lemma LastFrame(hhdm: nat, pages: Pages, s: BuddyRuns.State, f: nat, o: nat)
    requires Owned(pages, s.live) && InReach(hhdm, s) && f in pages && pages[f] == LargePage(o)
    ensures hhdm + Addr(f) + 4096 * Pow2(o) <= Pow2(64)
  {
    var last := f + Pow2(o) - 1;
    assert Covers(BlockOf(f, pages[f]), last);
    assert BuddyRuns.IsLive(s, last);
  }

  // ---- task_create over the heap ----------------------------------------------------------------------

  /** Besides the objects there were, exactly x and y are allocated. */
  ghost predicate TwoMore(was: Pages, now: Pages, x: Obj, y: Obj) {
    && !IsLiveObj(was, x) && !IsLiveObj(was, y) && x != y
    && forall z :: IsLiveObj(now, z) <==> IsLiveObj(was, z) || z == x || z == y
  }

  lemma AppearTwice(was: Pages, mid: Pages, now: Pages, x: Obj, y: Obj)
    requires Appears(was, mid, x) && Appears(mid, now, y)
    ensures TwoMore(was, now, x, y) && StaysLive(was, now) && IsLiveObj(now, y)
  {
  }

  lemma AppearAndGo(was: Pages, mid: Pages, now: Pages, x: Obj)
    requires Appears(was, mid, x) && Appears(now, mid, x)
    ensures SameObjects(was, now) && StaysLive(was, now)
  {
  }

  lemma Unchanged(was: Pages)
    ensures SameObjects(was, was) && StaysLive(was, was)
  {
  }

  lemma UndisturbedTwice(w: Ram, mid: Ram, after: Ram, was: Pages, now: Pages)
    requires Undisturbed(w, mid, was) && Undisturbed(mid, after, now) && StaysLive(was, now)
    ensures Undisturbed(w, after, was)
  {
    forall a: nat | InLive(was, a) ensures InLive(now, a) {
      var x :| IsLiveObj(was, x) && Inside(x, a);
      assert IsLiveObj(now, x);
    }
  }

  lemma StackSizes()
    ensures Terminates(TASK_BYTES) && Terminates(TaskRuns.STACK_SIZE)
    ensures !Wraps(TASK_BYTES) && !Wraps(TaskRuns.STACK_SIZE)
  {
    SmallSizes(TASK_BYTES);
    assert Pow2(15) == 32768;
    Pow2Monotone(15, 63);
    assert Pow2(64) == 2 * Pow2(63);
    hide Pow2;
    SumMod(TaskRuns.STACK_SIZE);
  }

  ghost predicate HoldsBytes(x: Obj, size: nat) {
    (x.Small? ==> x.cls < NUM_CLASSES) && size <= ObjBytes(x)
  }

  lemma FitsBySize(x: Obj, size: nat)
    requires x.Small? ==> x.cls < NUM_CLASSES
    requires !Wraps(size) && (size <= ObjBytes(x) <==> !Wraps(size))
    ensures size <= ObjBytes(x) && HoldsBytes(x, size)
  {
  }

  /** What a stack out of the heap means for the scheduler: it is where no other task's is. */
  lemma {:induction false} NewStack(v: TaskRuns.State, hhdm: nat, b: Books, was: Pages, y: Obj, entry: int,
                                    trampoline: int)
    requires BooksOk(b) && InReach(hhdm, b.s) && IsLiveObj(b.pages, y) && TaskRuns.STACK_SIZE <= ObjBytes(y)
    requires !IsLiveObj(was, y) && StaysLive(was, b.pages) && StacksOk(v.ring, hhdm, b.regions, was) && v.ring != []
    ensures var base := hhdm + ObjAddr(y);
      && base + TaskRuns.STACK_SIZE < Pow2(64)
      && TaskRuns.Legal(v, TaskRuns.Create(entry, trampoline, base))
      && StacksOk(TaskRuns.Step(v, TaskRuns.Create(entry, trampoline, base)).ring, hhdm, b.regions, b.pages)
  {
    hide Pow2, InReach, BooksOk, StaysLive, TaskRuns.Forged, StacksOk, IsLiveObj, ObjBytes, Owned, HeapStack;
    BooksOwned(b);
    StackFits(hhdm, b.pages, b.s, y);
    var base := hhdm + ObjAddr(y);
    NewStackApart(v.ring, hhdm, b, was, y);
    StacksFollow(v.ring, hhdm, b.regions, was, b.pages);
    AreaIsTaskStack(hhdm, b, y);
    hide ObjAddr;
    var r := TaskRuns.Step(v, TaskRuns.Create(entry, trampoline, base)).ring;
    StacksMore(v.ring, hhdm, b.regions, b.pages, r[|v.ring|]);
  }

  lemma StacksMore(ring: seq<TaskRuns.Entry>, hhdm: nat, regions: seq<Entry>, pages: Pages, e: TaskRuns.Entry)
    requires StacksOk(ring, hhdm, regions, pages) && HeapStack(hhdm, pages, e.stack)
    ensures StacksOk(ring + [e], hhdm, regions, pages)
  {
    hide HeapStack, BootStack;
  }

  lemma BooksOwned(b: Books)
    requires BooksOk(b)
    ensures Owned(b.pages, b.s.live)
  {
  }

  lemma KeptTwice(b: Books, mid: Books, w: Ram, v: Ram, after: Ram)
    requires Kept(b, w, v) && Kept(mid, v, after)
    requires mid.regions == b.regions && mid.used == b.used && mid.handed == b.handed && mid.blocks == b.blocks
    ensures Kept(b, w, after)
  {
    forall a: nat | Aside(b, FrameOf(a)) ensures Load(after, a) == Load(w, a) {
      assert Aside(mid, FrameOf(a));
    }
  }

  /** No block is free that could hold a stack: a matter of the free blocks alone. */
  ghost predicate NoStackRoom(lists: Lists) {
    && |lists| == MAX_ORDER + 1 && Terminates(TaskRuns.STACK_SIZE)
    && BuddyLists.Alloc(lists, LargeOrder(TaskRuns.STACK_SIZE)).1.None?
  }

  /** There is no room for a task structure, or none for a stack. */
  ghost predicate NoTaskRoom(pages: Pages, slabs: seq<seq<nat>>, lists: Lists) {
    || (|lists| == MAX_ORDER + 1 && |slabs| == NUM_CLASSES && Terminates(TASK_BYTES)
        && NoRoom(pages, slabs, lists, TASK_BYTES))
    || NoStackRoom(lists)
  }

  lemma NoStackNoTask(pages: Pages, slabs: seq<seq<nat>>, lists: Lists)
    requires NoStackRoom(lists)
    ensures NoTaskRoom(pages, slabs, lists)
  {
  }

  lemma StackRoomIs(pages: Pages, slabs: seq<seq<nat>>, lists: Lists)
    requires |lists| == MAX_ORDER + 1 && |slabs| == NUM_CLASSES && Terminates(TaskRuns.STACK_SIZE)
    ensures NoRoom(pages, slabs, lists, TaskRuns.STACK_SIZE) <==> NoStackRoom(lists)
  {
    ClassBound(TaskRuns.STACK_SIZE);
  }

  /** The two requests of task_create, the second only when the first was met. */
  method Room(stack: Stack) returns (p: nat, base: nat, ghost node: Obj, ghost area: Obj)
    requires stack.Valid()
    modifies stack.heap`pages, stack.heap`slabs, stack.heap.caches, stack.heap.buddy`lists, stack.heap.buddy`live,
             stack.heap.mem, stack.heap.buddy.freeList, stack.heap.buddy.freeCount
    ensures stack.Valid() && StaysLive(old(stack.heap.pages), stack.heap.pages)
    ensures p == 0 ==> base == 0 && SameObjects(old(stack.heap.pages), stack.heap.pages)
    ensures p == 0 ==> NoTaskRoom(stack.heap.pages, stack.heap.slabs, stack.heap.buddy.lists)
    ensures p != 0 && base == 0 ==>
      && node.Small? && NoStackRoom(stack.heap.buddy.lists)
      && Appears(old(stack.heap.pages), stack.heap.pages, node) && p == stack.heap.hhdm + ObjAddr(node)
    ensures base != 0 ==>
      && TwoMore(old(stack.heap.pages), stack.heap.pages, node, area) && IsLiveObj(stack.heap.pages, area)
      && base == stack.heap.hhdm + ObjAddr(area) && TaskRuns.STACK_SIZE <= ObjBytes(area)
    ensures base != 0 ==> HoldsBytes(node, 32) && HoldsBytes(area, 16384)
    ensures Undisturbed(old(stack.heap.mem.w), stack.heap.mem.w, old(stack.heap.pages))
    ensures Kept(old(stack.Ledger()), old(stack.heap.mem.w), stack.heap.mem.w)
  {
    hide BooksOk, Undisturbed, Kept, TwoMore, SameObjects, StaysLive, Appears, Terminates, Wraps, NoRoom, Coalesced;
    hide ObjAddr, ObjBytes, Stack.Valid, NoStackRoom, HoldsBytes;
    StackSizes();
    StackFacts(stack);
    ghost var was, b0, w0 := stack.heap.pages, stack.Ledger(), stack.heap.mem.w;
    p, node := stack.KMalloc(TASK_BYTES);
    base, area := 0, node;
    Unchanged(was);
    if p != 0 {
      ghost var mid, b1, w1 := stack.heap.pages, stack.Ledger(), stack.heap.mem.w;
      StaysWith(was, mid, node);
      FitsBySize(node, TASK_BYTES);
      StackFacts(stack);
      StackRoomIs(mid, stack.heap.slabs, stack.heap.buddy.lists);
      base, area := stack.KMalloc(TaskRuns.STACK_SIZE);
      UndisturbedTwice(w0, w1, stack.heap.mem.w, was, mid);
      KeptTwice(b0, b1, w0, w1, stack.heap.mem.w);
      if base != 0 {
        AppearTwice(was, mid, stack.heap.pages, node, area);
        FitsBySize(area, TaskRuns.STACK_SIZE);
      }
    }
  }

  lemma StaysWith(was: Pages, now: Pages, x: Obj)
    requires Appears(was, now, x)
    ensures StaysLive(was, now) && IsLiveObj(now, x) && (x.Small? ==> x.cls < NUM_CLASSES)
  {
  }

  /** kfree of the structure when there is no stack: the heap has the objects it had before. */
  method GiveBack(stack: Stack, p: nat, ghost node: Obj, ghost was: Pages, ghost b: Books, ghost w: Ram)
    requires stack.Valid() && Appears(was, stack.heap.pages, node) && p == stack.heap.hhdm + ObjAddr(node)
    requires Undisturbed(w, stack.heap.mem.w, was) && Kept(b, w, stack.heap.mem.w)
    requires b.regions == stack.regions && b.used == stack.pmm.used
    requires b.handed == stack.handed && b.blocks == stack.blocks
    modifies stack.heap`pages, stack.heap.caches, stack.heap.buddy`lists, stack.heap.buddy`live,
             stack.heap.mem, stack.heap.buddy.freeList, stack.heap.buddy.freeCount
    ensures stack.Valid() && SameObjects(was, stack.heap.pages) && StaysLive(was, stack.heap.pages)
    ensures node.Small? ==> stack.heap.buddy.lists == old(stack.heap.buddy.lists)
    ensures Undisturbed(w, stack.heap.mem.w, was) && Kept(b, w, stack.heap.mem.w)
  {
    hide BooksOk, Undisturbed, Kept, SameObjects, StaysLive, Appears, Coalesced, ObjAddr, Ours, Stack.Valid, IsLiveObj;
    hide HeapOk, Owned, InReach, BuddyRuns.Sound;
    ghost var mid, b1, w1 := stack.heap.pages, stack.Ledger(), stack.heap.mem.w;
    StaysWith(was, mid, node);
    StackFacts(stack);
    LiveIsOurs(w1, stack.heap.hhdm, mid, stack.heap.slabs, stack.heap.caches[..], b1.s, node);
    stack.KFree(p, node);
    AppearAndGo(was, mid, stack.heap.pages, node);
    UndisturbedTwice(w, w1, stack.heap.mem.w, was, stack.heap.pages);
    KeptTwice(b, b1, w, w1, stack.heap.mem.w);
  }

  lemma StackFacts(stack: Stack)
    requires stack.Valid()
    ensures BooksOk(stack.Ledger()) && InReach(stack.heap.hhdm, stack.heap.buddy.Now())
    ensures Owned(stack.heap.pages, stack.heap.buddy.live) && BuddyRuns.Sound(stack.heap.buddy.Now())
    ensures HeapOk(stack.heap.mem.w, stack.heap.hhdm, stack.heap.pages, stack.heap.slabs, stack.heap.caches[..])
    ensures stack.heap.hhdm % 4096 == 0 && stack.heap.buddy.mem == stack.heap.mem
    ensures |stack.heap.slabs| == NUM_CLASSES && |stack.heap.buddy.lists| == MAX_ORDER + 1
  {
    assert |stack.heap.slabs| == NUM_CLASSES;
    hide BooksOk, HeapOk, Owned, InReach, BuddyRuns.Sound, BuddyLinks.Linked;
  }

  lemma CurrentIsFirst(sched: Scheduler)
    requires sched.Valid()
    ensures sched.View().ring != [] && sched.View().ring[0].stack == sched.current.stack
  {
    hide Distinct, Circular, TaskRuns.Ok;
  }

  lemma RingThere(sched: Scheduler)
    requires sched.Valid()
    ensures sched.View().ring != [] && TaskRuns.Ok(sched.View())
  {
  }

  lemma NewIsNew(was: Pages, now: Pages, x: Obj, y: Obj)
    requires TwoMore(was, now, x, y)
    ensures !IsLiveObj(was, y)
  {
  }

  // ---- one memory, seen by physical and by virtual address ------------------------------------------

  ghost predicate SeenHere(v: Ram, w: Ram, hhdm: nat, a: nat) {
    Load(v, hhdm + a) == Load(w, a)
  }

  /** v shows w through the direct map. */
  ghost predicate SeenThrough(v: Ram, w: Ram, hhdm: nat) {
    forall a: nat :: SeenHere(v, w, hhdm, a)
  }

  /** Where the direct map shows the words of w. */
  function Shown(w: Ram, hhdm: nat): set<int> {
    set a | a in w && a >= 0 :: hhdm + a
  }

  /** What the tasks see once physical memory is w: the direct map follows, the rest is as in v. */
  function Seen(v: Ram, w: Ram, hhdm: nat): Ram {
    (map x | x in v && x < hhdm :: v[x]) + (map x | x in Shown(w, hhdm) :: Load(w, x - hhdm))
  }

  lemma SeenIs(v: Ram, w: Ram, hhdm: nat)
    ensures SeenThrough(Seen(v, w, hhdm), w, hhdm)
  {
    hide Seen, Load;
    forall a: nat ensures SeenHere(Seen(v, w, hhdm), w, hhdm, a) {
      SeenAt(v, w, hhdm, a);
    }
  }

  lemma SeenAt(v: Ram, w: Ram, hhdm: nat, a: nat)
    ensures Load(Seen(v, w, hhdm), hhdm + a) == Load(w, a)
  {
    ShownAt(w, hhdm, a);
    hide Shown;
  }

  lemma ShownAt(w: Ram, hhdm: nat, a: nat)
    ensures hhdm + a in Shown(w, hhdm) <==> a in w
  {
  }

  lemma SeenStore(v: Ram, w: Ram, hhdm: nat, a: int, x: int)
    requires SeenThrough(v, w, hhdm) && a >= 0
    ensures SeenThrough(v[hhdm + a := x], w[a := x], hhdm)
  {
    var v1, w1 := v[hhdm + a := x], w[a := x];
    forall b: nat ensures SeenHere(v1, w1, hhdm, b) {
      assert SeenHere(v, w, hhdm, b);
    }
  }

  /** Saving a context in the one view and in the other. */
  lemma SeenFrozen(v: Ram, w: Ram, hhdm: nat, c: Cpu)
    requires SeenThrough(v, w, hhdm) && c.rsp - 56 >= hhdm
    ensures SeenThrough(Frozen(v, c), Frozen(w, c.(rsp := c.rsp - hhdm)), hhdm)
  {
    hide SeenThrough;
    var p := c.rsp - hhdm;
    var v1, w1 := v[hhdm + (p - 8) := c.rip], w[p - 8 := c.rip];
    SeenStore(v, w, hhdm, p - 8, c.rip);
    var v2, w2 := v1[hhdm + (p - 16) := c.regs.rbp], w1[p - 16 := c.regs.rbp];
    SeenStore(v1, w1, hhdm, p - 16, c.regs.rbp);
    var v3, w3 := v2[hhdm + (p - 24) := c.regs.rbx], w2[p - 24 := c.regs.rbx];
    SeenStore(v2, w2, hhdm, p - 24, c.regs.rbx);
    var v4, w4 := v3[hhdm + (p - 32) := c.regs.r12], w3[p - 32 := c.regs.r12];
    SeenStore(v3, w3, hhdm, p - 32, c.regs.r12);
    var v5, w5 := v4[hhdm + (p - 40) := c.regs.r13], w4[p - 40 := c.regs.r13];
    SeenStore(v4, w4, hhdm, p - 40, c.regs.r13);
    var v6, w6 := v5[hhdm + (p - 48) := c.regs.r14], w5[p - 48 := c.regs.r14];
    SeenStore(v5, w5, hhdm, p - 48, c.regs.r14);
    SeenStore(v6, w6, hhdm, p - 56, c.regs.r15);
  }

  lemma TopShifts(hhdm: nat, base: nat)
    requires hhdm % 4096 == 0
    ensures TaskRuns.Top(hhdm + base) == hhdm + TaskRuns.Top(base)
  {
    var k, x := 256 * (hhdm / 4096), base + TaskRuns.STACK_SIZE;
    SameLowDigit(k, x);
    assert hhdm == 16 * k && TaskRuns.Top(base) == x - x % 16;
  }

  lemma SameLowDigit(k: nat, x: nat)
    ensures (16 * k + x) % 16 == x % 16
  {
    var q, r := x / 16, x % 16;
    MulModPlus(k + q, 16, r);
    assert (k + q) * 16 + r == 16 * k + x;
  }

  lemma SeenForged(v: Ram, w: Ram, hhdm: nat, entry: int, trampoline: int, base: nat)
    requires SeenThrough(v, w, hhdm) && hhdm % 4096 == 0
    ensures SeenThrough(TaskRuns.Forged(v, entry, trampoline, hhdm + base),
                        TaskRuns.Forged(w, entry, trampoline, base), hhdm)
  {
    hide SeenThrough, Frozen, TaskRuns.Top;
    var top := TopFacts(hhdm, base);
    SeenStore(v, w, hhdm, top - 8, trampoline);
    SeenFrozen(v[hhdm + (top - 8) := trampoline], w[top - 8 := trampoline], hhdm, TaskRuns.Fresh(entry, hhdm + base));
  }

  lemma TopFacts(hhdm: nat, base: nat) returns (top: nat)
    requires hhdm % 4096 == 0
    ensures top == TaskRuns.Top(base) >= 64 && TaskRuns.Top(hhdm + base) == hhdm + top
  {
    TopShifts(hhdm, base);
    TaskRuns.TopBounds(base);
    top := TaskRuns.Top(base);
  }

  /** A stack of either kind. */
  ghost predicate IsTaskStack(hhdm: nat, b: Books, e: Extent) {
    HeapStack(hhdm, b.pages, e) || BootStack(b.regions, hhdm, e)
  }

  /** Only words of the extent differ. */
  ghost predicate OnlyStack(hhdm: nat, w: Ram, after: Ram, e: Extent) {
    forall a: nat :: !(e.lo <= hhdm + a < e.hi) ==> Load(after, a) == Load(w, a)
  }

  /** Stores into a task's stack never reach the allocators' own words. */
  lemma {:induction false} StackStoresMissHeap(hhdm: nat, b: Books, w: Ram, after: Ram, e: Extent)
    requires BooksOk(b) && IsTaskStack(hhdm, b, e) && OnlyStack(hhdm, w, after, e)
    ensures HeapWordsKept(w, after, b.pages, b.s.lists)
  {
    hide BooksOk, HeapFrame, InLive, InUsable;
    forall a: nat | HeapFrame(b.pages, b.s.lists, FrameOf(a)) && !InLive(b.pages, a)
      ensures Load(after, a) == Load(w, a)
    {
      if e.lo <= hhdm + a < e.hi { StackByte(hhdm, b, e, a); }
    }
  }

  lemma StackByte(hhdm: nat, b: Books, e: Extent, a: nat)
    requires BooksOk(b) && IsTaskStack(hhdm, b, e) && e.lo <= hhdm + a < e.hi
    ensures InLive(b.pages, a) || !HeapFrame(b.pages, b.s.lists, FrameOf(a))
  {
    hide BooksOk, HeapFrame, InLive, InUsable, IsLiveObj, ObjBytes;
    if HeapStack(hhdm, b.pages, e) {
      var x :| IsStack(b.pages, x) && e == StackOf(hhdm, x);
      StackInside(hhdm, b.pages, x, hhdm + a);
    } else {
      AsideIffNoHeapFrame(b, FrameOf(a));
    }
  }

  /** Heap calls by the running task are a computation the other tasks allow: their stacks come from the
      heap or are the boot stack, and neither is touched. */
  lemma {:induction false} HeapCallIsLegal(s: TaskRuns.State, seen: Ram, hhdm: nat, b: Books, w: Ram, after: Ram)
    requires TaskRuns.Ok(s) && StacksOk(s.ring, hhdm, b.regions, b.pages)
    requires SeenThrough(s.w, w, hhdm) && SeenThrough(seen, after, hhdm)
    requires Undisturbed(w, after, b.pages) && Kept(b, w, after)
    ensures TaskRuns.Legal(s, TaskRuns.Compute(s.cpu, seen))
  {
    hide Undisturbed, Kept, SeenThrough, BootStack, HeapStack;
    forall i | 1 <= i < |s.ring| ensures TaskRuns.SameIn(s.w, seen, s.ring[i].stack) {
      StackUnchanged(hhdm, b, s.w, seen, w, after, s.ring[i].stack);
    }
  }

  lemma StackUnchanged(hhdm: nat, b: Books, v: Ram, seen: Ram, w: Ram, after: Ram, e: Extent)
    requires IsTaskStack(hhdm, b, e) && SeenThrough(v, w, hhdm) && SeenThrough(seen, after, hhdm)
    requires Undisturbed(w, after, b.pages) && Kept(b, w, after)
    ensures TaskRuns.SameIn(v, seen, e)
  {
    hide Undisturbed, Kept, IsLiveObj, ObjBytes, InUsable;
    forall a | e.lo <= a < e.hi ensures Load(seen, a) == Load(v, a) {
      if HeapStack(hhdm, b.pages, e) {
        var x :| IsStack(b.pages, x) && e == StackOf(hhdm, x);
        HeapCallKeepsStack(w, after, hhdm, b.pages, x, a);
      } else {
        BootStackKept(b, w, after, hhdm, e, a - hhdm);
      }
      assert SeenHere(v, w, hhdm, a - hhdm) && SeenHere(seen, after, hhdm, a - hhdm);
    }
  }

  lemma FrozenOnStack(hhdm: nat, w: Ram, c: Cpu, e: Extent)
    requires e.lo + 56 <= c.rsp <= e.hi && hhdm <= e.lo
    ensures OnlyStack(hhdm, w, Frozen(w, c.(rsp := c.rsp - hhdm)), e)
  {
    hide Frozen;
    forall a: nat | !(e.lo <= hhdm + a < e.hi)
      ensures Load(Frozen(w, c.(rsp := c.rsp - hhdm)), a) == Load(w, a)
    {
      FrozenBelow(w, c.(rsp := c.rsp - hhdm), a);
    }
  }

  lemma ForgedOnStack(hhdm: nat, w: Ram, entry: int, trampoline: int, base: nat)
    ensures OnlyStack(hhdm, w, TaskRuns.Forged(w, entry, trampoline, base), TaskRuns.StackAt(hhdm + base))
  {
    hide TaskRuns.Forged;
    forall a: nat | !(hhdm + base <= hhdm + a < hhdm + base + TaskRuns.STACK_SIZE)
      ensures Load(TaskRuns.Forged(w, entry, trampoline, base), a) == Load(w, a)
    {
      TaskRuns.ForgedKeeps(w, entry, trampoline, base, Extent(a, a + 1));
      assert Extent(a, a + 1).lo <= a < Extent(a, a + 1).hi;
    }
  }

  /** What a yield stores, in the allocators' view: seven words of the running task's stack, or nothing. */
  lemma {:induction false} YieldWords(s: TaskRuns.State, site: int, hhdm: nat, b: Books, w: Ram, after: Ram)
    requires TaskRuns.Ok(s) && TaskRuns.Legal(s, TaskRuns.Yield(site)) && BooksOk(b) && hhdm % 4096 == 0
    requires StacksOk(s.ring, hhdm, b.regions, b.pages) && SeenThrough(s.w, w, hhdm)
    requires after == if |s.ring| == 1 then w else Frozen(w, Cpu(s.cpu.rsp - hhdm, site, s.cpu.regs))
    ensures SeenThrough(TaskRuns.Step(s, TaskRuns.Yield(site)).w, after, hhdm)
    ensures OnlyStack(hhdm, w, after, s.ring[0].stack) && HeapWordsKept(w, after, b.pages, b.s.lists)
  {
    hide BooksOk, HeapStack, BootStack, SeenThrough, Frozen, Thawed, HeapWordsKept, TaskRuns.StacksApart;
    var e := s.ring[0].stack;
    if |s.ring| > 1 {
      var c := s.cpu.(rip := site);
      TaskStackBounds(hhdm, b, e);
      FrozenOnStack(hhdm, w, c, e);
      SeenFrozen(s.w, w, hhdm, c);
    }
    StackStoresMissHeap(hhdm, b, w, after, e);
  }

  lemma TaskStackBounds(hhdm: nat, b: Books, e: Extent)
    requires IsTaskStack(hhdm, b, e)
    ensures hhdm <= e.lo
  {
  }

  lemma YieldStacksOk(s: TaskRuns.State, site: int, hhdm: nat, regions: seq<Entry>, pages: Pages)
    requires StacksOk(s.ring, hhdm, regions, pages) && s.ring != []
    ensures StacksOk(TaskRuns.Step(s, TaskRuns.Yield(site)).ring, hhdm, regions, pages)
  {
    hide HeapStack, BootStack, Frozen, Thawed;
    var r := TaskRuns.Step(s, TaskRuns.Yield(site)).ring;
    assert |s.ring| > 1 ==> forall i :: 0 <= i < |r| ==> r[i].stack == s.ring[if i + 1 < |r| then i + 1 else 0].stack;
  }

  /** A new stack's words are nobody else's. */
  lemma {:induction false} NewStackStores(hhdm: nat, b: Books, was: Pages, y: Obj, w: Ram, after: Ram)
    requires BooksOk(b) && IsStack(b.pages, y) && !IsLiveObj(was, y) && StaysLive(was, b.pages)
    requires OnlyStack(hhdm, w, after, StackOf(hhdm, y))
    ensures Undisturbed(w, after, was) && Kept(b, w, after)
  {
    forall a: nat | InLive(was, a) ensures Load(after, a) == Load(w, a) {
      var x :| IsLiveObj(was, x) && Inside(x, a);
      assert IsLiveObj(b.pages, x) && x != y;
      if StackOf(hhdm, y).lo <= hhdm + a < StackOf(hhdm, y).hi {
        LiveObjectsDisjoint(b.pages, b.s, x, y, a);
      }
    }
    forall a: nat | Aside(b, FrameOf(a)) ensures Load(after, a) == Load(w, a) {
      if StackOf(hhdm, y).lo <= hhdm + a < StackOf(hhdm, y).hi {
        StackInside(hhdm, b.pages, y, hhdm + a);
        LiveByteIsHeapFrame(b.pages, b.s.lists, a);
        AsideIffNoHeapFrame(b, FrameOf(a));
      }
    }
  }

  // ---- the scheduler over the heap -------------------------------------------------------------------

  /** The scheduler, which knows memory by virtual address, and the allocators, which know it by physical
      address. It is one memory: whatever the one side stores, the other side sees. */
  class Threads {
    const sched: Scheduler
    const stack: Stack

    ghost predicate Apart()
      reads sched, stack, stack.pmm
    {
      sched.cpu.memory !in stack.Repr()
    }

    ghost predicate Valid()
      reads sched, sched.cpu, sched.cpu.memory, sched.ring, stack, stack.pmm, stack.Repr()
    {
      && sched.Valid() && stack.Valid() && Apart()
      && SeenThrough(sched.cpu.memory.w, stack.heap.mem.w, stack.heap.hhdm)
      && StacksOk(sched.View().ring, stack.heap.hhdm, stack.regions, stack.heap.pages)
    }

    /** Right after sched_init: one task, on the boot stack. */
    constructor (sched: Scheduler, stack: Stack)
      requires sched.Valid() && stack.Valid() && sched.cpu.memory !in stack.Repr()
      requires SeenThrough(sched.cpu.memory.w, stack.heap.mem.w, stack.heap.hhdm)
      requires |sched.ring| == 1 && BootStack(stack.regions, stack.heap.hhdm, sched.ring[0].stack)
      ensures Valid() && this.sched == sched && this.stack == stack
    {
      this.sched, this.stack := sched, stack;
      hide BootStack, BooksOk, HeapOk, Owned, InReach, BuddyRuns.Sound, SeenThrough, HeapStack, Distinct, Circular;
    }

    /** The tasks see what the heap stored since memory was w: for them a computation of the running task. */
    method Follow(ghost b: Books, ghost w: Ram)
      requires sched.Valid() && stack.Valid() && Apart()
      requires SeenThrough(sched.cpu.memory.w, w, stack.heap.hhdm)
      requires StacksOk(sched.View().ring, stack.heap.hhdm, b.regions, b.pages)
      requires Undisturbed(w, stack.heap.mem.w, b.pages) && Kept(b, w, stack.heap.mem.w)
      modifies sched.cpu.memory
      ensures sched.Valid() && stack.Valid()
      ensures SeenThrough(sched.cpu.memory.w, stack.heap.mem.w, stack.heap.hhdm)
      ensures var op := TaskRuns.Compute(sched.cpu.Now(), sched.cpu.memory.w);
        && old(sched.View()).ring != [] && TaskRuns.Legal(old(sched.View()), op)
        && sched.View() == TaskRuns.Step(old(sched.View()), op)
    {
      hide SeenThrough, StacksOk, Undisturbed, Kept, TaskRuns.Legal, TaskRuns.Ok, Stack.Valid, Seen, Entries, Circular;
      hide Distinct, BooksOk, HeapOk, Owned, InReach, BuddyRuns.Sound;
      StackFacts(stack);
      SeenIs(sched.cpu.memory.w, stack.heap.mem.w, stack.heap.hhdm);
      var seen := Seen(sched.cpu.memory.w, stack.heap.mem.w, stack.heap.hhdm);
      HeapCallIsLegal(sched.View(), seen, stack.heap.hhdm, b, w, stack.heap.mem.w);
      sched.Compute(seen);
    }

    /** task_create over the heap itself: a structure and a stack, or neither. A new task's stack overlaps no
        other task's, no object there was is touched, and when there is no room for both, nothing stays
        allocated. To the tasks the heap's work is a computation, after which the task is created. */
    method TaskCreate(entry: int, trampoline: int)
      returns (t: Task?, ghost node: Obj, ghost area: Obj, ghost seen: Ram)
      requires Valid()
      modifies sched, sched.cpu.memory, sched.ring
      modifies stack.heap`pages, stack.heap`slabs, stack.heap.caches, stack.heap.buddy`lists, stack.heap.buddy`live,
               stack.heap.mem, stack.heap.buddy.freeList, stack.heap.buddy.freeCount
      ensures Valid()
      ensures var op := TaskRuns.Compute(old(sched.cpu.Now()), seen);
        && old(sched.View()).ring != [] && TaskRuns.Legal(old(sched.View()), op)
        && (t == null ==> sched.View() == TaskRuns.Step(old(sched.View()), op))
        && (t != null ==>
              var mid := TaskRuns.Step(old(sched.View()), op);
              var create := TaskRuns.Create(entry, trampoline, t.stackBase);
              mid.ring != [] && TaskRuns.Legal(mid, create) && sched.View() == TaskRuns.Step(mid, create))
      ensures t == null ==>
        && SameObjects(old(stack.heap.pages), stack.heap.pages)
        && NoTaskRoom(stack.heap.pages, stack.heap.slabs, stack.heap.buddy.lists)
      ensures t != null ==>
        && TwoMore(old(stack.heap.pages), stack.heap.pages, node, area)
        && IsStack(stack.heap.pages, area) && t.stackBase == stack.heap.hhdm + ObjAddr(area)
        && HoldsBytes(node, 32) && HoldsBytes(area, 16384)
      ensures Undisturbed(old(stack.heap.mem.w), stack.heap.mem.w, old(stack.heap.pages))
      ensures Kept(old(stack.Ledger()), old(stack.heap.mem.w), stack.heap.mem.w)
    {
      hide BooksOk, HeapOk, Owned, InReach, StacksOk, Undisturbed, Kept, TwoMore, SameObjects, StaysLive, Appears;
      hide TaskRuns.Legal, TaskRuns.Step, ObjAddr, ObjBytes, Stack.Valid, Scheduler.Valid, Pow2, IsStack, IsLiveObj;
      hide Entries, NoStackRoom, NoRoom, Terminates, NoTaskRoom, SeenThrough, BuddyRuns.Sound, HoldsBytes;
      ghost var was, b0, w0 := stack.heap.pages, stack.Ledger(), stack.heap.mem.w;
      StackFacts(stack);
      var p, base;
      p, base, node, area := Room(stack);
      if base == 0 {
        t, seen := NoStart(entry, trampoline, p, node, b0, w0);
      } else {
        NewIsNew(was, stack.heap.pages, node, area);
        t, seen := Start(entry, trampoline, base, area, b0, w0);
      }
    }

    /** The stack is missing, or the structure too: what there is goes back. */
    method NoStart(entry: int, trampoline: int, p: nat, ghost node: Obj, ghost b: Books, ghost w: Ram)
      returns (t: Task?, ghost seen: Ram)
      requires sched.Valid() && stack.Valid() && Apart()
      requires SeenThrough(sched.cpu.memory.w, w, stack.heap.hhdm)
      requires StacksOk(sched.View().ring, stack.heap.hhdm, b.regions, b.pages)
      requires Undisturbed(w, stack.heap.mem.w, b.pages) && Kept(b, w, stack.heap.mem.w)
      requires b.regions == stack.regions && b.used == stack.pmm.used
      requires b.handed == stack.handed && b.blocks == stack.blocks && StaysLive(b.pages, stack.heap.pages)
      requires p == 0 ==>
        && SameObjects(b.pages, stack.heap.pages)
        && NoTaskRoom(stack.heap.pages, stack.heap.slabs, stack.heap.buddy.lists)
      requires p != 0 ==>
        && node.Small? && NoStackRoom(stack.heap.buddy.lists)
        && Appears(b.pages, stack.heap.pages, node) && p == stack.heap.hhdm + ObjAddr(node)
      modifies sched, sched.cpu.memory, sched.ring
      modifies stack.heap`pages, stack.heap.caches, stack.heap.buddy`lists, stack.heap.buddy`live,
               stack.heap.mem, stack.heap.buddy.freeList, stack.heap.buddy.freeCount
      ensures Valid() && t == null
      ensures var op := TaskRuns.Compute(old(sched.cpu.Now()), seen);
        && old(sched.View()).ring != [] && TaskRuns.Legal(old(sched.View()), op)
        && sched.View() == TaskRuns.Step(old(sched.View()), op)
      ensures SameObjects(b.pages, stack.heap.pages)
      ensures NoTaskRoom(stack.heap.pages, stack.heap.slabs, stack.heap.buddy.lists)
      ensures Undisturbed(w, stack.heap.mem.w, b.pages) && Kept(b, w, stack.heap.mem.w)
    {
      hide BooksOk, HeapOk, Owned, InReach, StacksOk, Undisturbed, Kept, SameObjects, StaysLive, Appears, SeenThrough;
      hide TaskRuns.Legal, TaskRuns.Step, ObjAddr, Stack.Valid, Scheduler.Valid, Pow2, IsLiveObj, Entries;
      hide NoStackRoom, NoRoom, NoTaskRoom, BuddyRuns.Sound;
      ghost var v := sched.View();
      StackFacts(stack);
      StackSizes();
      var freed;
      t, freed := sched.TaskCreate(entry, trampoline, p != 0, 0);
      if freed {
        GiveBack(stack, p, node, b.pages, b, w);
        NoStackNoTask(stack.heap.pages, stack.heap.slabs, stack.heap.buddy.lists);
      }
      Follow(b, w);
      seen := sched.cpu.memory.w;
      StacksFollow(v.ring, stack.heap.hhdm, stack.regions, b.pages, stack.heap.pages);
      ComputedRing(v, sched.View(), seen);
    }

    /** Both objects are there: the task is made. */
    method Start(entry: int, trampoline: int, base: nat, ghost area: Obj, ghost b: Books, ghost w: Ram)
      returns (t: Task, ghost seen: Ram)
      requires sched.Valid() && stack.Valid() && Apart()
      requires SeenThrough(sched.cpu.memory.w, w, stack.heap.hhdm)
      requires StacksOk(sched.View().ring, stack.heap.hhdm, b.regions, b.pages)
      requires Undisturbed(w, stack.heap.mem.w, b.pages) && Kept(b, w, stack.heap.mem.w)
      requires b.regions == stack.regions && b.used == stack.pmm.used
      requires b.handed == stack.handed && b.blocks == stack.blocks
      requires !IsLiveObj(b.pages, area) && StaysLive(b.pages, stack.heap.pages) && IsLiveObj(stack.heap.pages, area)
      requires base == stack.heap.hhdm + ObjAddr(area) && base != 0 && TaskRuns.STACK_SIZE <= ObjBytes(area)
      modifies sched, sched.cpu.memory, sched.ring, stack.heap.mem
      ensures Valid() && IsStack(stack.heap.pages, area) && t.stackBase == base
      ensures var op := TaskRuns.Compute(old(sched.cpu.Now()), seen);
        && old(sched.View()).ring != [] && TaskRuns.Legal(old(sched.View()), op)
        && var mid := TaskRuns.Step(old(sched.View()), op);
           var create := TaskRuns.Create(entry, trampoline, base);
           mid.ring != [] && TaskRuns.Legal(mid, create) && sched.View() == TaskRuns.Step(mid, create)
      ensures Undisturbed(w, stack.heap.mem.w, b.pages) && Kept(b, w, stack.heap.mem.w)
    {
      hide BooksOk, HeapOk, Owned, InReach, StacksOk, Undisturbed, Kept, StaysLive, TaskRuns.Legal, TaskRuns.Step;
      hide ObjAddr, ObjBytes, Stack.Valid, Scheduler.Valid, Pow2, IsStack, IsLiveObj, Entries, SeenThrough;
      hide BuddyRuns.Sound;
      ghost var v := sched.View();
      StackFacts(stack);
      Follow(b, w);
      seen := sched.cpu.memory.w;
      ghost var mid := sched.View();
      ComputedRing(v, mid, seen);
      StackFacts(stack);
      NewStack(mid, stack.heap.hhdm, stack.Ledger(), b.pages, area, entry, trampoline);
      StackFits(stack.heap.hhdm, stack.heap.pages, stack.heap.buddy.Now(), area);
      var made, freed := sched.TaskCreate(entry, trampoline, true, base);
      t := made;
      CreatedWords(mid, entry, trampoline, base);
      ForgeBelow(b, w, b.pages, area, entry, trampoline, base, seen);
    }

    /** Switching tasks: seven words on the running task's own stack, in both views. */
    method Yield(site: int)
      requires Valid() && sched.View().ring != [] && TaskRuns.Legal(sched.View(), TaskRuns.Yield(site))
      modifies sched, sched.cpu, sched.cpu.memory, sched.ring, stack.heap.mem
      ensures Valid() && sched.View() == TaskRuns.Step(old(sched.View()), TaskRuns.Yield(site))
      ensures OnlyStack(stack.heap.hhdm, old(stack.heap.mem.w), stack.heap.mem.w, old(sched.current.stack))
    {
      hide BooksOk, HeapOk, Owned, InReach, BuddyRuns.Sound, Stack.Valid, StacksOk, SeenThrough, OnlyStack, Frozen;
      hide HeapWordsKept, HeapStack, BootStack, Entries, TaskRuns.Step, TaskRuns.Legal, Scheduler.Valid, IsTaskStack;
      StackFacts(stack);
      var c := sched.cpu.Now();
      var alone := Alone();
      var from := Cpu(c.rsp - stack.heap.hhdm, site, c.regs);
      var after := if alone then stack.heap.mem.w else Frozen(stack.heap.mem.w, from);
      YieldPlan(site, after);
      sched.Yield(site);
      stack.StoreAll(after);
    }

    /** What a switch stores keeps the tasks' view and the allocators' view together. */
    lemma YieldPlan(site: int, after: Ram)
      requires Valid() && sched.View().ring != [] && TaskRuns.Legal(sched.View(), TaskRuns.Yield(site))
      requires var c := sched.cpu.Now();
        after == if |sched.View().ring| == 1 then stack.heap.mem.w
                 else Frozen(stack.heap.mem.w, Cpu(c.rsp - stack.heap.hhdm, site, c.regs))
      ensures var s := TaskRuns.Step(sched.View(), TaskRuns.Yield(site));
        && SeenThrough(s.w, after, stack.heap.hhdm)
        && StacksOk(s.ring, stack.heap.hhdm, stack.regions, stack.heap.pages)
      ensures OnlyStack(stack.heap.hhdm, stack.heap.mem.w, after, sched.current.stack)
      ensures HeapWordsKept(stack.heap.mem.w, after, stack.heap.pages, stack.heap.buddy.lists)
    {
      hide BooksOk, HeapOk, Owned, InReach, BuddyRuns.Sound, Stack.Valid, StacksOk, SeenThrough, OnlyStack, Frozen;
      hide HeapWordsKept, HeapStack, BootStack, Entries, TaskRuns.Step, TaskRuns.Legal, Scheduler.Valid, IsTaskStack;
      var v, hhdm := sched.View(), stack.heap.hhdm;
      RingThere(sched);
      CurrentIsFirst(sched);
      StackFacts(stack);
      YieldWords(v, site, hhdm, stack.Ledger(), stack.heap.mem.w, after);
      YieldStacksOk(v, site, hhdm, stack.regions, stack.heap.pages);
    }

    method Alone() returns (alone: bool)
      requires sched.Valid()
      ensures alone <==> |sched.View().ring| == 1
    {
      hide Distinct, Circular, TaskRuns.Ok;
      AloneIff(sched.ring);
      alone := sched.current.next == sched.current;
    }

    /** The forged words of a new stack, in the allocators' view. */
    method ForgeBelow(ghost b: Books, ghost w: Ram, ghost was: Pages, ghost area: Obj, entry: int, trampoline: int,
                      base: nat, ghost v: Ram)
      requires sched.Valid() && stack.Valid() && Apart() && IsStack(stack.heap.pages, area)
      requires base == stack.heap.hhdm + ObjAddr(area) && !IsLiveObj(was, area) && StaysLive(was, stack.heap.pages)
      requires SeenThrough(v, stack.heap.mem.w, stack.heap.hhdm)
      requires sched.cpu.memory.w == TaskRuns.Forged(v, entry, trampoline, base)
      requires Undisturbed(w, stack.heap.mem.w, was) && Kept(b, w, stack.heap.mem.w)
      requires b.regions == stack.regions && b.used == stack.pmm.used
      requires b.handed == stack.handed && b.blocks == stack.blocks
      modifies stack.heap.mem
      ensures sched.Valid() && stack.Valid() && sched.View() == old(sched.View())
      ensures SeenThrough(sched.cpu.memory.w, stack.heap.mem.w, stack.heap.hhdm)
      ensures Undisturbed(w, stack.heap.mem.w, was) && Kept(b, w, stack.heap.mem.w)
    {
      hide BooksOk, HeapOk, Owned, InReach, Undisturbed, Kept, StaysLive, BuddyRuns.Sound, Stack.Valid, Scheduler.Valid;
      hide TaskRuns.Forged, SeenThrough, OnlyStack, HeapWordsKept, HeapStack, Entries, Pow2, IsLiveObj;
      StackFacts(stack);
      ghost var mid, b1 := stack.heap.mem.w, stack.Ledger();
      var at := base - stack.heap.hhdm;
      var after := TaskRuns.Forged(stack.heap.mem.w, entry, trampoline, at);
      ForgedOnStack(stack.heap.hhdm, mid, entry, trampoline, at);
      AreaIsTaskStack(stack.heap.hhdm, b1, area);
      StackStoresMissHeap(stack.heap.hhdm, b1, mid, after, StackOf(stack.heap.hhdm, area));
      NewStackStores(stack.heap.hhdm, b1, was, area, mid, after);
      SeenForged(v, mid, stack.heap.hhdm, entry, trampoline, at);
      stack.StoreAll(after);
      SameUndisturbed(w, mid, after, was);
      KeptTwice(b, b1, w, mid, after);
    }
  }

  lemma CreatedWords(s: TaskRuns.State, entry: int, trampoline: int, base: int)
    ensures TaskRuns.Step(s, TaskRuns.Create(entry, trampoline, base)).w ==
      TaskRuns.Forged(s.w, entry, trampoline, base)
  {
  }

  lemma SameUndisturbed(w: Ram, mid: Ram, after: Ram, was: Pages)
    requires Undisturbed(w, mid, was) && Undisturbed(mid, after, was)
    ensures Undisturbed(w, after, was)
  {
    hide InLive;
  }

  lemma AreaIsTaskStack(hhdm: nat, b: Books, area: Obj)
    requires IsStack(b.pages, area)
    ensures HeapStack(hhdm, b.pages, StackOf(hhdm, area)) && IsTaskStack(hhdm, b, StackOf(hhdm, area))
    ensures StackOf(hhdm, area) == TaskRuns.StackAt(hhdm + ObjAddr(area))
  {
    hide IsLiveObj;
  }

  lemma ComputedRing(v: TaskRuns.State, mid: TaskRuns.State, seen: Ram)
    requires mid == TaskRuns.Step(v, TaskRuns.Compute(v.cpu, seen))
    ensures mid.ring == v.ring && mid.w == seen && mid.cpu == v.cpu
  {
  }
}
