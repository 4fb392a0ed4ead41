/** Who owns each usable frame once the three allocators are stacked on each other. */
module FrameOwnership {
  import opened PhysicalMemory
  import opened PhysicalFrames
  import opened BuddyBlocks
  import opened BuddyLinks
  import opened BuddyLists
  import opened BuddyRuns
  import opened BuddySeed
  import opened BuddyClaims
  import opened SlabPages
  import opened SlabHeap

  datatype Owner = FreeFrames | Bitmap | HandedOut | BuddyFree | BlockHeld | SlabOwned | LargeOwned

  /** The books of the whole stack: used bits, the runs the buddy allocator took, single frames handed
      out by the bitmap allocator, the buddy state, blocks that callers hold directly, and the heap's pages. */
  datatype Books = Books(regions: seq<Entry>, used: seq<bool>, runs: seq<FrameRun>, handed: set<nat>, s: State,
                         blocks: set<Block>, pages: Pages)

  ghost predicate Owns(b: Books, o: Owner, f: nat) {
    match o
    case FreeFrames => f < |b.used| && !b.used[f]
    case Bitmap => HoldsBitmap(b.regions, f)
    case HandedOut => f in b.handed
    case BuddyFree => IsFree(b.s.lists, f)
    case BlockHeld => exists k :: k in b.blocks && Covers(k, f)
    case SlabOwned => f in b.pages && b.pages[f].SlabPage?
    case LargeOwned => exists g :: g in b.pages && b.pages[g].LargePage? && Covers(BlockOf(g, b.pages[g]), f)
  }

  /** Which frames are marked used, and why. */
  ghost predicate Accounted(b: Books) {
    && MapOk(b.regions) && |b.used| == SpannedFrames(b.regions)
    && (forall f :: 0 <= f < |b.used| ==>
          (b.used[f] <==> !InUsable(b.regions, f) || HoldsBitmap(b.regions, f) || f in b.handed || InRuns(b.runs, f)))
    && (forall f :: f in b.handed ==>
          f < |b.used| && InUsable(b.regions, f) && !HoldsBitmap(b.regions, f) && !InRuns(b.runs, f))
    && (forall f: nat :: InRuns(b.runs, f) ==>
          f < |b.used| && InUsable(b.regions, f) && !HoldsBitmap(b.regions, f))
  }

  /** The buddy allocator deals in exactly the frames of its runs, and a block it handed out is either
      one of the heap's or held by a direct caller. */
  ghost predicate Borrowed(b: Books) {
    && Sound(b.s) && Owned(b.pages, b.s.live)
    && (forall f: nat :: IsFree(b.s.lists, f) || IsLive(b.s, f) <==> InRuns(b.runs, f))
    && b.blocks <= b.s.live && (forall k :: k in b.s.live ==> (IsPageBlock(b.pages, k) <==> k !in b.blocks))
  }

  ghost predicate BooksOk(b: Books) {
    Accounted(b) && Borrowed(b)
  }

  lemma OverlapIsSamePage(b: Books, f: nat, g: nat)
    requires Borrowed(b) && f in b.pages && g in b.pages
    requires Covers(BlockOf(f, b.pages[f]), f) && Covers(BlockOf(g, b.pages[g]), f)
    ensures f == g
  {
    assert BlockOf(g, b.pages[g]) == BlockOf(f, b.pages[f]);
  }

  lemma HeldIsNotHeap(b: Books, f: nat)
    requires Borrowed(b)
    ensures !(Owns(b, BlockHeld, f) && (Owns(b, SlabOwned, f) || Owns(b, LargeOwned, f)))
  {
    if Owns(b, BlockHeld, f) {
      var k :| k in b.blocks && Covers(k, f);
      HeldIsNoHeapFrame(b.pages, b.s, k, f);
      if f in b.pages { assert Covers(BlockOf(f, b.pages[f]), f); }
    }
  }

  lemma {:induction false} LiveMeansBorrowed(b: Books, f: nat)
    requires Borrowed(b)
    ensures IsLive(b.s, f) <==> Owns(b, BlockHeld, f) || Owns(b, SlabOwned, f) || Owns(b, LargeOwned, f)
    ensures !(Owns(b, SlabOwned, f) && Owns(b, LargeOwned, f))
    ensures !(Owns(b, BlockHeld, f) && (Owns(b, SlabOwned, f) || Owns(b, LargeOwned, f)))
    ensures !(IsLive(b.s, f) && IsFree(b.s.lists, f))
  {
    BuddyRuns.LiveIsNotFree(b.s);
    HeldIsNotHeap(b, f);
    LiveHasOwner(b, f);
    SlabIsNotLarge(b, f);
    hide Borrowed, Sound;
  }

  lemma LiveHasOwner(b: Books, f: nat)
    requires Borrowed(b)
    ensures IsLive(b.s, f) <==> Owns(b, BlockHeld, f) || Owns(b, SlabOwned, f) || Owns(b, LargeOwned, f)
  {
    hide Sound;
    if IsLive(b.s, f) {
      var k :| k in b.s.live && Covers(k, f);
      assert IsPageBlock(b.pages, k) || k in b.blocks;
    }
    if Owns(b, SlabOwned, f) { assert Covers(BlockOf(f, b.pages[f]), f); }
  }

  lemma SlabIsNotLarge(b: Books, f: nat)
    requires Borrowed(b)
    ensures !(Owns(b, SlabOwned, f) && Owns(b, LargeOwned, f))
  {
    if Owns(b, SlabOwned, f) {
      assert Covers(BlockOf(f, b.pages[f]), f);
      if Owns(b, LargeOwned, f) {
        var g :| g in b.pages && b.pages[g].LargePage? && Covers(BlockOf(g, b.pages[g]), f);
        OverlapIsSamePage(b, f, g);
      }
    }
  }

  /** Every usable frame has exactly one owner, and no other frame has any. */
  lemma {:induction false} ExactlyOneOwner(b: Books, f: nat)
    requires BooksOk(b)
    ensures InUsable(b.regions, f) ==> exists o :: Owns(b, o, f)
    ensures !InUsable(b.regions, f) ==> forall o :: !Owns(b, o, f)
    ensures forall o, p :: Owns(b, o, f) && Owns(b, p, f) ==> o == p
  {
    LiveMeansBorrowed(b, f);
    BitmapFrames(b.regions);
    if InUsable(b.regions, f) {
      SpansUsable(b.regions, f);
      if HoldsBitmap(b.regions, f) { assert Owns(b, Bitmap, f); }
      else if f in b.handed { assert Owns(b, HandedOut, f); }
      else if IsFree(b.s.lists, f) { assert Owns(b, BuddyFree, f); }
      else if Owns(b, BlockHeld, f) {}
      else if Owns(b, SlabOwned, f) {}
      else if Owns(b, LargeOwned, f) {}
      else { assert Owns(b, FreeFrames, f); }
    }
  }

  // ---- the steps of the stack -----------------------------------------------------------------

  lemma HandOut(b: Books, f: nat)
    requires BooksOk(b) && f < |b.used| && !b.used[f]
    ensures f !in b.handed && BooksOk(b.(used := b.used[f := true], handed := b.handed + {f}))
  {
  }

  lemma TakeBack(b: Books, f: nat)
    requires BooksOk(b) && f in b.handed
    ensures f < |b.used| && f > 0 && b.used[f] && BooksOk(b.(used := b.used[f := false], handed := b.handed - {f}))
  {
    SpansUsable(b.regions, f);
  }

  lemma {:induction false} HeapMoves(b: Books, s: State, pages: Pages)
    requires BooksOk(b) && Sound(s) && Owned(pages, s.live) && Conserved(b.pages, b.s, pages, s)
    ensures BooksOk(b.(s := s, pages := pages))
  {
    var now := b.(s := s, pages := pages);
    forall f: nat ensures IsFree(s.lists, f) || IsLive(s, f) <==> InRuns(b.runs, f) {
      assert IsFree(b.s.lists, f) || IsLive(b.s, f) <==> InRuns(b.runs, f);
    }
    assert Accounted(now);
  }

  /** A block handed out to a direct caller. */
  lemma {:induction false} BlockOut(b: Books, t: State, k: Block)
    requires BooksOk(b) && Sound(t) && Steady(b.s, t)
    requires k !in b.s.live && t.live == b.s.live + {k} && k.base !in b.pages
    ensures k !in b.blocks && BooksOk(b.(s := t, blocks := b.blocks + {k}))
  {
    var now := b.(s := t, blocks := b.blocks + {k});
    forall f: nat ensures IsFree(t.lists, f) || IsLive(t, f) <==> InRuns(b.runs, f) {
      assert IsFree(b.s.lists, f) || IsLive(b.s, f) <==> InRuns(b.runs, f);
    }
    assert Accounted(now) && Owned(b.pages, t.live);
  }

  /** A block given back by the caller that holds it. */
  lemma {:induction false} BlockBack(b: Books, t: State, k: Block)
    requires BooksOk(b) && Sound(t) && Steady(b.s, t) && k in b.blocks && t.live == b.s.live - {k}
    ensures BooksOk(b.(s := t, blocks := b.blocks - {k}))
  {
    var now := b.(s := t, blocks := b.blocks - {k});
    forall f: nat ensures IsFree(t.lists, f) || IsLive(t, f) <==> InRuns(b.runs, f) {
      assert IsFree(b.s.lists, f) || IsLive(b.s, f) <==> InRuns(b.runs, f);
    }
    forall f | f in b.pages ensures BlockOf(f, b.pages[f]) in t.live {
      assert IsPageBlock(b.pages, BlockOf(f, b.pages[f]));
    }
    assert Accounted(now);
  }

  /** Right after the hand-over: what was handed out before stays, the claimed runs are the buddy's. */
  lemma {:induction false} HandOverBooks(regions: seq<Entry>, before: seq<bool>, now: seq<bool>, runs: seq<FrameRun>,
                                         handed: set<nat>, s: State)
    requires Accounted(Books(regions, before, [], handed, s, {}, map[]))
    requires Claimed(before, now, runs) && Sound(s) && s.live == {}
    requires forall f: nat :: IsFree(s.lists, f) <==> f < |now| && now[f] && !before[f]
    ensures BooksOk(Books(regions, now, runs, handed, s, {}, map[]))
  {
    forall f: nat ensures !InRuns([], f) {}
    forall f: nat ensures IsFree(s.lists, f) <==> InRuns(runs, f) {}
    forall f: nat | InRuns(runs, f)
      ensures f < |now| && InUsable(regions, f) && !HoldsBitmap(regions, f) && f !in handed
    {
      assert !before[f];
    }
  }

  lemma StartBooks(regions: seq<Entry>, used: seq<bool>, s: State)
    requires MapOk(regions) && Truthful(regions, used)
    ensures Accounted(Books(regions, used, [], {}, s, {}, map[]))
  {
    forall f: nat ensures !InRuns([], f) {}
    BitmapFrames(regions);
  }

  lemma HandOutEarly(b: Books, f: nat)
    requires Accounted(b) && f < |b.used| && !b.used[f]
    ensures f !in b.handed && Accounted(b.(used := b.used[f := true], handed := b.handed + {f}))
  {
  }

  lemma FreeIsUsable(b: Books)
    requires Accounted(b)
    ensures forall g :: 0 <= g < |b.used| && !b.used[g] ==> InUsable(b.regions, g)
  {
  }

  // ---- frames the heap has nothing to do with ---------------------------------------------------

  /** Frame f is no usable memory, or one of the bitmap's own, or still with the bitmap allocator, or
      handed out singly, or part of a block a caller holds: anything but a free block or the heap's. */
  ghost predicate Aside(b: Books, f: nat) {
    || !InUsable(b.regions, f) || HoldsBitmap(b.regions, f) || (f < |b.used| && !b.used[f]) || f in b.handed
    || exists k :: k in b.blocks && Covers(k, f)
  }

  /** No word of such a frame differs. */
  ghost predicate Kept(b: Books, w: Ram, after: Ram) {
    forall a: nat :: Aside(b, FrameOf(a)) ==> Load(after, a) == Load(w, a)
  }

  /** Frames set aside are exactly those the two allocators never write to. */
  lemma {:induction false} AsideIffNoHeapFrame(b: Books, f: nat)
    requires BooksOk(b)
    ensures Aside(b, f) <==> !HeapFrame(b.pages, b.s.lists, f)
  {
    LiveMeansBorrowed(b, f);
    if exists k :: k in b.blocks && Covers(k, f) {
      var k :| k in b.blocks && Covers(k, f);
      HeldIsNoHeapFrame(b.pages, b.s, k, f);
    } else if InRuns(b.runs, f) {
      if !IsFree(b.s.lists, f) { BorrowedInPage(b, f); }
    } else {
      ForeignIsNoHeapFrame(b.pages, b.s, f);
      if InUsable(b.regions, f) { SpansUsable(b.regions, f); }
    }
  }

  lemma BorrowedInPage(b: Books, f: nat)
    requires Borrowed(b) && IsLive(b.s, f) && forall k :: k in b.blocks ==> !Covers(k, f)
    ensures InPage(b.pages, f)
  {
    var k :| k in b.s.live && Covers(k, f);
    assert IsPageBlock(b.pages, k);
  }

  /** Heap calls leave all memory that is not theirs: page tables, held blocks, the bitmap and the frames
      it still has, and memory that is not usable, such as the boot stack. */
  lemma {:induction false} OthersKept(b: Books, w: Ram, after: Ram)
    requires BooksOk(b) && OthersUntouched(w, after, b.pages, b.s)
    ensures Kept(b, w, after)
  {
    hide BooksOk, Aside, HeapFrame;
    forall a: nat | Aside(b, FrameOf(a)) ensures Load(after, a) == Load(w, a) {
      AsideIffNoHeapFrame(b, FrameOf(a));
    }
  }

  /** So does giving back a block, the block itself aside. */
  lemma {:induction false} ReturnKept(b: Books, w: Ram, after: Ram)
    requires BooksOk(b) && OnlyFreeTouched(w, after, b.s.lists)
    ensures Kept(b, w, after)
  {
    hide BooksOk, Aside;
    forall a: nat | Aside(b, FrameOf(a)) ensures Load(after, a) == Load(w, a) {
      AsideIffNoHeapFrame(b, FrameOf(a));
    }
  }
}
