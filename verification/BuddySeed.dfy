/** Seeding the free lists: how a run of frames is chopped into blocks, and when the result is coalesced. */
module BuddySeed {
  import opened Bits
  import opened BuddyBlocks
  import opened BuddyLists

  /** Greatest order up to o whose block starts aligned at `frame` and stays below `end`. */
  function LargestFit(frame: nat, end: nat, o: nat): (r: nat)
    ensures r <= o
    ensures r == 0 || (AlignedTo(frame, r) && frame + Pow2(r) <= end)
    ensures forall k :: r < k <= o ==> !(AlignedTo(frame, k) && frame + Pow2(k) <= end)
  {
    if o > 0 && (!AlignedTo(frame, o) || frame + Pow2(o) > end) then LargestFit(frame, end, o - 1) else o
  }

  /** The pushes of seed_run over [frame, end). */
  function SeedRun(lists: Lists, frame: nat, end: nat): (r: Lists)
    requires |lists| == MAX_ORDER + 1
    ensures |r| == |lists|
    decreases if frame < end then end - frame else 0
  {
    if frame < end then
      var o := LargestFit(frame, end, MAX_ORDER);
      SeedRun(Push(lists, o, frame), frame + Pow2(o), end)
    else lists
  }

  const EMPTY: Lists := [[], [], [], [], [], [], [], [], [], [], []]

  /** None of the frames in [frame, end) is free yet. */
  ghost predicate Unlisted(lists: Lists, frame: nat, end: nat) {
    forall c :: Listed(lists, c) ==> End(c) <= frame || end <= c.base
  }

  lemma SeedStep(lists: Lists, frame: nat, end: nat)
    requires WellFormed(lists) && frame < end && Unlisted(lists, frame, end)
    ensures var b := Block(frame, LargestFit(frame, end, MAX_ORDER));
      && Fits(lists, b) && End(b) <= end
      && WellFormed(Push(lists, b.order, frame))
      && Unlisted(Push(lists, b.order, frame), End(b), end)
      && forall f: nat :: IsFree(lists, f) || frame <= f < end
               <==> IsFree(Push(lists, b.order, frame), f) || End(b) <= f < end
  {
    var b := Block(frame, LargestFit(frame, end, MAX_ORDER));
    assert Aligned(b) && End(b) <= end;
    PushKeeps(lists, b);
    PushListed(lists, b);
  }

  /** One test of seed_run's shrinking loop, with the mask it uses. */
  lemma FitStep(frame: nat, end: nat, o: nat)
    ensures LargestFit(frame, end, o) ==
      if o > 0 && (And(frame, Pow2(o) - 1) != 0 || frame + Pow2(o) > end) then LargestFit(frame, end, o - 1) else o
  {
    AlignedIsMask(frame, o);
  }

  lemma SeedNext(lists: Lists, frame: nat, end: nat, o: nat)
    requires WellFormed(lists) && frame < end && Unlisted(lists, frame, end)
    requires o == LargestFit(frame, end, MAX_ORDER)
    ensures o <= MAX_ORDER && o < |lists| && Fits(lists, Block(frame, o)) && frame + Pow2(o) <= end
    ensures Unlisted(Push(lists, o, frame), frame + Pow2(o), end)
    ensures SeedRun(lists, frame, end) == SeedRun(Push(lists, o, frame), frame + Pow2(o), end)
  {
    hide SeedRun, Unlisted, Push, AlignedTo, LargestFit, WellFormed, Fits, IsFree;
    OneListEach(lists);
    SeedMore(lists, frame, end);
    SeedStep(lists, frame, end);
  }

  lemma SeedMore(lists: Lists, frame: nat, end: nat)
    requires |lists| == MAX_ORDER + 1 && frame < end
    ensures var o := LargestFit(frame, end, MAX_ORDER);
      o < |lists| && SeedRun(lists, frame, end) == SeedRun(Push(lists, o, frame), frame + Pow2(o), end)
  {
  }

  lemma SeedDone(lists: Lists, frame: nat, end: nat)
    requires |lists| == MAX_ORDER + 1 && frame >= end
    ensures SeedRun(lists, frame, end) == lists
  {
  }

  /** The blocks pushed for a run free exactly its frames: nothing left out, nothing twice. */
  lemma {:induction false} SeedKeeps(lists: Lists, frame: nat, end: nat)
    requires WellFormed(lists) && Unlisted(lists, frame, end)
    ensures WellFormed(SeedRun(lists, frame, end))
    ensures forall f: nat :: IsFree(SeedRun(lists, frame, end), f) <==> IsFree(lists, f) || frame <= f < end
    decreases if frame < end then end - frame else 0
  {
    if frame < end {
      SeedStep(lists, frame, end);
      var o := LargestFit(frame, end, MAX_ORDER);
      SeedKeeps(Push(lists, o, frame), frame + Pow2(o), end);
    }
  }

  /** Every listed block was the largest that fitted where it starts. */
  ghost predicate Greedy(lists: Lists, frame: nat, end: nat) {
    forall c :: Listed(lists, c) ==>
      && End(c) <= frame
      && (c.order < MAX_ORDER && AlignedTo(c.base, c.order + 1) ==> c.base + Pow2(c.order + 1) > end)
  }

  lemma {:induction false} SeedCoalesced(lists: Lists, frame: nat, end: nat)
    requires WellFormed(lists) && Coalesced(lists) && Greedy(lists, frame, end)
    ensures Coalesced(SeedRun(lists, frame, end))
    decreases if frame < end then end - frame else 0
  {
    hide WellFormed, Coalesced, Greedy, Push, LargestFit, SeedRun;
    OneListEach(lists);
    if frame < end {
      GreedyStep(lists, frame, end);
      var o := LargestFit(frame, end, MAX_ORDER);
      SeedCoalesced(Push(lists, o, frame), frame + Pow2(o), end);
    } else {
      SeedDone(lists, frame, end);
    }
  }

  lemma GreedyStep(lists: Lists, frame: nat, end: nat)
    requires WellFormed(lists) && Coalesced(lists) && Greedy(lists, frame, end) && frame < end
    ensures var o := LargestFit(frame, end, MAX_ORDER);
      && o < |lists| && |lists| == |Push(lists, o, frame)| == MAX_ORDER + 1 && frame + Pow2(o) <= end
      && WellFormed(Push(lists, o, frame)) && Coalesced(Push(lists, o, frame))
      && Greedy(Push(lists, o, frame), frame + Pow2(o), end)
      && SeedRun(lists, frame, end) == SeedRun(Push(lists, o, frame), frame + Pow2(o), end)
  {
    hide Coalesced, Greedy, LargestFit, AlignedTo, Xor, WellFormed, SeedRun, Unlisted;
    GreedyIsUnlisted(lists, frame, end);
    SeedNext(lists, frame, end, LargestFit(frame, end, MAX_ORDER));
    SeedStep(lists, frame, end);
    PushLength(lists, LargestFit(frame, end, MAX_ORDER), frame);
    GreedyPush(lists, Block(frame, LargestFit(frame, end, MAX_ORDER)), end);
  }

  lemma OneListEach(lists: Lists)
    requires WellFormed(lists)
    ensures |lists| == MAX_ORDER + 1
  {
  }

  lemma PushLength(lists: Lists, o: nat, frame: nat)
    requires o < |lists|
    ensures |Push(lists, o, frame)| == |lists|
  {
  }

  lemma GreedyIsUnlisted(lists: Lists, frame: nat, end: nat)
    requires Greedy(lists, frame, end)
    ensures Unlisted(lists, frame, end)
  {
    hide AlignedTo;
  }

  lemma GreedyPush(lists: Lists, b: Block, end: nat)
    requires WellFormed(lists) && Coalesced(lists) && Greedy(lists, b.base, end)
    requires Fits(lists, b) && End(b) <= end && b.order == LargestFit(b.base, end, MAX_ORDER)
    ensures Coalesced(Push(lists, b.order, b.base)) && Greedy(Push(lists, b.order, b.base), End(b), end)
  {
    var next := Push(lists, b.order, b.base);
    PushListed(lists, b);
    if b.order < MAX_ORDER { NoBuddyYet(lists, b, end); }
    StillGreedy(lists, b, end);
    hide AlignedTo, Xor, Push, LargestFit, Greedy, WellFormed, Pow2;
    BuddyTwice(b);
    forall c | Listed(next, c) && c.order < MAX_ORDER ensures !Listed(next, BuddyOf(c)) {
      if c != b { BuddyTwice(c) by { ListedIsAligned(lists, c); } }
    }
  }

  lemma ListedIsAligned(lists: Lists, c: Block)
    requires WellFormed(lists) && Listed(lists, c)
    ensures Aligned(c)
  {
  }

  lemma BuddyTwice(b: Block)
    requires Aligned(b)
    ensures BuddyOf(BuddyOf(b)) == b && BuddyOf(b) != b && BuddyOf(b).order == b.order
  {
    BuddyHalves(b);
  }

  /** The buddy of the block seeded next is not on the lists: it would start behind, or the two would have
      been seeded as one. */
  lemma NoBuddyYet(lists: Lists, b: Block, end: nat)
    requires Aligned(b) && Greedy(lists, b.base, end) && End(b) <= end
    requires b.order == LargestFit(b.base, end, MAX_ORDER) && b.order < MAX_ORDER
    ensures !Listed(lists, BuddyOf(b))
  {
    BuddyHalves(b);
    hide Xor, LargestFit;
  }

  lemma StillGreedy(lists: Lists, b: Block, end: nat)
    requires b.order < |lists| && Greedy(lists, b.base, end) && b.order == LargestFit(b.base, end, MAX_ORDER)
    ensures Greedy(Push(lists, b.order, b.base), End(b), end)
  {
    PushListed(lists, b);
    hide Push;
  }

  lemma EmptyIsFine()
    ensures WellFormed(EMPTY) && Coalesced(EMPTY)
    ensures forall b :: !Listed(EMPTY, b)
  {
  }

  /** b is a maximal aligned block (of order at most MAX_ORDER) inside [first, end). */
  predicate MaximalIn(b: Block, first: nat, end: nat) {
    && b.order <= MAX_ORDER && Aligned(b)
    && first <= b.base && End(b) <= end
    && (b.order < MAX_ORDER ==> Parent(b).base < first || End(Parent(b)) > end)
  }

  /** seed_run tiles its run: the blocks are exactly the maximal aligned ones inside it. */
  lemma {:induction false} SeedTiles(first: nat, end: nat)
    ensures var seeded := SeedRun(EMPTY, first, end);
      && WellFormed(seeded) && Coalesced(seeded)
      && (forall f: nat :: IsFree(seeded, f) <==> first <= f < end)
      && (forall b :: Listed(seeded, b) <==> MaximalIn(b, first, end))
  {
    EmptyIsFine();
    SeedKeeps(EMPTY, first, end);
    SeedCoalesced(EMPTY, first, end);
    var seeded := SeedRun(EMPTY, first, end);
    forall b ensures Listed(seeded, b) <==> MaximalIn(b, first, end) {
      ListedIsMaximal(seeded, b);
      InsideIsAllFree(seeded, b, first, end);
      InsideIsAllFree(seeded, Parent(b), first, end);
    }
  }

  lemma InsideIsAllFree(lists: Lists, b: Block, first: nat, end: nat)
    requires forall f: nat :: IsFree(lists, f) <==> first <= f < end
    ensures AllFree(lists, b) <==> first <= b.base && End(b) <= end
  {
    if AllFree(lists, b) {
      assert Covers(b, b.base) && Covers(b, End(b) - 1);
    }
  }

  lemma {:induction false} EmptyCounts(orders: nat)
    requires orders <= MAX_ORDER + 1
    ensures FramesUpTo(EMPTY, orders) == 0
  {
    if orders > 0 {
      EmptyCounts(orders - 1);
      assert EMPTY[orders - 1] == [];
    }
  }

  lemma {:induction false} SeedCounts(lists: Lists, frame: nat, end: nat)
    requires |lists| == MAX_ORDER + 1 && frame <= end
    ensures TotalFrames(SeedRun(lists, frame, end)) == TotalFrames(lists) + (end - frame)
    decreases end - frame
  {
    if frame < end {
      var o := LargestFit(frame, end, MAX_ORDER);
      PushCounts(lists, o, frame);
      SeedCounts(Push(lists, o, frame), frame + Pow2(o), end);
    }
  }

  // ---- several runs ----------------------------------------------------------------------

  datatype FrameRun = FrameRun(first: nat, end: nat)

  function SeedAll(lists: Lists, runs: seq<FrameRun>): (r: Lists)
    requires |lists| == MAX_ORDER + 1
    ensures |r| == |lists|
  {
    if runs == [] then lists
    else SeedRun(SeedAll(lists, runs[..|runs| - 1]), runs[|runs| - 1].first, runs[|runs| - 1].end)
  }

  ghost predicate Separate(runs: seq<FrameRun>) {
    && (forall i :: 0 <= i < |runs| ==> runs[i].first < runs[i].end)
    && (forall i, j :: 0 <= i < j < |runs| ==> runs[i].end <= runs[j].first || runs[j].end <= runs[i].first)
  }

  ghost predicate InRuns(runs: seq<FrameRun>, f: nat) {
    exists i :: 0 <= i < |runs| && runs[i].first <= f < runs[i].end
  }

  /** The blocks seed_run pushes, whatever was on the lists before. */
  predicate Pushed(b: Block, frame: nat, end: nat)
    decreases if frame < end then end - frame else 0
  {
    frame < end &&
    var o := LargestFit(frame, end, MAX_ORDER);
    b == Block(frame, o) || Pushed(b, frame + Pow2(o), end)
  }

  lemma {:induction false} SeedPushes(lists: Lists, frame: nat, end: nat)
    requires |lists| == MAX_ORDER + 1
    ensures forall b :: Listed(SeedRun(lists, frame, end), b) <==> Listed(lists, b) || Pushed(b, frame, end)
    decreases if frame < end then end - frame else 0
  {
    hide SeedRun, Push, LargestFit;
    if frame < end {
      var o := LargestFit(frame, end, MAX_ORDER);
      SeedMore(lists, frame, end);
      PushLength(lists, o, frame);
      PushListed(lists, Block(frame, o));
      SeedPushes(Push(lists, o, frame), frame + Pow2(o), end);
    } else {
      SeedDone(lists, frame, end);
    }
  }

  lemma SeedAddsMaximal(lists: Lists, first: nat, end: nat)
    requires |lists| == MAX_ORDER + 1
    ensures forall b :: Listed(SeedRun(lists, first, end), b) <==> Listed(lists, b) || MaximalIn(b, first, end)
  {
    SeedPushes(lists, first, end);
    SeedPushes(EMPTY, first, end);
    EmptyIsFine();
    SeedTiles(first, end);
  }

  ghost predicate MaximalInSome(b: Block, runs: seq<FrameRun>) {
    exists i :: 0 <= i < |runs| && MaximalIn(b, runs[i].first, runs[i].end)
  }

  lemma {:induction false} SeedAllLists(runs: seq<FrameRun>)
    ensures forall b :: Listed(SeedAll(EMPTY, runs), b) <==> MaximalInSome(b, runs)
  {
    if runs == [] {
      EmptyIsFine();
    } else {
      var n := |runs| - 1;
      SeedAllLists(runs[..n]);
      SeedAddsMaximal(SeedAll(EMPTY, runs[..n]), runs[n].first, runs[n].end);
      forall b
        ensures MaximalInSome(b, runs) <==> MaximalInSome(b, runs[..n]) || MaximalIn(b, runs[n].first, runs[n].end)
      {
        if MaximalInSome(b, runs[..n]) {
          var i :| 0 <= i < n && MaximalIn(b, runs[..n][i].first, runs[..n][i].end);
          assert MaximalIn(b, runs[i].first, runs[i].end);
        }
        if MaximalInSome(b, runs) {
          var i :| 0 <= i < |runs| && MaximalIn(b, runs[i].first, runs[i].end);
          if i < n { assert MaximalIn(b, runs[..n][i].first, runs[..n][i].end); }
        }
      }
    }
  }

  /** Run i ends and run j begins at frame x, in the middle of an aligned pair of order-o blocks
      that both runs hold whole. */
  predicate PairCutAt(lo: FrameRun, hi: FrameRun, o: nat) {
    && lo.end == hi.first
    && AlignedTo(lo.end, o) && !AlignedTo(lo.end, o + 1)
    && lo.first + Pow2(o) <= lo.end && hi.first + Pow2(o) <= hi.end
  }

  ghost predicate NoPairCut(runs: seq<FrameRun>) {
    forall i, j, o :: 0 <= i < |runs| && 0 <= j < |runs| && 0 <= o < MAX_ORDER ==> !PairCutAt(runs[i], runs[j], o)
  }

  lemma CutPairIsSeeded(lo: FrameRun, hi: FrameRun, o: nat)
    requires PairCutAt(lo, hi, o) && o < MAX_ORDER
    ensures var b := Block(lo.end - Pow2(o), o);
      && MaximalIn(b, lo.first, lo.end)
      && MaximalIn(BuddyOf(b), hi.first, hi.end)
  {
    hide AlignedTo, Xor, Pow2;
    BuddyBase(lo.end, o);
    var upper := Block(lo.end, o);
    var lower := Block(lo.end - Pow2(o), o);
    BuddyHalves(upper);
    assert BuddyOf(upper) == lower && BuddyOf(lower) == upper;
    ParentSpans(upper);
    ParentSpans(lower);
  }

  lemma SeededPairIsCut(b: Block, lo: FrameRun, hi: FrameRun)
    requires b.order < MAX_ORDER && AlignedTo(b.base, b.order + 1)
    requires MaximalIn(b, lo.first, lo.end) && MaximalIn(BuddyOf(b), hi.first, hi.end)
    requires lo == hi || lo.end <= hi.first || hi.end <= lo.first
    ensures PairCutAt(lo, hi, b.order)
  {
    hide AlignedTo, Xor, Pow2, Parent;
    ParentSpans(b);
  }

  lemma UncoalescedIsCut(seeded: Lists, runs: seq<FrameRun>)
    requires Separate(runs) && forall b :: Listed(seeded, b) <==> MaximalInSome(b, runs)
    requires !Coalesced(seeded)
    ensures !NoPairCut(runs)
  {
    hide Separate;
    var c :| Listed(seeded, c) && c.order < MAX_ORDER && Listed(seeded, BuddyOf(c));
    assert Aligned(c);
    BuddyHalves(c);
    BuddyBase(c.base, c.order);
    var b := if AlignedTo(c.base, c.order + 1) then c else BuddyOf(c);
    assert MaximalInSome(b, runs) && MaximalInSome(BuddyOf(b), runs);
    var i :| 0 <= i < |runs| && MaximalIn(b, runs[i].first, runs[i].end);
    var j :| 0 <= j < |runs| && MaximalIn(BuddyOf(b), runs[j].first, runs[j].end);
    SeparatePair(runs, i, j);
    SeededPairIsCut(b, runs[i], runs[j]);
  }

  lemma SeparatePair(runs: seq<FrameRun>, i: nat, j: nat)
    requires Separate(runs) && i < |runs| && j < |runs|
    ensures runs[i] == runs[j] || runs[i].end <= runs[j].first || runs[j].end <= runs[i].first
  {
  }

  lemma CutIsUncoalesced(seeded: Lists, runs: seq<FrameRun>)
    requires forall b :: Listed(seeded, b) <==> MaximalInSome(b, runs)
    requires !NoPairCut(runs)
    ensures !Coalesced(seeded)
  {
    var i, j, o :| 0 <= i < |runs| && 0 <= j < |runs| && 0 <= o < MAX_ORDER && PairCutAt(runs[i], runs[j], o);
    CutPairIsSeeded(runs[i], runs[j], o);
    var b := Block(runs[i].end - Pow2(o), o);
    assert Listed(seeded, b) && Listed(seeded, BuddyOf(b));
  }

  /** The seeded lists are coalesced exactly when no two runs touch in the middle of a buddy pair. */
  lemma {:induction false} SeedCoalescedIff(runs: seq<FrameRun>)
    requires Separate(runs)
    ensures Coalesced(SeedAll(EMPTY, runs)) <==> NoPairCut(runs)
  {
    SeedAllLists(runs);
    if Coalesced(SeedAll(EMPTY, runs)) {
      if !NoPairCut(runs) { CutIsUncoalesced(SeedAll(EMPTY, runs), runs); }
    } else {
      UncoalescedIsCut(SeedAll(EMPTY, runs), runs);
    }
  }

  /** Whatever the runs, the seeded lists are well formed and free exactly the frames of the runs. */
  lemma {:induction false} SeedAllKeeps(runs: seq<FrameRun>)
    requires Separate(runs)
    ensures WellFormed(SeedAll(EMPTY, runs))
    ensures forall f: nat :: IsFree(SeedAll(EMPTY, runs), f) <==> InRuns(runs, f)
  {
    hide WellFormed, IsFree, Unlisted, InRuns, SeedRun;
    if runs == [] {
      NothingSeeded(runs);
    } else {
      var n := |runs| - 1;
      var before, r := SeedAll(EMPTY, runs[..n]), runs[n];
      SeedAllKeeps(runs[..n]);
      NextIsUnlisted(runs);
      SeedKeeps(before, r.first, r.end);
      forall f: nat ensures InRuns(runs, f) <==> InRuns(runs[..n], f) || r.first <= f < r.end {
        InRunsMore(runs, f);
      }
    }
  }

  lemma NothingSeeded(runs: seq<FrameRun>)
    requires runs == []
    ensures WellFormed(SeedAll(EMPTY, runs))
    ensures forall f: nat :: IsFree(SeedAll(EMPTY, runs), f) <==> InRuns(runs, f)
  {
    EmptyIsFine();
  }

  /** What is seeded already keeps clear of the next run. */
  lemma NextIsUnlisted(runs: seq<FrameRun>)
    requires Separate(runs) && runs != []
    ensures var n := |runs| - 1; Unlisted(SeedAll(EMPTY, runs[..n]), runs[n].first, runs[n].end)
  {
    hide SeedAll, AlignedTo;
    var n := |runs| - 1;
    SeedAllLists(runs[..n]);
    forall c | Listed(SeedAll(EMPTY, runs[..n]), c) ensures End(c) <= runs[n].first || runs[n].end <= c.base {
      var i :| 0 <= i < n && MaximalIn(c, runs[..n][i].first, runs[..n][i].end);
      assert runs[i].end <= runs[n].first || runs[n].end <= runs[i].first;
    }
  }

  lemma InRunsMore(runs: seq<FrameRun>, f: nat)
    requires runs != []
    ensures var n := |runs| - 1; InRuns(runs, f) <==> InRuns(runs[..n], f) || runs[n].first <= f < runs[n].end
  {
    var n := |runs| - 1;
    if InRuns(runs[..n], f) {
      var i :| 0 <= i < n && runs[..n][i].first <= f < runs[..n][i].end;
      assert runs[i].first <= f < runs[i].end;
    }
    if InRuns(runs, f) {
      var i :| 0 <= i < |runs| && runs[i].first <= f < runs[i].end;
      if i < n { assert runs[..n][i].first <= f < runs[..n][i].end; }
    }
  }

  lemma TouchingRunsSeed()
    ensures SeedAll(EMPTY, [FrameRun(2, 3), FrameRun(3, 4)]) == EMPTY[0 := [3, 2]]
  {
    var runs := [FrameRun(2, 3), FrameRun(3, 4)];
    assert runs[..1] == [FrameRun(2, 3)] && runs[..1][..0] == [];
    assert SeedAll(EMPTY, runs[..1]) == SeedRun(EMPTY, 2, 3);
    assert LargestFit(2, 3, MAX_ORDER) == 0 && LargestFit(3, 4, MAX_ORDER) == 0;
    var one := EMPTY[0 := [2]];
    assert EMPTY[0] == [] && [2] + EMPTY[0] == [2];
    assert SeedRun(EMPTY, 2, 3) == SeedRun(one, 3, 3) == one;
    assert [3] + one[0] == [3, 2] && one[0 := [3, 2]] == EMPTY[0 := [3, 2]];
    assert SeedRun(one, 3, 4) == SeedRun(EMPTY[0 := [3, 2]], 4, 4);
  }

  lemma SmallBlocks()
    ensures Pow2(0) == 1 && Pow2(1) == 2 && AlignedTo(2, 1) && Xor(2, 1) == 3
  {
    XorOneBit(2, 0);
  }

  /** Two single-frame runs that touch inside a pair: frames 2 and 3 are both free, yet an order-1
      request is refused. */
  lemma TouchingRunsExample()
    ensures var seeded := SeedAll(EMPTY, [FrameRun(2, 3), FrameRun(3, 4)]);
      && AllFree(seeded, Block(2, 1)) && AlignedTo(2, 1)
      && Alloc(seeded, 1).1 == None
      && !Coalesced(seeded)
  {
    TouchingRunsSeed();
    var seeded := EMPTY[0 := [3, 2]];
    OnlySingles(seeded);
    SmallBlocks();
    hide AlignedTo, Xor, Pow2, SeedAll;
    assert Listed(seeded, Block(2, 0)) && Listed(seeded, Block(3, 0));
    forall f | Covers(Block(2, 1), f) ensures IsFree(seeded, f) {
      assert Covers(Block(f, 0), f) && Listed(seeded, Block(f, 0));
    }
  }

  lemma OnlySingles(lists: Lists)
    requires lists == EMPTY[0 := [3, 2]]
    ensures Alloc(lists, 1).1 == None
  {
    assert forall o :: 1 <= o <= MAX_ORDER ==> lists[o] == [];
    assert FirstNonEmpty(lists, 1) > MAX_ORDER;
  }

  // ---- fewest blocks -----------------------------------------------------------------------

  function BlockSet(lists: Lists): set<Block> {
    set o, f | 0 <= o < |lists| && f in lists[o] :: Block(f, o)
  }

  /** Coalesced lists use the fewest blocks of any lists over the same frames. */
  lemma {:induction false} CoalescedIsFewest(lists: Lists, other: Lists)
    requires WellFormed(lists) && Coalesced(lists) && WellFormed(other)
    requires forall f: nat :: IsFree(lists, f) <==> IsFree(other, f)
    ensures |BlockSet(lists)| <= |BlockSet(other)|
  {
    forall b | b in BlockSet(lists) ensures exists c :: c in BlockSet(other) && Within(c, b) {
      assert Listed(lists, b) && Covers(b, b.base);
      assert IsFree(other, b.base);
      var c :| Listed(other, c) && Covers(c, b.base);
      assert AllFree(other, c);
      assert AllFree(lists, c);
      var d := FreeRunIsInOneBlock(lists, c);
      assert Covers(d, b.base);
      assert d == b;
      assert c in BlockSet(other);
    }
    forall b, c | b in BlockSet(lists) && c in BlockSet(lists) && b != c ensures Disjoint(b, c) {
      assert Listed(lists, b) && Listed(lists, c);
    }
    NotMore(BlockSet(lists), BlockSet(other));
  }

  lemma {:induction false} NotMore(wide: set<Block>, fine: set<Block>)
    requires forall b :: b in wide ==> exists c :: c in fine && Within(c, b)
    requires forall b, c :: b in wide && c in wide && b != c ==> Disjoint(b, c)
    ensures |wide| <= |fine|
  {
    if wide != {} {
      var b :| b in wide;
      var c :| c in fine && Within(c, b);
      forall d | d in wide - {b} ensures exists e :: e in fine - {c} && Within(e, d) {
        var e :| e in fine && Within(e, d);
        assert Disjoint(b, d);
        assert e != c;
      }
      NotMore(wide - {b}, fine - {c});
    }
  }
}
