/** Whole runs of the buddy allocator: any interleaving of allocations and frees. */
module BuddyRuns {
  import opened Bits
  import opened BuddyBlocks
  import opened BuddyLists

  datatype Op = AllocOp(order: nat) | FreeOp(block: Block)

  /** The free lists together with the blocks that are handed out. */
  datatype State = State(lists: Lists, live: set<Block>)

  ghost predicate IsLive(s: State, frame: nat) {
    exists b :: b in s.live && Covers(b, frame)
  }

  ghost predicate Sound(s: State) {
    && WellFormed(s.lists)
    && (forall b :: b in s.live ==> Fits(s.lists, b))
    && (forall b, c :: b in s.live && c in s.live && b != c ==> Disjoint(b, c))
  }

  /** A free names a live block at the order it was handed out with. */
  predicate Allowed(s: State, op: Op) {
    op.AllocOp? || op.block in s.live
  }

  function Step(s: State, op: Op): State
    requires |s.lists| == MAX_ORDER + 1
    requires op.FreeOp? ==> op.block.order <= MAX_ORDER
  {
    match op
    case AllocOp(order) =>
      var (lists, got) := Alloc(s.lists, order);
      State(lists, if got.Some? then s.live + {Block(got.value, order)} else s.live)
    case FreeOp(b) =>
      State(FreeBlock(s.lists, b.base, b.order), s.live - {b})
  }

  lemma {:induction false} StepKeeps(s: State, op: Op)
    requires Sound(s) && Allowed(s, op)
    ensures Sound(Step(s, op))
    ensures Coalesced(s.lists) ==> Coalesced(Step(s, op).lists)
    ensures forall f :: IsFree(Step(s, op).lists, f) || IsLive(Step(s, op), f) <==> IsFree(s.lists, f) || IsLive(s, f)
    ensures forall f :: !(IsFree(Step(s, op).lists, f) && IsLive(Step(s, op), f))
  {
    match op
    case AllocOp(order) => AllocStepKeeps(s, order);
    case FreeOp(b) => FreeStepKeeps(s, b);
  }

  lemma AllocStepKeeps(s: State, order: nat)
    requires Sound(s)
    ensures var t := Step(s, AllocOp(order));
      && Sound(t)
      && (Coalesced(s.lists) ==> Coalesced(t.lists))
      && (forall f :: IsFree(t.lists, f) || IsLive(t, f) <==> IsFree(s.lists, f) || IsLive(s, f))
      && (forall f :: !(IsFree(t.lists, f) && IsLive(t, f)))
  {
    AllocKeeps(s.lists, order);
    var t := Step(s, AllocOp(order));
    var (lists, got) := Alloc(s.lists, order);
    LiveIsNotFree(s);
    if got.Some? {
      var b := Block(got.value, order);
      LiveGrows(s, t, b);
      forall c | c in s.live ensures Disjoint(b, c) && Fits(t.lists, c) {
        TakenIsDisjoint(s.lists, t.lists, b, c);
      }
    }
    LiveIsNotFree(t);
  }

  /** A block carved out of the free frames stays clear of every block that was not free. */
  lemma TakenIsDisjoint(before: Lists, after: Lists, b: Block, c: Block)
    requires Fits(before, c)
    requires forall f :: IsFree(before, f) <==> IsFree(after, f) || Covers(b, f)
    ensures Disjoint(b, c) && Fits(after, c)
  {
    FitsNotFree(before, c);
    if !Disjoint(b, c) {
      var f := if b.base <= c.base then c.base else b.base;
      assert Covers(b, f) && Covers(c, f);
    }
    forall d | Listed(after, d) ensures Disjoint(c, d) {
      if !Disjoint(c, d) {
        var f := if d.base <= c.base then c.base else d.base;
        assert Covers(d, f) && Covers(c, f);
        assert false;
      }
    }
  }

  lemma LiveGrows(s: State, t: State, b: Block)
    requires t.live == s.live + {b}
    ensures forall f :: IsLive(t, f) <==> IsLive(s, f) || Covers(b, f)
  {
    forall f ensures IsLive(t, f) <==> IsLive(s, f) || Covers(b, f) {
      if IsLive(s, f) {
        var c :| c in s.live && Covers(c, f);
        assert c in t.live;
      }
      if Covers(b, f) { assert b in t.live; }
    }
  }

  lemma LiveIsNotFree(s: State)
    requires forall b :: b in s.live ==> Fits(s.lists, b)
    ensures forall f :: !(IsFree(s.lists, f) && IsLive(s, f))
  {
    forall f | IsLive(s, f) ensures !IsFree(s.lists, f) {
      var b :| b in s.live && Covers(b, f);
      FitsNotFree(s.lists, b);
    }
  }

  lemma FreeStepKeeps(s: State, b: Block)
    requires Sound(s) && b in s.live
    ensures var t := Step(s, FreeOp(b));
      && Sound(t)
      && (Coalesced(s.lists) ==> Coalesced(t.lists))
      && (forall f :: IsFree(t.lists, f) || IsLive(t, f) <==> IsFree(s.lists, f) || IsLive(s, f))
      && (forall f :: !(IsFree(t.lists, f) && IsLive(t, f)))
  {
    FreeKeeps(s.lists, b.base, b.order);
    var t := Step(s, FreeOp(b));
    forall c | c in t.live ensures Fits(t.lists, c) {
      ReturnedIsDisjoint(s.lists, t.lists, b, c);
    }
    assert s.live == t.live + {b};
    LiveGrows(t, s, b);
    LiveIsNotFree(t);
  }

  lemma ReturnedIsDisjoint(before: Lists, after: Lists, b: Block, c: Block)
    requires Fits(before, c) && Disjoint(b, c)
    requires forall f :: IsFree(after, f) <==> IsFree(before, f) || Covers(b, f)
    ensures Fits(after, c)
  {
    FitsNotFree(before, c);
    forall d | Listed(after, d) ensures Disjoint(c, d) {
      if !Disjoint(c, d) {
        var f := if d.base <= c.base then c.base else d.base;
        assert Covers(d, f) && Covers(c, f);
        assert false;
      }
    }
  }

  // ---- counting ------------------------------------------------------------------------

  /** Frames in a set of blocks. */
  ghost function LiveFrames(live: set<Block>): nat {
    if live == {} then 0
    else
      var b :| b in live;
      Pow2(b.order) + LiveFrames(live - {b})
  }

  lemma {:induction false} LiveFramesWithout(live: set<Block>, b: Block)
    requires b in live
    ensures LiveFrames(live) == Pow2(b.order) + LiveFrames(live - {b})
  {
    var c :| c in live && LiveFrames(live) == Pow2(c.order) + LiveFrames(live - {c});
    if c != b {
      LiveFramesWithout(live - {c}, b);
      LiveFramesWithout(live - {b}, c);
      assert live - {c} - {b} == live - {b} - {c};
    }
  }

  /** No frame enters or leaves the allocator, by identity and by number, and coalesced lists stay so. */
  ghost predicate Steady(s: State, t: State) {
    && (Coalesced(s.lists) ==> Coalesced(t.lists))
    && (forall f :: IsFree(s.lists, f) || IsLive(s, f) <==> IsFree(t.lists, f) || IsLive(t, f))
    && TotalFrames(s.lists) + LiveFrames(s.live) == TotalFrames(t.lists) + LiveFrames(t.live)
  }

  lemma {:induction false} StepConserves(s: State, op: Op)
    requires Sound(s) && Allowed(s, op)
    ensures Steady(s, Step(s, op))
  {
    StepKeeps(s, op);
    match op
    case AllocOp(order) =>
      AllocCounts(s.lists, order);
      AllocKeeps(s.lists, order);
      var got := Alloc(s.lists, order).1;
      if got.Some? {
        TakenIsNew(s, order);
        LiveFramesWithout(s.live + {Block(got.value, order)}, Block(got.value, order));
        assert s.live + {Block(got.value, order)} - {Block(got.value, order)} == s.live;
      }
    case FreeOp(b) =>
      FreeCounts(s.lists, b.base, b.order);
      LiveFramesWithout(s.live, b);
  }

  lemma TakenIsNew(s: State, order: nat)
    requires Sound(s) && Alloc(s.lists, order).1.Some?
    ensures Block(Alloc(s.lists, order).1.value, order) !in s.live
  {
    AllocKeeps(s.lists, order);
    var b := Block(Alloc(s.lists, order).1.value, order);
    assert Covers(b, b.base);
    if b in s.live { FitsNotFree(s.lists, b); }
  }

  // ---- runs ----------------------------------------------------------------------------

  ghost predicate ValidRun(s: State, ops: seq<Op>)
    requires Sound(s)
    decreases |ops|
  {
    ops == [] ||
    (Allowed(s, ops[0]) && (StepKeeps(s, ops[0]); ValidRun(Step(s, ops[0]), ops[1..])))
  }

  ghost function Run(s: State, ops: seq<Op>): (t: State)
    requires Sound(s) && ValidRun(s, ops)
    ensures Sound(t)
    decreases |ops|
  {
    if ops == [] then s
    else
      StepKeeps(s, ops[0]);
      Run(Step(s, ops[0]), ops[1..])
  }

  /** Safety and conservation over every run: lists stay well formed, live blocks stay aligned and
      disjoint from each other and from free memory, and no frame appears or disappears. */
  lemma {:induction false} RunKeeps(s: State, ops: seq<Op>)
    requires Sound(s) && ValidRun(s, ops)
    ensures Coalesced(s.lists) ==> Coalesced(Run(s, ops).lists)
    ensures forall f :: IsFree(Run(s, ops).lists, f) || IsLive(Run(s, ops), f) <==> IsFree(s.lists, f) || IsLive(s, f)
    ensures forall f :: !(IsFree(Run(s, ops).lists, f) && IsLive(Run(s, ops), f))
    decreases |ops|
  {
    if ops == [] {
      LiveIsNotFree(s);
    } else {
      StepKeeps(s, ops[0]);
      RunKeeps(Step(s, ops[0]), ops[1..]);
    }
  }

  /** Every run conserves the total number of frames. */
  lemma {:induction false} RunConserves(s: State, ops: seq<Op>)
    requires Sound(s) && ValidRun(s, ops)
    ensures Steady(s, Run(s, ops))
    decreases |ops|
  {
    if ops != [] {
      StepKeeps(s, ops[0]);
      StepConserves(s, ops[0]);
      RunConserves(Step(s, ops[0]), ops[1..]);
    }
  }

  ghost predicate SameBlocks(a: Lists, b: Lists) {
    forall x :: Listed(a, x) <==> Listed(b, x)
  }

  /** History independence: runs from one coalesced seed that leave the same frames outstanding
      end with the same free blocks, whatever they did in between. */
  lemma {:induction false} HistoryIndependent(seed: State, ops: seq<Op>, others: seq<Op>)
    requires Sound(seed) && Coalesced(seed.lists)
    requires ValidRun(seed, ops) && ValidRun(seed, others)
    requires forall f :: IsLive(Run(seed, ops), f) <==> IsLive(Run(seed, others), f)
    ensures SameBlocks(Run(seed, ops).lists, Run(seed, others).lists)
  {
    RunKeeps(seed, ops);
    RunKeeps(seed, others);
    CoalescedIsUnique(Run(seed, ops).lists, Run(seed, others).lists);
  }

  /** Freeing a block right after allocating it restores the free blocks, splits and merges included. */
  lemma {:induction false} FreeUndoesAlloc(lists: Lists, order: nat)
    requires WellFormed(lists) && Coalesced(lists) && Alloc(lists, order).1.Some?
    ensures order <= MAX_ORDER
    ensures var (after, got) := Alloc(lists, order);
      SameBlocks(FreeBlock(after, got.value, order), lists)
  {
    var (after, got) := Alloc(lists, order);
    AllocKeeps(lists, order);
    FreeKeeps(after, got.value, order);
    CoalescedIsUnique(FreeBlock(after, got.value, order), lists);
  }

  // ---- when does freeing everything restore the seed? ------------------------------------

  /** Every run from these seeded lists that ends with nothing outstanding ends on the seeded blocks. */
  ghost predicate AlwaysRestored(seed: Lists)
    requires WellFormed(seed)
  {
    forall ops :: ValidRun(State(seed, {}), ops) && Run(State(seed, {}), ops).live == {}
      ==> SameBlocks(Run(State(seed, {}), ops).lists, seed)
  }

  /** seed_run never merges, so seeded lists may hold a free buddy pair (two runs that touch inside
      a pair). Freeing everything restores the seed exactly when they do not. */
  lemma {:induction false} RestoredIffCoalesced(seed: Lists)
    requires WellFormed(seed)
    ensures AlwaysRestored(seed) <==> Coalesced(seed)
  {
    var s := State(seed, {});
    if Coalesced(seed) {
      forall ops | ValidRun(s, ops) && Run(s, ops).live == {} ensures SameBlocks(Run(s, ops).lists, seed) {
        RunKeeps(s, ops);
        CoalescedIsUnique(Run(s, ops).lists, seed);
      }
    } else {
      var b :| Listed(seed, b) && b.order < MAX_ORDER && Listed(seed, BuddyOf(b));
      var drain := DrainOrder(s, b.order);
      var mid := Run(s, drain);
      RunKeeps(s, drain);
      var back := ReturnAll(mid);
      FreesLeaveNoPair(mid, back, b.order);
      RunAppend(s, drain, back);
      assert !SameBlocks(Run(s, drain + back).lists, seed);
    }
  }

  ghost predicate NoPairAt(lists: Lists, o: nat) {
    forall b :: Listed(lists, b) && b.order == o ==> !Listed(lists, BuddyOf(b))
  }

  lemma {:induction false} RunAppend(s: State, ops: seq<Op>, more: seq<Op>)
    requires Sound(s) && ValidRun(s, ops) && ValidRun(Run(s, ops), more)
    ensures ValidRun(s, ops + more)
    ensures Run(s, ops + more) == Run(Run(s, ops), more)
    decreases |ops|
  {
    if ops == [] {
      assert ops + more == more;
    } else {
      hide Sound, Allowed, Step;
      assert (ops + more)[0] == ops[0] && (ops + more)[1..] == ops[1..] + more;
      StepKeeps(s, ops[0]);
      RunAppend(Step(s, ops[0]), ops[1..], more);
    }
  }

  /** Some run of allocations of order o alone empties its list, and leaves only blocks of order o outstanding. */
  lemma {:induction false} DrainOrder(s: State, o: nat) returns (ops: seq<Op>)
    requires Sound(s) && o <= MAX_ORDER
    requires forall b :: b in s.live ==> b.order == o
    ensures ValidRun(s, ops) && Run(s, ops).lists[o] == []
    ensures forall i :: 0 <= i < |ops| ==> ops[i] == AllocOp(o)
    ensures forall b :: b in Run(s, ops).live ==> b.order == o
    decreases |s.lists[o]|
  {
    if s.lists[o] == [] {
      ops := [];
    } else {
      StepKeeps(s, AllocOp(o));
      var next := Step(s, AllocOp(o));
      assert FirstNonEmpty(s.lists, o) == o;
      assert |next.lists[o]| < |s.lists[o]|;
      var rest := DrainOrder(next, o);
      ops := [AllocOp(o)] + rest;
      assert ops[1..] == rest;
    }
  }

  predicate FreesOnly(ops: seq<Op>) {
    forall i :: 0 <= i < |ops| ==> ops[i].FreeOp?
  }

  /** Handing blocks back, however many and in whatever order, never leaves a pair of order o unmerged. */
  lemma {:induction false} FreesLeaveNoPair(s: State, ops: seq<Op>, o: nat)
    requires Sound(s) && ValidRun(s, ops) && FreesOnly(ops) && o < MAX_ORDER && NoPairAt(s.lists, o)
    ensures NoPairAt(Run(s, ops).lists, o)
    decreases |ops|
  {
    if ops != [] {
      var b := ops[0].block;
      StepKeeps(s, ops[0]);
      FreeLeavesNoPair(s.lists, b.base, b.order, o);
      FreesLeaveNoPair(Step(s, ops[0]), ops[1..], o);
    }
  }

  lemma FreeOne(s: State, b: Block)
    requires Sound(s) && b in s.live
    ensures |s.lists| == MAX_ORDER + 1 && b.order <= MAX_ORDER
    ensures Allowed(s, FreeOp(b)) && Sound(Step(s, FreeOp(b))) && Step(s, FreeOp(b)).live == s.live - {b}
  {
    StepKeeps(s, FreeOp(b));
  }

  /** Everything outstanding can be handed back. */
  lemma {:induction false} ReturnAll(s: State) returns (ops: seq<Op>)
    requires Sound(s)
    ensures ValidRun(s, ops) && FreesOnly(ops) && Run(s, ops).live == {}
    decreases |s.live|
  {
    hide Sound, Allowed, Step;
    if s.live == {} {
      ops := [];
    } else {
      var b :| b in s.live;
      FreeOne(s, b);
      var next := Step(s, FreeOp(b));
      var rest := ReturnAll(next);
      ops := [FreeOp(b)] + rest;
      assert ops[1..] == rest;
    }
  }

  lemma {:induction false} FreeLeavesNoPair(lists: Lists, frame: nat, order: nat, o: nat)
    requires WellFormed(lists) && Fits(lists, Block(frame, order))
    requires o < MAX_ORDER && NoPairAt(lists, o)
    ensures NoPairAt(FreeBlock(lists, frame, order), o)
    decreases MAX_ORDER - order
  {
    var b := Block(frame, order);
    if order < MAX_ORDER && Listed(lists, BuddyOf(b)) {
      MergeStep(lists, b);
      RemoveListed(lists, BuddyOf(b));
      FreeLeavesNoPair(Remove(lists, order, BuddyOf(b).base), Parent(b).base, order + 1, o);
    } else {
      PushListed(lists, b);
      BuddyHalves(b);
      forall c | Listed(Push(lists, order, frame), c) && c.order == o
        ensures !Listed(Push(lists, order, frame), BuddyOf(c))
      {
        BuddyBothWays(lists, b, c);
      }
    }
  }

  lemma BuddyBothWays(lists: Lists, b: Block, c: Block)
    requires WellFormed(lists) && Aligned(b) && (Listed(lists, c) || c == b)
    ensures BuddyOf(c) != c && BuddyOf(BuddyOf(c)) == c
  {
    BuddyHalves(c);
  }

  // ---- when is every allocation complete? ----------------------------------------------------

  /** An allocation of any order fails exactly when no aligned run of that many frames is free. */
  ghost predicate Complete(lists: Lists)
    requires |lists| == MAX_ORDER + 1
  {
    forall order :: 0 <= order <= MAX_ORDER ==> (Alloc(lists, order).1.None? <==> !RunFree(lists, order))
  }

  ghost predicate RunFree(lists: Lists, order: nat) {
    exists base :: AlignedTo(base, order) && AllFree(lists, Block(base, order))
  }

  ghost predicate AlwaysComplete(seed: Lists)
    requires WellFormed(seed)
  {
    forall ops :: ValidRun(State(seed, {}), ops) ==> Complete(Run(State(seed, {}), ops).lists)
  }

  /** Allocations stay complete over every run exactly when the seeded lists hold no free buddy pair. */
  lemma {:induction false} CompleteIffCoalesced(seed: Lists)
    requires WellFormed(seed)
    ensures AlwaysComplete(seed) <==> Coalesced(seed)
  {
    var s := State(seed, {});
    if Coalesced(seed) {
      forall ops | ValidRun(s, ops) ensures Complete(Run(s, ops).lists) {
        RunKeeps(s, ops);
        forall order | 0 <= order <= MAX_ORDER
          ensures Alloc(Run(s, ops).lists, order).1.None? <==> !RunFree(Run(s, ops).lists, order)
        {
          AllocComplete(Run(s, ops).lists, order);
        }
      }
    } else {
      var b :| Listed(seed, b) && b.order < MAX_ORDER && Listed(seed, BuddyOf(b));
      var ops := ExhaustAbove(s, b.order + 1);
      RunKeeps(s, ops);
      var lists := Run(s, ops).lists;
      PairIsFreeRun(lists, b);
      assert RunFree(lists, b.order + 1);
    }
  }

  /** Allocations of one order until they fail leave the lists below that order alone. */
  lemma {:induction false} ExhaustAbove(s: State, order: nat) returns (ops: seq<Op>)
    requires Sound(s) && order <= MAX_ORDER
    ensures ValidRun(s, ops) && Alloc(Run(s, ops).lists, order).1.None?
    ensures forall i :: 0 <= i < |ops| ==> ops[i] == AllocOp(order)
    ensures forall k :: 0 <= k < order ==> Run(s, ops).lists[k] == s.lists[k]
    decreases TotalFrames(s.lists)
  {
    if Alloc(s.lists, order).1.None? {
      ops := [];
    } else {
      StepKeeps(s, AllocOp(order));
      AllocCounts(s.lists, order);
      AllocBelow(s.lists, order);
      var rest := ExhaustAbove(Step(s, AllocOp(order)), order);
      ops := [AllocOp(order)] + rest;
      assert ops[1..] == rest;
    }
  }

  lemma {:induction false} SplitBelow(lists: Lists, frame: nat, o: nat, target: nat)
    requires target <= o <= |lists|
    ensures forall k :: 0 <= k < target && k < |lists| ==> SplitDown(lists, frame, o, target)[k] == lists[k]
    decreases o
  {
    if o > target { SplitBelow(Push(lists, o - 1, frame + Pow2(o - 1)), frame, o - 1, target); }
  }

  lemma AllocBelow(lists: Lists, order: nat)
    requires |lists| == MAX_ORDER + 1
    ensures forall k :: 0 <= k < order && k < |lists| ==> Alloc(lists, order).0[k] == lists[k]
  {
    var o := FirstNonEmpty(lists, if order <= MAX_ORDER then order else 0);
    if order <= MAX_ORDER && o <= MAX_ORDER {
      SplitBelow(Remove(lists, o, lists[o][0]), lists[o][0], o, order);
    }
  }

  /** Two free buddies make an aligned free run of the next order. */
  lemma PairIsFreeRun(lists: Lists, b: Block)
    requires WellFormed(lists) && Listed(lists, b) && Listed(lists, BuddyOf(b))
    ensures AlignedTo(Parent(b).base, b.order + 1) && AllFree(lists, Block(Parent(b).base, b.order + 1))
  {
    hide AlignedTo, Xor, Pow2;
    ListedIsFree(lists, b);
    ListedIsFree(lists, BuddyOf(b));
    hide WellFormed;
    BuddyHalves(b);
    ParentSpans(b);
    ParentSpans(BuddyOf(b));
    forall f | Covers(Parent(b), f) ensures IsFree(lists, f) {
      assert Covers(b, f) || Covers(BuddyOf(b), f);
    }
  }
}
