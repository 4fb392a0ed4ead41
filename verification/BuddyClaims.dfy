/** The hand-over of frames from the bitmap allocator to the buddy allocator. */
module BuddyClaims {
  import opened Bits
  import opened BuddyBlocks
  import opened BuddyLists
  import opened BuddySeed
  import opened FrameBits
  import opened PhysicalFrames

  /** `now` marks as used what `before` did and, in addition, exactly the frames of the runs. */
  ghost predicate Claimed(before: seq<bool>, now: seq<bool>, runs: seq<FrameRun>) {
    && |now| == |before|
    && Separate(runs)
    && (forall f :: 0 <= f < |now| ==> (now[f] <==> before[f] || InRuns(runs, f)))
    && (forall f: nat :: InRuns(runs, f) ==> f < |before| && !before[f])
  }

  /** Every usable frame of the first k regions, and of region k below f, is taken. */
  ghost predicate Swept(regions: seq<Entry>, now: seq<bool>, k: nat, f: nat) {
    && k <= |regions|
    && (forall j, g: nat :: 0 <= j < k && Holds(regions[j], g) && g < |now| ==> now[g])
    && (k < |regions| ==> forall g: nat :: Holds(regions[k], g) && g < f && g < |now| ==> now[g])
  }

  lemma InRunsSnoc(runs: seq<FrameRun>, r: FrameRun)
    ensures forall f: nat :: InRuns(runs + [r], f) <==> InRuns(runs, f) || r.first <= f < r.end
  {
    forall f: nat ensures InRuns(runs + [r], f) <==> InRuns(runs, f) || r.first <= f < r.end {
      if InRuns(runs, f) {
        var i :| 0 <= i < |runs| && runs[i].first <= f < runs[i].end;
        assert (runs + [r])[i] == runs[i];
      }
      if r.first <= f < r.end { assert (runs + [r])[|runs|] == r; }
      if InRuns(runs + [r], f) {
        var i :| 0 <= i < |runs| + 1 && (runs + [r])[i].first <= f < (runs + [r])[i].end;
        if i < |runs| { assert (runs + [r])[i] == runs[i]; }
      }
    }
  }

  lemma SeparateSnoc(runs: seq<FrameRun>, r: FrameRun)
    requires Separate(runs) && r.first < r.end
    requires forall f: nat :: r.first <= f < r.end ==> !InRuns(runs, f)
    ensures Separate(runs + [r])
  {
    forall i | 0 <= i < |runs| ensures runs[i].end <= r.first || r.end <= runs[i].first {
      var f := if runs[i].first <= r.first then r.first else runs[i].first;
      if runs[i].first <= f < runs[i].end && r.first <= f < r.end { assert InRuns(runs, f); }
    }
  }

  lemma OpenRun(before: seq<bool>, now: seq<bool>, runs: seq<FrameRun>, f: nat)
    requires Claimed(before, now, runs) && f < |now| && !now[f]
    ensures Claimed(before, now[f := true], runs + [FrameRun(f, f + 1)])
  {
    InRunsSnoc(runs, FrameRun(f, f + 1));
    SeparateSnoc(runs, FrameRun(f, f + 1));
  }

  lemma ExtendRun(before: seq<bool>, now: seq<bool>, runs: seq<FrameRun>, start: nat, f: nat)
    requires Claimed(before, now, runs + [FrameRun(start, f)]) && f < |now| && !now[f]
    ensures Claimed(before, now[f := true], runs + [FrameRun(start, f + 1)])
  {
    var was, next := runs + [FrameRun(start, f)], runs + [FrameRun(start, f + 1)];
    InRunsSnoc(runs, FrameRun(start, f));
    InRunsSnoc(runs, FrameRun(start, f + 1));
    assert was[|runs|] == FrameRun(start, f);
    forall i | 0 <= i < |runs| ensures runs[i].end <= start || f + 1 <= runs[i].first {
      assert was[i] == runs[i];
      assert runs[i].end <= start || f <= runs[i].first;
      assert runs[i].first <= f < runs[i].end ==> InRuns(runs, f);
    }
    forall i, j | 0 <= i < j < |next| ensures next[i].end <= next[j].first || next[j].end <= next[i].first {
      assert was[i] == runs[i] == next[i];
      if j < |runs| { assert was[j] == runs[j] == next[j]; }
    }
    forall i | 0 <= i < |next| ensures next[i].first < next[i].end {
      if i < |runs| { assert was[i] == next[i]; }
    }
  }

  /** The run just closed overlaps nothing seeded before it. */
  lemma RunIsUnlisted(runs: seq<FrameRun>, r: FrameRun)
    requires Separate(runs + [r])
    ensures SeedAll(EMPTY, runs + [r]) == SeedRun(SeedAll(EMPTY, runs), r.first, r.end)
    ensures WellFormed(SeedAll(EMPTY, runs)) && Unlisted(SeedAll(EMPTY, runs), r.first, r.end)
  {
    assert (runs + [r])[..|runs|] == runs;
    assert Separate(runs) by {
      forall i | 0 <= i < |runs| ensures runs[i].first < runs[i].end { assert (runs + [r])[i] == runs[i]; }
      forall i, j | 0 <= i < j < |runs| ensures runs[i].end <= runs[j].first || runs[j].end <= runs[i].first {
        assert (runs + [r])[i] == runs[i] && (runs + [r])[j] == runs[j];
      }
    }
    SeedAllKeeps(runs);
    SeedAllLists(runs);
    var lists := SeedAll(EMPTY, runs);
    forall c | Listed(lists, c) ensures End(c) <= r.first || r.end <= c.base {
      var i :| 0 <= i < |runs| && MaximalIn(c, runs[i].first, runs[i].end);
      assert (runs + [r])[i] == runs[i] && (runs + [r])[|runs|] == r;
    }
  }

  lemma SweepMore(regions: seq<Entry>, now: seq<bool>, k: nat, f: nat)
    requires Swept(regions, now, k, f) && k < |regions| && (f >= |now| || now[f])
    ensures Swept(regions, now, k, f + 1)
  {
  }

  lemma SweepKeeps(regions: seq<Entry>, now: seq<bool>, k: nat, f: nat, g: nat)
    requires Swept(regions, now, k, f) && g < |now|
    ensures Swept(regions, now[g := true], k, f)
  {
  }

  lemma SweepNext(regions: seq<Entry>, now: seq<bool>, k: nat, f: nat)
    requires Swept(regions, now, k, f) && k < |regions| && (regions[k].usable ==> f >= FrameEnd(regions[k]))
    ensures k + 1 < |regions| ==> Swept(regions, now, k + 1, FirstFrame(regions[k + 1]))
    ensures k + 1 == |regions| ==> Swept(regions, now, k + 1, 0)
  {
  }

  lemma SweptAll(regions: seq<Entry>, now: seq<bool>, f: nat)
    requires Swept(regions, now, |regions|, f)
    requires forall g :: 0 <= g < |now| && !now[g] ==> InUsable(regions, g)
    ensures forall g :: 0 <= g < |now| ==> now[g]
  {
  }

  lemma ClaimFirst(regions: seq<Entry>, before: seq<bool>, was: seq<bool>, runs: seq<FrameRun>, k: nat, f: nat)
    requires Claimed(before, was, runs) && f < |was| && !was[f]
    requires Swept(regions, was, k, f) && k < |regions|
    ensures Claimed(before, was[f := true], runs + [FrameRun(f, f + 1)])
    ensures Swept(regions, was[f := true], k, f + 1)
  {
    OpenRun(before, was, runs, f);
    SweepKeeps(regions, was, k, f, f);
    SweepMore(regions, was[f := true], k, f);
  }

  lemma ClaimNext(regions: seq<Entry>, before: seq<bool>, was: seq<bool>, runs: seq<FrameRun>, start: nat, k: nat,
                  f: nat)
    requires Claimed(before, was, runs + [FrameRun(start, f)]) && f < |was| && !was[f]
    requires Swept(regions, was, k, f) && k < |regions|
    ensures Claimed(before, was[f := true], runs + [FrameRun(start, f + 1)])
    ensures Swept(regions, was[f := true], k, f + 1)
  {
    ExtendRun(before, was, runs, start, f);
    SweepKeeps(regions, was, k, f, f);
    SweepMore(regions, was[f := true], k, f);
  }

  lemma CloseRun(before: seq<bool>, now: seq<bool>, runs: seq<FrameRun>, r: FrameRun)
    requires Claimed(before, now, runs + [r])
    ensures SeedAll(EMPTY, runs + [r]) == SeedRun(SeedAll(EMPTY, runs), r.first, r.end)
    ensures WellFormed(SeedAll(EMPTY, runs)) && Unlisted(SeedAll(EMPTY, runs), r.first, r.end)
  {
    RunIsUnlisted(runs, r);
  }

  lemma StartClaims(regions: seq<Entry>, before: seq<bool>)
    ensures Claimed(before, before, [])
    ensures Swept(regions, before, 0, if 0 < |regions| then FirstFrame(regions[0]) else 0)
  {
  }

  /** When the walk ends, either the budget is spent or nothing is free any more. */
  lemma EndClaims(regions: seq<Entry>, before: seq<bool>, now: seq<bool>, runs: seq<FrameRun>,
                  i: nat, free: nat, claimed: nat, budget: nat)
    requires Claimed(before, now, runs) && free == CountFree(now)
    requires forall g :: 0 <= g < |before| && !before[g] ==> InUsable(regions, g)
    requires i <= |regions| && (i == |regions| || claimed == budget) && claimed <= budget
    requires claimed < budget ==> Swept(regions, now, i, 0)
    ensures claimed == budget || free == 0
    ensures forall f: nat :: IsFree(SeedAll(EMPTY, runs), f) <==> f < |now| && now[f] && !before[f]
    ensures WellFormed(SeedAll(EMPTY, runs))
  {
    SeedAllKeeps(runs);
    if claimed < budget {
      SweptAll(regions, now, 0);
      NoneFree(now);
    }
  }

  // ---- which frames are claimed -----------------------------------------------------------------

  /** Frames to take so that `reserve` of the free ones stay. */
  function Budget(free: nat, reserve: nat): nat {
    if free > reserve then free - reserve else 0
  }

  /** Claim the free frames from f on in [f, end), lowest first, while the budget lasts. */
  function ClaimRegion(used: seq<bool>, f: nat, end: nat, budget: nat): (r: (seq<bool>, nat))
    ensures |r.0| == |used| && r.1 <= budget
    decreases end - f
  {
    if f >= end || budget == 0 then (used, budget)
    else if f < |used| && !used[f] then ClaimRegion(used[f := true], f + 1, end, budget - 1)
    else ClaimRegion(used, f + 1, end, budget)
  }

  /** The same over the usable regions from the i-th on, in the order of the map. */
  function ClaimWalk(regions: seq<Entry>, i: nat, used: seq<bool>, budget: nat): (r: (seq<bool>, nat))
    ensures |r.0| == |used| && r.1 <= budget
    decreases |regions| - i
  {
    if i >= |regions| || budget == 0 then (used, budget)
    else if !regions[i].usable then ClaimWalk(regions, i + 1, used, budget)
    else
      var (now, left) := ClaimRegion(used, FirstFrame(regions[i]), FrameEnd(regions[i]), budget);
      ClaimWalk(regions, i + 1, now, left)
  }

  lemma WalkRegion(regions: seq<Entry>, i: nat, used: seq<bool>, budget: nat, now: seq<bool>, left: nat)
    requires i < |regions| && budget > 0
    requires if regions[i].usable
             then (now, left) == ClaimRegion(used, FirstFrame(regions[i]), FrameEnd(regions[i]), budget)
             else now == used && left == budget
    ensures ClaimWalk(regions, i, used, budget) == ClaimWalk(regions, i + 1, now, left)
  {
  }

  lemma WalkEnds(regions: seq<Entry>, i: nat, used: seq<bool>, budget: nat)
    requires i >= |regions| || budget == 0
    ensures ClaimWalk(regions, i, used, budget) == (used, budget)
  {
  }

  lemma ClaimSkips(used: seq<bool>, f: nat, end: nat, budget: nat)
    requires f < end && budget > 0 && (f >= |used| || used[f])
    ensures ClaimRegion(used, f, end, budget) == ClaimRegion(used, f + 1, end, budget)
  {
  }

  lemma ClaimTakes(used: seq<bool>, f: nat, end: nat, budget: nat)
    requires f < end && budget > 0 && f < |used| && !used[f]
    ensures ClaimRegion(used, f, end, budget) == ClaimRegion(used[f := true], f + 1, end, budget - 1)
  {
  }

  lemma ClaimEnds(used: seq<bool>, f: nat, end: nat, budget: nat)
    requires f >= end || budget == 0
    ensures ClaimRegion(used, f, end, budget) == (used, budget)
  {
  }

  /** In one region no free frame below a claimed one is passed over, and none at all while budget is left. */
  lemma {:induction false} RegionLowest(used: seq<bool>, f: nat, end: nat, budget: nat)
    ensures var (now, left) := ClaimRegion(used, f, end, budget);
      && (forall x: nat :: x < |used| && (x < f || end <= x) ==> now[x] == used[x])
      && (forall x: nat :: x < |used| && used[x] ==> now[x])
      && (forall x: nat, y: nat ::
            (x < |used| && y < |used| && f <= x < end && f <= y < end && now[x] && !used[x] && !now[y]) ==> x < y)
      && (left > 0 ==> forall y: nat :: y < |used| && f <= y < end ==> now[y])
      && (budget > 0 && left == budget ==> now == used)
    decreases end - f
  {
    if f < end && budget > 0 {
      if f < |used| && !used[f] {
        RegionLowest(used[f := true], f + 1, end, budget - 1);
      } else {
        RegionLowest(used, f + 1, end, budget);
      }
    }
  }

  /** Of two usable frames, the first claimed and the second left free, the first comes first: in an earlier
      region of the map, or lower in the same region. */
  lemma {:induction false} WalkLowest(regions: seq<Entry>, i: nat, used: seq<bool>, budget: nat, k: nat, l: nat,
                                      x: nat, y: nat)
    requires MapOk(regions) && i <= k < |regions| && i <= l < |regions| && x < |used| && y < |used|
    requires Holds(regions[k], x) && Holds(regions[l], y)
    requires var now := ClaimWalk(regions, i, used, budget).0; now[x] && !used[x] && !now[y]
    ensures k < l || (k == l && x < y)
    decreases |regions| - i
  {
    if regions[i].usable {
      var (now, left) := ClaimRegion(used, FirstFrame(regions[i]), FrameEnd(regions[i]), budget);
      RegionLowest(used, FirstFrame(regions[i]), FrameEnd(regions[i]), budget);
      WalkGrows(regions, i + 1, now, left);
      if k > i && l > i {
        OneRegion(regions, i, k, x);
        WalkLowest(regions, i + 1, now, left, k, l, x, y);
      } else if l == i {
        WalkEnds(regions, i + 1, now, left);
        if k > i { OneRegion(regions, i, k, x); }
      }
    } else {
      WalkLowest(regions, i + 1, used, budget, k, l, x, y);
    }
  }

  lemma OneRegion(regions: seq<Entry>, k: nat, l: nat, f: nat)
    requires MapOk(regions) && k < l < |regions| && Holds(regions[l], f)
    ensures !Holds(regions[k], f)
  {
  }

  lemma {:induction false} WalkGrows(regions: seq<Entry>, i: nat, used: seq<bool>, budget: nat)
    ensures forall x: nat :: x < |used| && used[x] ==> ClaimWalk(regions, i, used, budget).0[x]
    decreases |regions| - i
  {
    if i < |regions| && budget > 0 {
      if regions[i].usable {
        var (now, left) := ClaimRegion(used, FirstFrame(regions[i]), FrameEnd(regions[i]), budget);
        RegionLowest(used, FirstFrame(regions[i]), FrameEnd(regions[i]), budget);
        WalkGrows(regions, i + 1, now, left);
      } else {
        WalkGrows(regions, i + 1, used, budget);
      }
    }
  }

  /** The bitmap as pmm_init leaves it. */
  ghost function TrueMap(regions: seq<Entry>): (used: seq<bool>)
    ensures Truthful(regions, used)
  {
    seq(SpannedFrames(regions), f requires 0 <= f < SpannedFrames(regions) =>
      !(InUsable(regions, f) && !HoldsBitmap(regions, f)))
  }

  lemma OneTrueMap(regions: seq<Entry>, used: seq<bool>)
    requires Truthful(regions, used)
    ensures used == TrueMap(regions)
  {
  }

  /** After n single frames have been handed out, as far as there were any. */
  function TakeLowest(used: seq<bool>, n: nat): (now: seq<bool>)
    ensures |now| == |used|
  {
    if n == 0 then used
    else
      var before := TakeLowest(used, n - 1);
      var f := FirstFree(before, 0);
      if f < |before| then before[f := true] else before
  }

  // ---- the runs are maximal ----------------------------------------------------------------------

  function RangeOf(e: Entry): FrameRun {
    FrameRun(FirstFrame(e), FrameEnd(e))
  }

  /** homes[k] names the region run k lies in; two runs of one region never touch. */
  ghost predicate Tidy(regions: seq<Entry>, runs: seq<FrameRun>, homes: seq<nat>) {
    && |homes| == |runs|
    && (forall k :: 0 <= k < |runs| ==>
          homes[k] < |regions| && regions[homes[k]].usable
          && FirstFrame(regions[homes[k]]) <= runs[k].first && runs[k].end <= FrameEnd(regions[homes[k]]))
    && (forall k, l :: 0 <= k < |runs| && 0 <= l < |runs| && homes[k] == homes[l] ==> runs[k].end != runs[l].first)
  }

  /** The walk has come to frame f of region i: what it closed lies before f. */
  ghost predicate Behind(runs: seq<FrameRun>, homes: seq<nat>, i: nat, f: nat) {
    && |homes| == |runs|
    && forall k :: 0 <= k < |runs| ==> homes[k] <= i && (homes[k] == i ==> runs[k].end <= f)
  }

  /** A closed run of region i ends at f only if f cannot be claimed. */
  ghost predicate Blocked(used: seq<bool>, runs: seq<FrameRun>, homes: seq<nat>, i: nat, f: nat) {
    Behind(runs, homes, i, f) &&
    (f < |used| && !used[f] ==> forall k :: 0 <= k < |runs| && homes[k] == i ==> runs[k].end < f)
  }

  lemma TidySnoc(regions: seq<Entry>, runs: seq<FrameRun>, homes: seq<nat>, i: nat, r: FrameRun)
    requires Tidy(regions, runs, homes) && i < |regions| && regions[i].usable
    requires FirstFrame(regions[i]) <= r.first < r.end <= FrameEnd(regions[i])
    requires forall k :: 0 <= k < |runs| ==> runs[k].first < runs[k].end
    requires forall k :: 0 <= k < |runs| && homes[k] == i ==> runs[k].end < r.first
    ensures Tidy(regions, runs + [r], homes + [i])
  {
    var all, at := runs + [r], homes + [i];
    forall k, l | 0 <= k < |all| && 0 <= l < |all| && at[k] == at[l] ensures all[k].end != all[l].first {
      if k < |runs| && l < |runs| {
        assert homes[k] == homes[l];
      } else if k < |runs| {
        assert homes[k] == i;
      } else if l < |runs| {
        assert homes[l] == i && runs[l].first < runs[l].end;
      }
    }
  }

  /** Closing a run that was opened when nothing of this region ended at its first frame. */
  lemma RunClosed(regions: seq<Entry>, before: seq<bool>, now: seq<bool>, runs: seq<FrameRun>, homes: seq<nat>,
                  i: nat, r: FrameRun)
    requires Tidy(regions, runs, homes) && Behind(runs, homes, i, r.first) && i < |regions| && regions[i].usable
    requires FirstFrame(regions[i]) <= r.first < r.end <= FrameEnd(regions[i])
    requires Claimed(before, now, runs + [r]) && NoneEndsAt(runs, homes, i, r.first)
    ensures Tidy(regions, runs + [r], homes + [i]) && Behind(runs + [r], homes + [i], i, r.end)
  {
    forall k | 0 <= k < |runs| ensures runs[k].first < runs[k].end { assert (runs + [r])[k] == runs[k]; }
    TidySnoc(regions, runs, homes, i, r);
  }

  lemma BehindNext(runs: seq<FrameRun>, homes: seq<nat>, i: nat, f: nat)
    requires Behind(runs, homes, i, f)
    ensures Behind(runs, homes, i + 1, 0)
  {
  }

  /** Before region i is entered no run of it exists: none could end at frame 0. */
  lemma NothingBehind(before: seq<bool>, now: seq<bool>, runs: seq<FrameRun>, homes: seq<nat>, i: nat, f: nat)
    requires Claimed(before, now, runs) && Behind(runs, homes, i, 0)
    ensures Blocked(now, runs, homes, i, f)
  {
  }

  lemma BlockedMore(used: seq<bool>, runs: seq<FrameRun>, homes: seq<nat>, i: nat, f: nat)
    requires Blocked(used, runs, homes, i, f)
    ensures Blocked(used, runs, homes, i, f + 1)
  {
  }

  ghost predicate NoneEndsAt(runs: seq<FrameRun>, homes: seq<nat>, i: nat, f: nat) {
    |homes| == |runs| && forall k :: 0 <= k < |runs| && homes[k] == i ==> runs[k].end < f
  }

  lemma NoneEndsHere(used: seq<bool>, runs: seq<FrameRun>, homes: seq<nat>, i: nat, f: nat)
    requires Blocked(used, runs, homes, i, f) && f < |used| && !used[f]
    ensures NoneEndsAt(runs, homes, i, f)
  {
  }

  lemma StoppedHere(used: seq<bool>, runs: seq<FrameRun>, homes: seq<nat>, i: nat, f: nat)
    requires Behind(runs, homes, i, f) && (f >= |used| || used[f])
    ensures Blocked(used, runs, homes, i, f)
  {
  }

  lemma BehindMore(runs: seq<FrameRun>, homes: seq<nat>, i: nat, f: nat, g: nat)
    requires Behind(runs, homes, i, f) && f <= g
    ensures Behind(runs, homes, i, g)
  {
  }

  lemma StartTidy(regions: seq<Entry>)
    ensures Tidy(regions, [], []) && Behind([], [], 0, 0)
  {
  }

  // ---- when is the hand-over coalesced? ------------------------------------------------------------

  /** Frame f was free before and is not now. */
  predicate Taken(before: seq<bool>, now: seq<bool>, f: nat) {
    f < |before| && !before[f] && f < |now| && now[f]
  }

  /** All 2^(o+1) frames around x change hands. */
  ghost predicate PairTaken(before: seq<bool>, now: seq<bool>, x: nat, o: nat) {
    forall f: nat :: x <= f + Pow2(o) && f < x + Pow2(o) ==> Taken(before, now, f)
  }

  /** Usable regions i and j touch in the middle of an aligned pair of order-o blocks that they hold whole. */
  predicate RegionsCut(regions: seq<Entry>, i: nat, j: nat, o: nat) {
    && i < |regions| && j < |regions| && o < MAX_ORDER && regions[i].usable && regions[j].usable
    && PairCutAt(RangeOf(regions[i]), RangeOf(regions[j]), o)
  }

  /** No aligned pair of blocks that is taken as a whole has its middle where two usable regions touch. */
  ghost predicate NoPairStraddles(regions: seq<Entry>, before: seq<bool>, now: seq<bool>) {
    forall i: nat, j: nat, o: nat :: RegionsCut(regions, i, j, o) ==> !PairTaken(before, now, FrameEnd(regions[i]), o)
  }

  ghost predicate NoRegionsCut(regions: seq<Entry>) {
    forall i: nat, j: nat, o: nat :: !RegionsCut(regions, i, j, o)
  }

  /** Claimed frames that follow each other in one region are in one run. */
  lemma {:induction false} StretchInOneRun(regions: seq<Entry>, before: seq<bool>, now: seq<bool>, runs: seq<FrameRun>,
                                           homes: seq<nat>, i: nat, a: nat, b: nat) returns (k: nat)
    requires MapOk(regions) && Claimed(before, now, runs) && Tidy(regions, runs, homes)
    requires i < |regions| && regions[i].usable && FirstFrame(regions[i]) <= a < b <= FrameEnd(regions[i])
    requires forall f: nat :: a <= f < b ==> Taken(before, now, f)
    ensures k < |runs| && homes[k] == i && runs[k].first <= a && b <= runs[k].end
  {
    k := HomeOf(regions, before, now, runs, homes, i, a);
    if runs[k].end < b {
      var l := HomeOf(regions, before, now, runs, homes, i, runs[k].end);
      SeparatePair(runs, k, l);
    }
  }

  /** A claimed frame of region i is in a run of region i. */
  lemma HomeOf(regions: seq<Entry>, before: seq<bool>, now: seq<bool>, runs: seq<FrameRun>, homes: seq<nat>,
               i: nat, f: nat) returns (k: nat)
    requires MapOk(regions) && Claimed(before, now, runs) && Tidy(regions, runs, homes)
    requires i < |regions| && Holds(regions[i], f) && Taken(before, now, f)
    ensures k < |runs| && homes[k] == i && runs[k].first <= f < runs[k].end
  {
    assert InRuns(runs, f);
    k :| 0 <= k < |runs| && runs[k].first <= f < runs[k].end;
    assert Holds(regions[homes[k]], f);
  }

  lemma {:induction false} CutRunsStraddle(regions: seq<Entry>, before: seq<bool>, now: seq<bool>, runs: seq<FrameRun>,
                                           homes: seq<nat>, k: nat, l: nat, o: nat)
    requires MapOk(regions) && Claimed(before, now, runs) && Tidy(regions, runs, homes)
    requires k < |runs| && l < |runs| && o < MAX_ORDER && PairCutAt(runs[k], runs[l], o)
    ensures !NoPairStraddles(regions, before, now)
  {
    hide AlignedTo;
    var i, j, x := homes[k], homes[l], runs[k].end;
    assert runs[k].first < runs[k].end && runs[l].first < runs[l].end;
    assert Holds(regions[i], x - 1) && Holds(regions[j], x);
    assert i != j;
    assert !Holds(regions[i], x) && !Holds(regions[j], x - 1);
    assert FrameEnd(regions[i]) == x && FirstFrame(regions[j]) == x;
    forall f: nat | x <= f + Pow2(o) && f < x + Pow2(o)
      ensures Taken(before, now, f)
    {
      assert runs[k].first <= f < runs[k].end || runs[l].first <= f < runs[l].end;
      assert InRuns(runs, f);
    }
    assert PairTaken(before, now, FrameEnd(regions[i]), o);
    assert RegionsCut(regions, i, j, o);
  }

  lemma {:induction false} StraddleCutsRuns(regions: seq<Entry>, before: seq<bool>, now: seq<bool>, runs: seq<FrameRun>,
                                            homes: seq<nat>, i: nat, j: nat, o: nat)
    requires MapOk(regions) && Claimed(before, now, runs) && Tidy(regions, runs, homes)
    requires RegionsCut(regions, i, j, o) && PairTaken(before, now, FrameEnd(regions[i]), o)
    ensures !NoPairCut(runs)
  {
    hide AlignedTo, MapOk, Claimed;
    var x := FrameEnd(regions[i]);
    var k := StretchInOneRun(regions, before, now, runs, homes, i, x - Pow2(o), x);
    var l := StretchInOneRun(regions, before, now, runs, homes, j, x, x + Pow2(o));
    assert PairCutAt(runs[k], runs[l], o);
  }

  /** The hand-over leaves coalesced lists exactly when no aligned pair that is taken whole straddles the
      boundary of two usable regions: runs are maximal, so regions are the only reason for a cut. */
  lemma {:induction false} HandOverCoalescedIff(regions: seq<Entry>, before: seq<bool>, now: seq<bool>,
                                                runs: seq<FrameRun>, homes: seq<nat>)
    requires MapOk(regions) && Claimed(before, now, runs) && Tidy(regions, runs, homes)
    ensures Coalesced(SeedAll(EMPTY, runs)) <==> NoPairStraddles(regions, before, now)
    ensures NoRegionsCut(regions) ==> Coalesced(SeedAll(EMPTY, runs))
  {
    SeedCoalescedIff(runs);
    hide Coalesced, SeedAll, MapOk, Claimed, Tidy, PairTaken;
    if !NoPairCut(runs) {
      var k, l, o :| 0 <= k < |runs| && 0 <= l < |runs| && 0 <= o < MAX_ORDER && PairCutAt(runs[k], runs[l], o);
      CutRunsStraddle(regions, before, now, runs, homes, k, l, o);
    } else if !NoPairStraddles(regions, before, now) {
      var i: nat, j: nat, o: nat :|
        RegionsCut(regions, i, j, o) && PairTaken(before, now, FrameEnd(regions[i]), o);
      StraddleCutsRuns(regions, before, now, runs, homes, i, j, o);
    }
  }

  lemma CoalescedAfter(regions: seq<Entry>, before: seq<bool>, now: seq<bool>, runs: seq<FrameRun>, homes: seq<nat>)
    requires Claimed(before, now, runs) && Tidy(regions, runs, homes)
    ensures MapOk(regions) ==> (Coalesced(SeedAll(EMPTY, runs)) <==> NoPairStraddles(regions, before, now))
    ensures MapOk(regions) && NoRegionsCut(regions) ==> Coalesced(SeedAll(EMPTY, runs))
  {
    if MapOk(regions) { HandOverCoalescedIff(regions, before, now, runs, homes); }
  }
}
