/** The physical frame allocator: a bitmap over all frames, a free count and a scan hint. */
module PhysicalFrames {
  import opened PhysicalMemory
  import opened FrameBits

  /** One region of the boot loader's memory map. */
  datatype Entry = Entry(base: nat, length: nat, usable: bool)

  function FirstFrame(e: Entry): nat {
    e.base / 4096
  }

  function FrameEnd(e: Entry): nat {
    e.base / 4096 + e.length / 4096
  }

  predicate Holds(e: Entry, frame: nat) {
    e.usable && FirstFrame(e) <= frame < FrameEnd(e)
  }

  /** What the boot protocol promises about usable regions: whole frames, never frame 0, no overlap. */
  ghost predicate MapOk(regions: seq<Entry>) {
    && (forall k :: 0 <= k < |regions| && regions[k].usable ==>
          regions[k].base % 4096 == 0 && regions[k].length % 4096 == 0 && regions[k].base > 0)
    && (forall k, l, f :: 0 <= k < l < |regions| && Holds(regions[k], f) ==> !Holds(regions[l], f))
  }

  ghost predicate InUsable(regions: seq<Entry>, frame: nat) {
    exists k :: 0 <= k < |regions| && Holds(regions[k], frame)
  }

  lemma UsableSnoc(regions: seq<Entry>, k: nat)
    requires k < |regions|
    ensures forall f :: InUsable(regions[..k + 1], f) <==> InUsable(regions[..k], f) || Holds(regions[k], f)
  {
    forall f ensures InUsable(regions[..k + 1], f) <==> InUsable(regions[..k], f) || Holds(regions[k], f) {
      if InUsable(regions[..k], f) {
        var j :| 0 <= j < k && Holds(regions[..k][j], f);
        assert regions[..k + 1][j] == regions[j];
      }
      if Holds(regions[k], f) { assert Holds(regions[..k + 1][k], f); }
      if InUsable(regions[..k + 1], f) {
        var j :| 0 <= j < k + 1 && Holds(regions[..k + 1][j], f);
        if j < k { assert Holds(regions[..k][j], f); }
      }
    }
  }

  lemma RegionDone(regions: seq<Entry>, k: nat, used: seq<bool>)
    requires k < |regions| && regions[k].usable
    requires forall f :: 0 <= f < |used| ==>
      (!used[f] <==> InUsable(regions[..k], f) || FirstFrame(regions[k]) <= f < FrameEnd(regions[k]))
    ensures forall f :: 0 <= f < |used| ==> (!used[f] <==> InUsable(regions[..k + 1], f))
  {
    UsableSnoc(regions, k);
    forall f | 0 <= f < |used| ensures !used[f] <==> InUsable(regions[..k + 1], f) {
      assert Holds(regions[k], f) <==> FirstFrame(regions[k]) <= f < FrameEnd(regions[k]);
    }
  }

  lemma NotYetUsable(regions: seq<Entry>, k: nat, f: nat)
    requires MapOk(regions) && k < |regions| && Holds(regions[k], f)
    ensures !InUsable(regions[..k], f)
  {
    forall j | 0 <= j < k ensures !Holds(regions[..k][j], f) {
      assert regions[..k][j] == regions[j];
    }
  }

  /** End of the highest usable region among the first k, in bytes. */
  function HighestEnd(regions: seq<Entry>): (h: nat)
    ensures forall k :: 0 <= k < |regions| && regions[k].usable ==> regions[k].base + regions[k].length <= h
    ensures h > 0 ==> exists k :: 0 <= k < |regions| && regions[k].usable && h == regions[k].base + regions[k].length
  {
    if regions == [] then 0
    else
      var n := |regions| - 1;
      var h := HighestEnd(regions[..n]);
      assert forall k :: 0 <= k < n ==> regions[..n][k] == regions[k];
      if regions[n].usable && regions[n].base + regions[n].length > h
      then regions[n].base + regions[n].length else h
  }

  /** Index of the first usable region that can hold `bytes`, or |regions|. */
  function FirstFit(regions: seq<Entry>, bytes: nat, k: nat): (r: nat)
    requires k <= |regions|
    ensures k <= r <= |regions|
    ensures r < |regions| ==> regions[r].usable && regions[r].length >= bytes
    ensures forall j :: k <= j < r ==> !(regions[j].usable && regions[j].length >= bytes)
    decreases |regions| - k
  {
    if k == |regions| || (regions[k].usable && regions[k].length >= bytes) then k else FirstFit(regions, bytes, k + 1)
  }

  function SpannedFrames(regions: seq<Entry>): nat {
    HighestEnd(regions) / 4096
  }

  function BitmapBytes(regions: seq<Entry>): nat {
    (SpannedFrames(regions) + 7) / 8
  }

  /** Whole frames for that many bytes. */
  function BitmapPages(bytes: nat): nat {
    (bytes + 4095) / 4096
  }

  function BitmapFrameCount(regions: seq<Entry>): nat {
    BitmapPages(BitmapBytes(regions))
  }

  /** The frames the bitmap itself lives in, at the base of the first region it fits in. */
  predicate HoldsBitmap(regions: seq<Entry>, f: nat) {
    var k := FirstFit(regions, BitmapBytes(regions), 0);
    && k < |regions|
    && FirstFrame(regions[k]) <= f < FirstFrame(regions[k]) + BitmapFrameCount(regions)
  }

  lemma SpansUsable(regions: seq<Entry>, f: nat)
    requires MapOk(regions) && InUsable(regions, f)
    ensures 0 < f < SpannedFrames(regions)
  {
    var k :| 0 <= k < |regions| && Holds(regions[k], f);
    assert (regions[k].base + regions[k].length) / 4096 <= HighestEnd(regions) / 4096;
  }

  lemma BitmapFrames(regions: seq<Entry>)
    requires MapOk(regions)
    ensures var k := FirstFit(regions, BitmapBytes(regions), 0);
      k < |regions| ==>
        var first := regions[k].base / 4096;
        forall f: nat :: HoldsBitmap(regions, f) <==> first <= f < first + BitmapFrameCount(regions)
    ensures forall f :: HoldsBitmap(regions, f) ==> InUsable(regions, f)
  {
    forall f | HoldsBitmap(regions, f) ensures InUsable(regions, f) {
      var k := FirstFit(regions, BitmapBytes(regions), 0);
      assert Holds(regions[k], f);
    }
  }

  lemma NothingUsable(regions: seq<Entry>)
    ensures forall f :: !InUsable(regions[..0], f)
  {
  }

  lemma AllUsed(bytes: seq<bv8>, used: seq<bool>)
    requires |used| <= 8 * |bytes|
    requires forall i :: 0 <= i < |bytes| ==> bytes[i] == 0xFF
    requires forall i :: 0 <= i < |used| ==> used[i]
    ensures Shows(bytes, used)
  {
  }

  /** The bitmap tells the truth: clear exactly for the usable frames that do not hold the bitmap. */
  ghost predicate Truthful(regions: seq<Entry>, used: seq<bool>) {
    && |used| == SpannedFrames(regions)
    && forall f :: 0 <= f < |used| ==> (!used[f] <==> InUsable(regions, f) && !HoldsBitmap(regions, f))
  }

  /** Clear exactly for the usable frames outside [first, end). */
  ghost predicate UsableBut(regions: seq<Entry>, used: seq<bool>, first: nat, end: nat) {
    && |used| == SpannedFrames(regions)
    && forall f :: 0 <= f < |used| ==> (!used[f] <==> InUsable(regions, f) && !(first <= f < end))
  }

  lemma NoneReserved(regions: seq<Entry>, used: seq<bool>, first: nat)
    requires UsableBut(regions, used, 0, 0)
    ensures UsableBut(regions, used, first, first)
  {
  }

  lemma BitmapCount(regions: seq<Entry>)
    ensures BitmapPages(BitmapBytes(regions)) == BitmapFrameCount(regions)
  {
  }

  lemma ReserveNext(regions: seq<Entry>, used: seq<bool>, first: nat, k: nat)
    requires MapOk(regions) && UsableBut(regions, used, first, first + k)
    requires FirstFit(regions, BitmapBytes(regions), 0) < |regions|
    requires first == FrameOf(regions[FirstFit(regions, BitmapBytes(regions), 0)].base) && k < BitmapFrameCount(regions)
    ensures first + k < |used| && !used[first + k]
    ensures UsableBut(regions, used[first + k := true], first, first + k + 1)
  {
    BitmapFrames(regions);
    assert HoldsBitmap(regions, first + k);
    SpansUsable(regions, first + k);
  }

  lemma AllReserved(regions: seq<Entry>, used: seq<bool>)
    requires MapOk(regions) && FirstFit(regions, BitmapBytes(regions), 0) < |regions|
    requires var first := FrameOf(regions[FirstFit(regions, BitmapBytes(regions), 0)].base);
      UsableBut(regions, used, first, first + BitmapFrameCount(regions))
    ensures Truthful(regions, used)
  {
    BitmapFrames(regions);
  }

  // ---- what the bitmap says, in bytes of the memory map ----------------------------------------------

  predicate UsableByte(e: Entry, a: nat) {
    e.usable && e.base <= a < e.base + e.length
  }

  /** Usable frames are the frames that hold a usable byte. */
  lemma {:induction false} UsableMeans(regions: seq<Entry>, f: nat)
    requires MapOk(regions)
    ensures InUsable(regions, f) <==>
            exists k, a: nat :: 0 <= k < |regions| && UsableByte(regions[k], a) && a / 4096 == f
  {
    if InUsable(regions, f) {
      var k :| 0 <= k < |regions| && Holds(regions[k], f);
      assert UsableByte(regions[k], f * 4096) && (f * 4096) / 4096 == f;
    }
    if k, a: nat :| 0 <= k < |regions| && UsableByte(regions[k], a) && a / 4096 == f {
      assert Holds(regions[k], f);
    }
  }

  /** n is the least number of frames that reaches to the end of all usable memory. */
  ghost predicate Spans(regions: seq<Entry>, n: nat) {
    && (forall k :: 0 <= k < |regions| && regions[k].usable ==> regions[k].base + regions[k].length <= n * 4096)
    && (n > 0 ==> exists k :: 0 <= k < |regions| && regions[k].usable
                              && regions[k].base + regions[k].length > (n - 1) * 4096)
  }

  lemma SpannedMeans(regions: seq<Entry>, n: nat)
    requires MapOk(regions)
    ensures Spans(regions, n) <==> n == SpannedFrames(regions)
  {
    var h := HighestEnd(regions);
    assert h % 4096 == 0;
    assert (forall k :: 0 <= k < |regions| && regions[k].usable ==> regions[k].base + regions[k].length <= n * 4096)
      <==> h <= n * 4096;
    if n > 0 { SomeEndsAbove(regions, (n - 1) * 4096); }
  }

  lemma SomeEndsAbove(regions: seq<Entry>, a: nat)
    ensures HighestEnd(regions) > a <==>
            exists k :: 0 <= k < |regions| && regions[k].usable && regions[k].base + regions[k].length > a
  {
  }

  /** The first usable region with room for one bit per frame. */
  ghost predicate Home(regions: seq<Entry>, k: nat, frames: nat) {
    && k < |regions| && regions[k].usable && frames <= 8 * regions[k].length
    && forall j :: 0 <= j < k ==> !(regions[j].usable && frames <= 8 * regions[j].length)
  }

  /** Byte i of the bitmap, which starts where region e does, lies in frame f. */
  predicate BitmapByte(e: Entry, frames: nat, i: nat, f: nat) {
    8 * i < frames && (e.base + i) / 4096 == f
  }

  lemma HomeMeans(regions: seq<Entry>, k: nat)
    ensures Home(regions, k, SpannedFrames(regions)) <==>
            k < |regions| && k == FirstFit(regions, BitmapBytes(regions), 0)
  {
  }

  lemma {:induction false} BitmapMeans(regions: seq<Entry>, k: nat, f: nat)
    requires MapOk(regions) && Home(regions, k, SpannedFrames(regions))
    ensures HoldsBitmap(regions, f) <==> exists i: nat :: BitmapByte(regions[k], SpannedFrames(regions), i, f)
  {
    HomeMeans(regions, k);
    var first, n := regions[k].base / 4096, SpannedFrames(regions);
    if HoldsBitmap(regions, f) {
      assert BitmapByte(regions[k], n, (f - first) * 4096, f);
    }
    if i: nat :| BitmapByte(regions[k], n, i, f) {
      assert i < BitmapBytes(regions);
    }
  }

  /** Free are exactly the frames that hold a usable byte and no byte of the bitmap at the start of region k. */
  ghost predicate FreeMeans(regions: seq<Entry>, k: nat, used: seq<bool>)
    requires k < |regions|
  {
    forall f :: 0 <= f < |used| ==>
      (!used[f] <==>
        && (exists j, a: nat :: 0 <= j < |regions| && UsableByte(regions[j], a) && a / 4096 == f)
        && !exists i: nat :: BitmapByte(regions[k], |used|, i, f))
  }

  lemma {:induction false} TruthMeans(regions: seq<Entry>, used: seq<bool>)
    requires MapOk(regions) && Truthful(regions, used) && FirstFit(regions, BitmapBytes(regions), 0) < |regions|
    ensures Spans(regions, |used|)
    ensures exists k :: Home(regions, k, |used|) && FreeMeans(regions, k, used)
  {
    var k := FirstFit(regions, BitmapBytes(regions), 0);
    SpannedMeans(regions, |used|);
    HomeMeans(regions, k);
    hide Spans, Home, MapOk, InUsable, HoldsBitmap, BitmapByte, UsableByte, SpannedFrames, BitmapBytes;
    forall f | 0 <= f < |used|
      ensures !used[f] <==>
        && (exists j, a: nat :: 0 <= j < |regions| && UsableByte(regions[j], a) && a / 4096 == f)
        && !exists i: nat :: BitmapByte(regions[k], |used|, i, f)
    {
      UsableMeans(regions, f);
      BitmapMeans(regions, k, f);
    }
  }

  lemma BytesOf(regions: seq<Entry>)
    ensures BitmapBytes(regions) == (SpannedFrames(regions) + 7) / 8
    ensures SpannedFrames(regions) == HighestEnd(regions) / 4096
  {
  }

  /** There is no room for the bitmap just when no usable region has any. */
  lemma NoHome(regions: seq<Entry>)
    requires MapOk(regions)
    ensures FirstFit(regions, BitmapBytes(regions), 0) < |regions| <==>
            exists n: nat, k: nat :: Spans(regions, n) && Home(regions, k, n)
  {
    var k, n := FirstFit(regions, BitmapBytes(regions), 0), SpannedFrames(regions);
    SpannedMeans(regions, n);
    HomeMeans(regions, k);
    hide Spans, Home, SpannedFrames, BitmapBytes, MapOk;
    if n': nat, k': nat :| Spans(regions, n') && Home(regions, k', n') {
      SpannedMeans(regions, n');
      HomeMeans(regions, k');
    }
  }

  lemma FrameZeroUsed(regions: seq<Entry>, used: seq<bool>)
    requires MapOk(regions) && Truthful(regions, used)
    ensures |used| == SpannedFrames(regions) && (|used| > 0 ==> used[0])
  {
    if InUsable(regions, 0) { SpansUsable(regions, 0); }
  }

  class Pmm {
    var bitmap: array<bv8>
    var totalFrames: nat
    var usableFrames: nat
    var freeFrames: nat
    var nextHint: nat

    /** used[i]: frame i is not available. */
    ghost var used: seq<bool>

    ghost predicate Mapped()
      reads this, bitmap
    {
      && |used| == totalFrames
      && bitmap.Length == (totalFrames + 7) / 8
      && Shows(bitmap[..], used)
      && freeFrames == CountFree(used)
    }

    /** The hint lies at or below every free frame. */
    ghost predicate Hinted()
      reads this, bitmap
    {
      Mapped() && nextHint <= totalFrames && forall i :: 0 <= i < nextHint ==> used[i]
    }

    /** Besides, frame 0 is not available, so address 0 can stand for failure. */
    ghost predicate Valid()
      reads this, bitmap
    {
      Hinted() && (totalFrames > 0 ==> used[0])
    }

    constructor ()
      ensures Valid() && totalFrames == 0 && fresh(bitmap)
    {
      bitmap := new bv8[0];
      totalFrames, usableFrames, freeFrames, nextHint := 0, 0, 0, 0;
      used := [];
    }

    method BitSet(i: nat)
      requires i < |used| && Shows(bitmap[..], used)
      modifies this`used, bitmap
      ensures used == old(used)[i := true] && Shows(bitmap[..], used)
    {
      WriteShows(bitmap[..], used, i);
      bitmap[i / 8] := SetBit(bitmap[i / 8], i % 8);
      used := used[i := true];
      assert bitmap[..] == old(bitmap[..])[i / 8 := SetBit(old(bitmap[..])[i / 8], i % 8)];
    }

    /** Mark a free frame used and count it. */
    method Take(i: nat)
      requires i < |used| && !used[i] && Shows(bitmap[..], used) && freeFrames == CountFree(used)
      modifies this`used, this`freeFrames, bitmap
      ensures used == old(used)[i := true] && Shows(bitmap[..], used) && freeFrames == CountFree(used)
      ensures freeFrames + 1 == old(freeFrames)
    {
      WriteCounts(used, i, true);
      BitSet(i);
      freeFrames := freeFrames - 1;
    }

    method BitClear(i: nat)
      requires i < |used| && Shows(bitmap[..], used)
      modifies this`used, bitmap
      ensures used == old(used)[i := false] && Shows(bitmap[..], used)
    {
      WriteShows(bitmap[..], used, i);
      bitmap[i / 8] := ClearBit(bitmap[i / 8], i % 8);
      used := used[i := false];
      assert bitmap[..] == old(bitmap[..])[i / 8 := ClearBit(old(bitmap[..])[i / 8], i % 8)];
    }

    method BitTest(i: nat) returns (set1: bool)
      requires i < |used| && Shows(bitmap[..], used)
      ensures set1 == used[i]
    {
      assert bitmap[..][i / 8] == bitmap[i / 8];
      set1 := TestBit(bitmap[i / 8], i % 8);
    }

    /** First fit from the hint, then wrapping round; the result is what a scan from 0 would find. */
    method AllocFrame() returns (phys: nat)
      requires Hinted()
      modifies this, bitmap
      ensures Hinted() && bitmap == old(bitmap) && usableFrames == old(usableFrames)
      ensures var f := FirstFree(old(used), 0);
        && phys == (if f < |old(used)| then Addr(f) else 0)
        && used == (if f < |old(used)| then old(used)[f := true] else old(used))
      ensures old(Valid()) ==> Valid() && (phys == 0 <==> FirstFree(old(used), 0) == |old(used)|)
    {
      hide Shows, TestBit, SetBit, ClearBit, CountFree;
      if freeFrames == 0 {
        NoneFree(used);
        return 0;
      }
      SkipUsed(used, nextHint);
      var pass := 0;
      while pass < 2
        invariant pass <= 2
        invariant Hinted() && used == old(used) && bitmap == old(bitmap)
        invariant nextHint == old(nextHint) && usableFrames == old(usableFrames)
        invariant pass > 0 ==> FirstFree(used, 0) == |used|
      {
        var start := if pass == 0 then nextHint else 0;
        var end := if pass == 0 then totalFrames else nextHint;
        var i := start;
        while i < end
          invariant start <= i && (i <= end || end < start)
          invariant Hinted() && used == old(used) && bitmap == old(bitmap)
          invariant nextHint == old(nextHint) && usableFrames == old(usableFrames) && totalFrames == |used|
          invariant pass == 0 ==> FirstFree(used, i) == FirstFree(used, nextHint)
        {
          var taken := BitTest(i);
          if !taken {
            Take(i);
            nextHint := i + 1;
            phys := i * 4096;
            return;
          }
          i := i + 1;
        }
        pass := pass + 1;
      }
      phys := 0;
    }

    /** Give a frame back. Giving back frame 0 makes it available like any other, and address 0 ambiguous. */
    method FreeFrame(phys: nat)
      requires Hinted() && FrameOf(phys) < totalFrames
      modifies this, bitmap
      ensures old(Valid()) && FrameOf(phys) > 0 ==> Valid()
      ensures Hinted() && bitmap == old(bitmap) && usableFrames == old(usableFrames)
      ensures used == old(used)[FrameOf(phys) := false]
    {
      var i := phys / 4096;
      var taken := BitTest(i);
      if !taken {
        assert used == used[i := false];
        return;
      }
      WriteCounts(used, i, false);
      BitClear(i);
      freeFrames := freeFrames + 1;
      if i < nextHint {
        nextHint := i;
      }
    }

    method ClaimFrame(phys: nat) returns (claimed: bool)
      requires Valid()
      modifies this, bitmap
      ensures Valid() && bitmap == old(bitmap) && totalFrames == old(totalFrames) && usableFrames == old(usableFrames)
      ensures claimed <==> FrameOf(phys) < totalFrames && !old(used)[FrameOf(phys)]
      ensures claimed ==> used == old(used)[FrameOf(phys) := true] && freeFrames == old(freeFrames) - 1
      ensures !claimed ==> used == old(used) && freeFrames == old(freeFrames)
    {
      var i := phys / 4096;
      if i >= totalFrames {
        return false;
      }
      var taken := BitTest(i);
      if taken {
        return false;
      }
      Take(i);
      claimed := true;
    }

    /** Pass 1: the highest usable byte. */
    static method HighestUsable(regions: seq<Entry>) returns (highest: nat)
      ensures highest == HighestEnd(regions)
    {
      highest := 0;
      for i := 0 to |regions|
        invariant highest == HighestEnd(regions[..i])
      {
        assert regions[..i + 1][..i] == regions[..i];
        if regions[i].usable {
          var top := regions[i].base + regions[i].length;
          if top > highest {
            highest := top;
          }
        }
      }
      assert regions[..|regions|] == regions;
    }

    /** Pass 2: the base of the first usable region the bitmap fits in, or 0. */
    static method FindHome(regions: seq<Entry>, bytes: nat) returns (phys: nat)
      requires MapOk(regions)
      ensures var k := FirstFit(regions, bytes, 0);
        phys == if k < |regions| then regions[k].base else 0
      ensures phys == 0 <==> FirstFit(regions, bytes, 0) == |regions|
    {
      phys := 0;
      var i := 0;
      while i < |regions|
        invariant i <= |regions| && FirstFit(regions, bytes, 0) == FirstFit(regions, bytes, i)
      {
        if regions[i].usable && regions[i].length >= bytes {
          return regions[i].base;
        }
        i := i + 1;
      }
    }

    /** Pass 3: free every usable frame, counting. */
    method FreeUsable(regions: seq<Entry>)
      requires MapOk(regions) && |used| == SpannedFrames(regions)
      requires Shows(bitmap[..], used) && forall f :: 0 <= f < |used| ==> used[f]
      modifies this`used, this`usableFrames, bitmap
      ensures |used| == old(|used|) && Shows(bitmap[..], used)
      ensures UsableBut(regions, used, 0, 0)
      ensures usableFrames == CountFree(used)
    {
      hide Shows, InUsable, CountFree, MapOk, SpannedFrames;
      NoneFree(used);
      NothingUsable(regions);
      usableFrames := 0;
      for i := 0 to |regions|
        invariant |used| == SpannedFrames(regions) && Shows(bitmap[..], used)
        invariant forall f :: 0 <= f < |used| ==> (!used[f] <==> InUsable(regions[..i], f))
        invariant usableFrames == CountFree(used)
      {
        UsableSnoc(regions, i);
        if regions[i].usable {
          var start, count := regions[i].base / 4096, regions[i].length / 4096;
          for k := 0 to count
            invariant |used| == SpannedFrames(regions) && Shows(bitmap[..], used)
            invariant forall f :: 0 <= f < |used| ==>
              (!used[f] <==> InUsable(regions[..i], f) || start <= f < start + k)
            invariant usableFrames == CountFree(used)
          {
            ClearNext(regions, i, start + k);
            WriteCounts(used, start + k, false);
            BitClear(start + k);
            usableFrames := usableFrames + 1;
          }
          RegionDone(regions, i, used);
        }
      }
      assert regions[..|regions|] == regions;
    }

    /** Pass 4: take back the frames the bitmap occupies. */
    method ReserveBitmap(regions: seq<Entry>, home: nat)
      requires MapOk(regions)
      requires FirstFit(regions, BitmapBytes(regions), 0) < |regions|
      requires home == regions[FirstFit(regions, BitmapBytes(regions), 0)].base
      requires Shows(bitmap[..], used) && freeFrames == CountFree(used)
      requires UsableBut(regions, used, 0, 0)
      modifies this`used, this`freeFrames, bitmap
      ensures |used| == old(|used|)
      ensures Truthful(regions, used) && Shows(bitmap[..], used) && freeFrames == CountFree(used)
      ensures freeFrames == old(freeFrames) - BitmapFrameCount(regions)
    {
      var count := BitmapPages(BitmapBytes(regions));
      BitmapCount(regions);
      var first := FrameOf(home);
      hide Shows, InUsable, MapOk, HoldsBitmap, CountFree, SpannedFrames, BitmapBytes, BitmapFrameCount, UsableBut;
      hide BitmapPages, Truthful, FirstFit, TestBit, SetBit, FrameOf;
      NoneReserved(regions, used, first);
      for k := 0 to count
        invariant |used| == old(|used|) && Shows(bitmap[..], used) && freeFrames == CountFree(used)
        invariant UsableBut(regions, used, first, first + k)
        invariant freeFrames == old(freeFrames) - k
      {
        ReserveNext(regions, used, first, k);
        Take(first + k);
      }
      AllReserved(regions, used);
    }

    /** memset of the whole bitmap to all ones: every frame starts out used. */
    method PaintUsed(bytes: nat)
      requires bytes == (totalFrames + 7) / 8
      modifies this`bitmap, this`used
      ensures fresh(bitmap) && bitmap.Length == bytes && |used| == totalFrames
      ensures Shows(bitmap[..], used) && forall f :: 0 <= f < |used| ==> used[f]
    {
      bitmap := new bv8[bytes](_ => 0xFF);
      used := seq(totalFrames, _ => true);
      AllUsed(bitmap[..], used);
    }

    /** Passes 3 and 4 over the freshly painted bitmap. */
    method Populate(regions: seq<Entry>, home: nat)
      requires MapOk(regions) && totalFrames == |used| == SpannedFrames(regions)
      requires bitmap.Length == (totalFrames + 7) / 8
      requires FirstFit(regions, BitmapBytes(regions), 0) < |regions|
      requires home == regions[FirstFit(regions, BitmapBytes(regions), 0)].base
      requires Shows(bitmap[..], used) && forall f :: 0 <= f < |used| ==> used[f]
      modifies this`used, this`usableFrames, this`freeFrames, bitmap
      ensures Mapped() && Truthful(regions, used)
      ensures freeFrames == usableFrames - BitmapFrameCount(regions)
    {
      hide Shows, InUsable, CountFree, MapOk, SpannedFrames, BitmapBytes, BitmapFrameCount, HoldsBitmap, Truthful;
      FreeUsable(regions);
      freeFrames := usableFrames;
      ReserveBitmap(regions, home);
    }

    /** Build the bitmap from the memory map. False stands for the halt when no region can hold it. */
    method Init(regions: seq<Entry>) returns (ok: bool)
      requires MapOk(regions)
      modifies this
      ensures ok <==> FirstFit(regions, BitmapBytes(regions), 0) < |regions|
      ensures ok <==> exists n: nat, k: nat :: Spans(regions, n) && Home(regions, k, n)
      ensures ok ==> Spans(regions, totalFrames)
      ensures ok ==> exists k :: Home(regions, k, totalFrames) && FreeMeans(regions, k, used)
      ensures ok ==>
        && Valid() && fresh(bitmap) && totalFrames == SpannedFrames(regions)
        && Truthful(regions, used)
        && freeFrames == usableFrames - BitmapFrameCount(regions)
        && nextHint == 0
    {
      hide Shows, InUsable, CountFree, MapOk, HoldsBitmap, FirstFit, HighestEnd, TestBit, Truthful, BitmapFrameCount;
      hide Spans, Home, FreeMeans, BitmapBytes;
      NoHome(regions);
      BytesOf(regions);
      var highest := HighestUsable(regions);
      totalFrames := highest / 4096;
      var bytes := (totalFrames + 7) / 8;
      var home := FindHome(regions, bytes);
      if home == 0 {
        return false;
      }
      PaintUsed(bytes);
      Populate(regions, home);
      nextHint := 0;
      FrameZeroUsed(regions, used);
      TruthMeans(regions, used);
      ok := true;
    }
  }

  lemma ClearNext(regions: seq<Entry>, i: nat, f: nat)
    requires MapOk(regions) && i < |regions| && Holds(regions[i], f)
    ensures f < SpannedFrames(regions) && !InUsable(regions[..i], f)
  {
    assert InUsable(regions, f);
    SpansUsable(regions, f);
    NotYetUsable(regions, i, f);
  }
}
