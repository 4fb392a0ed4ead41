/** One bit per page frame, eight to a byte, and the sequence of booleans those bytes stand for. */
module FrameBits {

  predicate TestBit(b: bv8, k: nat)
    requires k < 8
  {
    (b >> k) & 1 == 1
  }

  function SetBit(b: bv8, k: nat): bv8
    requires k < 8
  {
    b | (1 << k)
  }

  function ClearBit(b: bv8, k: nat): bv8
    requires k < 8
  {
    b & !(1 << k)
  }

  lemma SetBitChanges(b: bv8, k: nat, j: nat)
    requires k < 8 && j < 8
    ensures TestBit(SetBit(b, k), j) <==> j == k || TestBit(b, j)
  {
    assert k == 0 || k == 1 || k == 2 || k == 3 || k == 4 || k == 5 || k == 6 || k == 7;
    assert j == 0 || j == 1 || j == 2 || j == 3 || j == 4 || j == 5 || j == 6 || j == 7;
  }

  /** Bits are counted from the lowest: the byte in which one bit alone is set. */
  lemma BitOrder()
    ensures SetBit(0, 0) == 0x01 && SetBit(0, 1) == 0x02 && SetBit(0, 2) == 0x04 && SetBit(0, 3) == 0x08
    ensures SetBit(0, 4) == 0x10 && SetBit(0, 5) == 0x20 && SetBit(0, 6) == 0x40 && SetBit(0, 7) == 0x80
  {
  }

  lemma ClearBitChanges(b: bv8, k: nat, j: nat)
    requires k < 8 && j < 8
    ensures TestBit(ClearBit(b, k), j) <==> j != k && TestBit(b, j)
  {
    assert k == 0 || k == 1 || k == 2 || k == 3 || k == 4 || k == 5 || k == 6 || k == 7;
    assert j == 0 || j == 1 || j == 2 || j == 3 || j == 4 || j == 5 || j == 6 || j == 7;
  }

  /** bit i of the bytes says whether frame i is used. */
  ghost predicate Shows(bytes: seq<bv8>, used: seq<bool>) {
    && |used| <= 8 * |bytes|
    && forall i :: 0 <= i < |used| ==> (TestBit(bytes[i / 8], i % 8) <==> used[i])
  }

  lemma {:induction false} WriteShows(bytes: seq<bv8>, used: seq<bool>, i: nat)
    requires Shows(bytes, used) && i < |used|
    ensures Shows(bytes[i / 8 := SetBit(bytes[i / 8], i % 8)], used[i := true])
    ensures Shows(bytes[i / 8 := ClearBit(bytes[i / 8], i % 8)], used[i := false])
  {
    hide TestBit, SetBit, ClearBit;
    var set1 := bytes[i / 8 := SetBit(bytes[i / 8], i % 8)];
    var set0 := bytes[i / 8 := ClearBit(bytes[i / 8], i % 8)];
    forall j | 0 <= j < |used|
      ensures TestBit(set1[j / 8], j % 8) <==> used[i := true][j]
      ensures TestBit(set0[j / 8], j % 8) <==> used[i := false][j]
    {
      SetBitChanges(bytes[i / 8], i % 8, j % 8);
      ClearBitChanges(bytes[i / 8], i % 8, j % 8);
      assert j / 8 == i / 8 && j % 8 == i % 8 ==> j == i;
    }
  }

  function CountFree(used: seq<bool>): nat {
    if used == [] then 0 else CountFree(used[..|used| - 1]) + if used[|used| - 1] then 0 else 1
  }

  lemma {:induction false} WriteCounts(used: seq<bool>, i: nat, v: bool)
    requires i < |used|
    ensures CountFree(used[i := v]) == CountFree(used) + (if used[i] then 1 else 0) - (if v then 1 else 0)
  {
    var n := |used| - 1;
    if i < n {
      WriteCounts(used[..n], i, v);
      assert used[i := v][..n] == used[..n][i := v];
    } else {
      assert used[i := v][..n] == used[..n];
    }
  }

  lemma {:induction false} NoneFree(used: seq<bool>)
    ensures CountFree(used) == 0 <==> forall i :: 0 <= i < |used| ==> used[i]
  {
    if used != [] {
      var n := |used| - 1;
      NoneFree(used[..n]);
      assert forall i :: 0 <= i < n ==> used[..n][i] == used[i];
      assert (forall i :: 0 <= i < |used| ==> used[i]) <==> used[n] && forall i :: 0 <= i < n ==> used[..n][i];
    }
  }

  /** The lowest free frame at or above `start`, or |used|: what a naive scan finds. */
  function FirstFree(used: seq<bool>, start: nat): (f: nat)
    requires start <= |used|
    ensures start <= f <= |used|
    ensures f < |used| ==> !used[f]
    ensures forall i :: start <= i < f ==> used[i]
    decreases |used| - start
  {
    if start == |used| || !used[start] then start else FirstFree(used, start + 1)
  }

  lemma FoundFree(used: seq<bool>)
    ensures var f := FirstFree(used, 0); f < |used| ==> !used[f]
  {
  }

  /** Frames known to be used can be skipped. */
  lemma {:induction false} SkipUsed(used: seq<bool>, start: nat)
    requires start <= |used| && forall i :: 0 <= i < start ==> used[i]
    ensures FirstFree(used, start) == FirstFree(used, 0)
  {
    if start > 0 { SkipUsed(used, start - 1); }
  }

  /** When exactly the frames of a set become used, as many fewer are free. */
  lemma {:induction false} CountTaken(before: seq<bool>, now: seq<bool>, fs: set<nat>)
    requires |now| == |before| && forall f :: f in fs ==> f < |before| && !before[f]
    requires forall f: nat :: f < |now| ==> (now[f] <==> before[f] || f in fs)
    ensures CountFree(now) + |fs| == CountFree(before)
    decreases |fs|
  {
    if fs == {} {
      assert now == before;
    } else {
      var f :| f in fs;
      var mid := now[f := false];
      CountTaken(before, mid, fs - {f});
      WriteCounts(mid, f, true);
      assert mid[f := true] == now;
    }
  }

  lemma {:induction false} NoneLeft(used: seq<bool>)
    requires FirstFree(used, 0) == |used|
    ensures CountFree(used) == 0
  {
    NoneFree(used);
  }
}
