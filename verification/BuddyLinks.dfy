/** The free lists threaded through the free blocks themselves: a {next, prev} node in the first
    two words of every free block. */
module BuddyLinks {
  import opened PhysicalMemory
  import opened BuddyBlocks
  import opened BuddyLists

  /** Pointer to the node of the block at `frame`, through the direct map at `hhdm`. */
  function Ptr(hhdm: nat, frame: nat): nat {
    hhdm + Addr(frame)
  }

  function NextPtr(hhdm: nat, s: seq<nat>, k: nat): nat {
    if k + 1 < |s| then Ptr(hhdm, s[k + 1]) else 0
  }

  function PrevPtr(hhdm: nat, s: seq<nat>, k: nat): nat
    requires k <= |s|
  {
    if k > 0 then Ptr(hhdm, s[k - 1]) else 0
  }

  function HeadPtr(hhdm: nat, s: seq<nat>): nat {
    if s == [] then 0 else Ptr(hhdm, s[0])
  }

  /** The node of the k-th block of list s: {next, prev} in its first two words. */
  ghost predicate NodeAt(w: Ram, hhdm: nat, s: seq<nat>, k: nat)
    requires k < |s|
  {
    Load(w, Addr(s[k])) == NextPtr(hhdm, s, k) && Load(w, Addr(s[k]) + 8) == PrevPtr(hhdm, s, k)
  }

  ghost predicate Threaded(w: Ram, hhdm: nat, s: seq<nat>) {
    forall k :: 0 <= k < |s| ==> NodeAt(w, hhdm, s, k)
  }

  ghost predicate Linked(w: Ram, hhdm: nat, heads: seq<nat>, counts: seq<nat>, lists: Lists) {
    && |heads| == |counts| == |lists|
    && forall o :: 0 <= o < |lists| ==>
         && heads[o] == HeadPtr(hhdm, lists[o])
         && counts[o] == |lists[o]|
         && Threaded(w, hhdm, lists[o])
  }

  /** Every word that differs lies in a frame that is free according to `lists`. */
  ghost predicate OnlyFreeTouched(w: Ram, after: Ram, lists: Lists) {
    forall a: nat :: !IsFree(lists, FrameOf(a)) ==> Load(after, a) == Load(w, a)
  }

  /** The four stores of list_push. */
  function PushWords(w: Ram, hhdm: nat, head: nat, frame: nat): Ram
    requires head == 0 || head >= hhdm
  {
    var linked := Store(Store(w, Addr(frame) + 8, 0), Addr(frame), head);
    if head == 0 then linked else Store(linked, head - hhdm + 8, Ptr(hhdm, frame))
  }

  /** The stores of list_remove, given the node's own links. */
  function UnlinkWords(w: Ram, hhdm: nat, prev: nat, next: nat): Ram
    requires (prev == 0 || prev >= hhdm) && (next == 0 || next >= hhdm)
  {
    var skipped := if prev == 0 then w else Store(w, prev - hhdm, next);
    if next == 0 then skipped else Store(skipped, next - hhdm + 8, prev)
  }

  lemma PushNode(w: Ram, hhdm: nat, s: seq<nat>, frame: nat, k: nat)
    requires hhdm > 0 && frame !in s && k < |s| && NodeAt(w, hhdm, s, k) && (k > 0 ==> s[k] != s[0])
    ensures NodeAt(PushWords(w, hhdm, HeadPtr(hhdm, s), frame), hhdm, [frame] + s, k + 1)
  {
    var t := [frame] + s;
    assert t[k + 1] == s[k] != frame;
    assert NextPtr(hhdm, t, k + 1) == NextPtr(hhdm, s, k);
  }

  lemma PushThreads(w: Ram, hhdm: nat, s: seq<nat>, frame: nat)
    requires hhdm > 0 && Threaded(w, hhdm, s) && frame !in s && NoDuplicates(s)
    ensures Threaded(PushWords(w, hhdm, HeadPtr(hhdm, s), frame), hhdm, [frame] + s)
  {
    var after, t := PushWords(w, hhdm, HeadPtr(hhdm, s), frame), [frame] + s;
    forall k | 0 <= k < |t| ensures NodeAt(after, hhdm, t, k) {
      if k > 0 { PushNode(w, hhdm, s, frame, k - 1); }
    }
  }

  lemma UnlinkNode(w: Ram, hhdm: nat, s: seq<nat>, k: nat, i: nat)
    requires hhdm > 0 && NoDuplicates(s) && k < |s| && i < |s| && i != k && NodeAt(w, hhdm, s, i)
    ensures var after := UnlinkWords(w, hhdm, PrevPtr(hhdm, s, k), NextPtr(hhdm, s, k));
      && Load(after, Addr(s[i])) == (if i + 1 == k then NextPtr(hhdm, s, k) else NextPtr(hhdm, s, i))
      && Load(after, Addr(s[i]) + 8) == (if i == k + 1 then PrevPtr(hhdm, s, k) else PrevPtr(hhdm, s, i))
  {
    if k > 0 && i != k - 1 { assert s[i] != s[k - 1]; }
    if k + 1 < |s| && i != k + 1 { assert s[i] != s[k + 1]; }
  }

  lemma UnlinkThreads(w: Ram, hhdm: nat, s: seq<nat>, k: nat)
    requires hhdm > 0 && Threaded(w, hhdm, s) && NoDuplicates(s) && k < |s|
    ensures Threaded(UnlinkWords(w, hhdm, PrevPtr(hhdm, s, k), NextPtr(hhdm, s, k)), hhdm, s[..k] + s[k + 1..])
  {
    var after, t := UnlinkWords(w, hhdm, PrevPtr(hhdm, s, k), NextPtr(hhdm, s, k)), s[..k] + s[k + 1..];
    forall i | 0 <= i < |t| ensures NodeAt(after, hhdm, t, i) {
      UnlinkNode(w, hhdm, s, k, if i < k then i else i + 1);
      UnlinkNeighbours(hhdm, s, k, i);
    }
  }

  lemma UnlinkNeighbours(hhdm: nat, s: seq<nat>, k: nat, i: nat)
    requires k < |s| && i < |s| - 1
    ensures var t := s[..k] + s[k + 1..];
      var j := if i < k then i else i + 1;
      && t[i] == s[j]
      && NextPtr(hhdm, t, i) == NextPtr(hhdm, s, if j + 1 == k then k else j)
      && PrevPtr(hhdm, t, i) == PrevPtr(hhdm, s, if j == k + 1 then k else j)
  {
  }

  /** A list none of whose nodes was written stays threaded. */
  lemma StillThreaded(w: Ram, after: Ram, hhdm: nat, s: seq<nat>)
    requires Threaded(w, hhdm, s)
    requires forall f :: f in s ==>
      Load(after, Addr(f)) == Load(w, Addr(f)) && Load(after, Addr(f) + 8) == Load(w, Addr(f) + 8)
    ensures Threaded(after, hhdm, s)
  {
    forall k | 0 <= k < |s| ensures NodeAt(after, hhdm, s, k) {
      assert NodeAt(w, hhdm, s, k) && s[k] in s;
    }
  }

  lemma DistinctBases(lists: Lists, o: nat, p: nat, f: nat)
    requires WellFormed(lists) && o < |lists| && p < |lists| && f in lists[o] && f in lists[p]
    ensures o == p
  {
    assert Listed(lists, Block(f, o)) && Listed(lists, Block(f, p));
  }

  lemma PushLinks(w: Ram, hhdm: nat, heads: seq<nat>, counts: seq<nat>, lists: Lists, b: Block)
    requires hhdm > 0 && WellFormed(lists) && Linked(w, hhdm, heads, counts, lists) && Fits(lists, b)
    ensures var after := PushWords(w, hhdm, heads[b.order], b.base);
      var next := Push(lists, b.order, b.base);
      && Linked(after, hhdm, heads[b.order := Ptr(hhdm, b.base)], counts[b.order := counts[b.order] + 1], next)
      && WellFormed(next)
      && OnlyFreeTouched(w, after, next)
  {
    var s := lists[b.order];
    var after := PushWords(w, hhdm, heads[b.order], b.base);
    var next := Push(lists, b.order, b.base);
    PushKeeps(lists, b);
    assert forall o :: 0 <= o < |lists| ==> b.base !in lists[o] by {
      forall o | 0 <= o < |lists| ensures b.base !in lists[o] {
        if b.base in lists[o] { assert Listed(lists, Block(b.base, o)); }
      }
    }
    PushThreads(w, hhdm, s, b.base);
    forall o | 0 <= o < |lists| && o != b.order ensures Threaded(after, hhdm, next[o]) {
      if s != [] && s[0] in lists[o] { DistinctBases(lists, o, b.order, s[0]); }
      StillThreaded(w, after, hhdm, lists[o]);
    }
    assert Listed(next, b) && Covers(b, b.base);
    if s != [] { assert Listed(next, Block(s[0], b.order)) && Covers(Block(s[0], b.order), s[0]); }
  }

  lemma UnlinkOthers(w: Ram, hhdm: nat, lists: Lists, b: Block, o: nat)
    requires hhdm > 0 && WellFormed(lists) && Listed(lists, b) && o < |lists| && o != b.order
    requires Threaded(w, hhdm, lists[o])
    ensures var s := lists[b.order];
      var k := IndexOf(s, b.base);
      Threaded(UnlinkWords(w, hhdm, PrevPtr(hhdm, s, k), NextPtr(hhdm, s, k)), hhdm, lists[o])
  {
    var s := lists[b.order];
    var k := IndexOf(s, b.base);
    forall f | f in s ensures f !in lists[o] {
      if f in lists[o] { DistinctBases(lists, o, b.order, f); }
    }
    assert k > 0 ==> s[k - 1] in s;
    assert k + 1 < |s| ==> s[k + 1] in s;
    StillThreaded(w, UnlinkWords(w, hhdm, PrevPtr(hhdm, s, k), NextPtr(hhdm, s, k)), hhdm, lists[o]);
  }

  lemma UnlinkTouches(w: Ram, hhdm: nat, lists: Lists, b: Block)
    requires hhdm > 0 && Listed(lists, b)
    ensures var s := lists[b.order];
      var k := IndexOf(s, b.base);
      OnlyFreeTouched(w, UnlinkWords(w, hhdm, PrevPtr(hhdm, s, k), NextPtr(hhdm, s, k)), lists)
  {
    var s := lists[b.order];
    var k := IndexOf(s, b.base);
    if k > 0 { assert Listed(lists, Block(s[k - 1], b.order)) && Covers(Block(s[k - 1], b.order), s[k - 1]); }
    if k + 1 < |s| { assert Listed(lists, Block(s[k + 1], b.order)) && Covers(Block(s[k + 1], b.order), s[k + 1]); }
  }

  lemma UnlinkLinks(w: Ram, hhdm: nat, heads: seq<nat>, counts: seq<nat>, lists: Lists, b: Block)
    requires hhdm > 0 && WellFormed(lists) && Linked(w, hhdm, heads, counts, lists) && Listed(lists, b)
    ensures var s := lists[b.order];
      var k := IndexOf(s, b.base);
      && counts[b.order] > 0
      && Linked(UnlinkWords(w, hhdm, PrevPtr(hhdm, s, k), NextPtr(hhdm, s, k)), hhdm,
                if k > 0 then heads else heads[b.order := NextPtr(hhdm, s, k)],
                counts[b.order := counts[b.order] - 1], Remove(lists, b.order, b.base))
  {
    var s := lists[b.order];
    var k := IndexOf(s, b.base);
    UnlinkThreads(w, hhdm, s, k);
    forall o | 0 <= o < |lists| && o != b.order
      ensures Threaded(UnlinkWords(w, hhdm, PrevPtr(hhdm, s, k), NextPtr(hhdm, s, k)), hhdm, lists[o])
    {
      UnlinkOthers(w, hhdm, lists, b, o);
    }
  }

  /** list_remove as a whole, in terms of the links it reads from the node itself. */
  lemma UnlinkWhole(w: Ram, hhdm: nat, heads: seq<nat>, counts: seq<nat>, lists: Lists, b: Block)
    requires hhdm > 0 && WellFormed(lists) && Linked(w, hhdm, heads, counts, lists) && Listed(lists, b)
    ensures var next, prev := Load(w, Addr(b.base)), Load(w, Addr(b.base) + 8);
      && (next == 0 || next >= hhdm) && (prev == 0 || prev >= hhdm)
      && counts[b.order] > 0
      && Linked(UnlinkWords(w, hhdm, prev, next), hhdm, if prev != 0 then heads else heads[b.order := next],
                counts[b.order := counts[b.order] - 1], Remove(lists, b.order, b.base))
      && WellFormed(Remove(lists, b.order, b.base))
      && OnlyFreeTouched(w, UnlinkWords(w, hhdm, prev, next), lists)
  {
    hide WellFormed, Linked, UnlinkWords, Remove, OnlyFreeTouched;
    NodeSays(w, hhdm, heads, counts, lists, b);
    UnlinkLinks(w, hhdm, heads, counts, lists, b);
    UnlinkTouches(w, hhdm, lists, b);
    RemoveKeeps(lists, b);
  }

  lemma NodeSays(w: Ram, hhdm: nat, heads: seq<nat>, counts: seq<nat>, lists: Lists, b: Block)
    requires Linked(w, hhdm, heads, counts, lists) && Listed(lists, b)
    ensures NodeAt(w, hhdm, lists[b.order], IndexOf(lists[b.order], b.base))
  {
  }

  /** Stores outside the free frames leave every list as it is. */
  lemma {:induction false} LinkedStays(w: Ram, after: Ram, hhdm: nat, heads: seq<nat>, counts: seq<nat>, lists: Lists)
    requires Linked(w, hhdm, heads, counts, lists)
    requires forall f :: IsFree(lists, f) ==>
      Load(after, Addr(f)) == Load(w, Addr(f)) && Load(after, Addr(f) + 8) == Load(w, Addr(f) + 8)
    ensures Linked(after, hhdm, heads, counts, lists)
  {
    forall o | 0 <= o < |lists| ensures Threaded(after, hhdm, lists[o]) {
      forall f | f in lists[o] ensures IsFree(lists, f) {
        assert Listed(lists, Block(f, o)) && Covers(Block(f, o), f);
      }
      StillThreaded(w, after, hhdm, lists[o]);
    }
  }
}
