/** The buddy allocator's free lists as values: what one call does to them. */
module BuddyLists {
  import opened Bits
  import opened BuddyBlocks

  datatype Option<+T> = None | Some(value: T)

  /** lists[o] holds the base frames of the free blocks of order o, head of the list first. */
  type Lists = seq<seq<nat>>

  predicate Listed(lists: Lists, b: Block) {
    b.order < |lists| && b.base in lists[b.order]
  }

  ghost predicate IsFree(lists: Lists, frame: nat) {
    exists b :: Listed(lists, b) && Covers(b, frame)
  }

  predicate NoDuplicates(s: seq<nat>) {
    forall i, j :: 0 <= i < j < |s| ==> s[i] != s[j]
  }

  ghost predicate WellFormed(lists: Lists) {
    && |lists| == MAX_ORDER + 1
    && (forall o :: 0 <= o < |lists| ==> NoDuplicates(lists[o]))
    && (forall b :: Listed(lists, b) ==> Aligned(b))
    && (forall b, c :: Listed(lists, b) && Listed(lists, c) && b != c ==> Disjoint(b, c))
  }

  /** Maximally coalesced: no block below the top order is free together with its buddy. */
  ghost predicate Coalesced(lists: Lists) {
    forall b :: Listed(lists, b) && b.order < MAX_ORDER ==> !Listed(lists, BuddyOf(b))
  }

  /** b may be handed back: it is a proper block that overlaps no free one. */
  ghost predicate Fits(lists: Lists, b: Block) {
    && b.order <= MAX_ORDER
    && Aligned(b)
    && forall c :: Listed(lists, c) ==> Disjoint(b, c)
  }

  // ---- list steps ------------------------------------------------------------------

  function Push(lists: Lists, order: nat, frame: nat): (r: Lists)
    requires order < |lists|
    ensures |r| == |lists|
  {
    lists[order := [frame] + lists[order]]
  }

  function IndexOf(s: seq<nat>, x: nat): (k: nat)
    requires x in s
    ensures k < |s| && s[k] == x
  {
    if s[0] == x then 0 else 1 + IndexOf(s[1..], x)
  }

  function Remove(lists: Lists, order: nat, frame: nat): (r: Lists)
    requires order < |lists| && frame in lists[order]
    ensures |r| == |lists|
  {
    var k := IndexOf(lists[order], frame);
    lists[order := lists[order][..k] + lists[order][k + 1..]]
  }

  // ---- buddy_alloc -------------------------------------------------------------------

  function FirstNonEmpty(lists: Lists, order: nat): (o: nat)
    requires order <= |lists|
    ensures order <= o <= |lists|
    ensures o < |lists| ==> lists[o] != []
    ensures forall k :: order <= k < o ==> lists[k] == []
    decreases |lists| - order
  {
    if order == |lists| || lists[order] != [] then order else FirstNonEmpty(lists, order + 1)
  }

  /** Halve the block (frame, o) down to `target`, keeping the lower half each time. */
  function SplitDown(lists: Lists, frame: nat, o: nat, target: nat): (r: Lists)
    requires target <= o <= |lists|
    ensures |r| == |lists|
    decreases o
  {
    if o == target then lists
    else SplitDown(Push(lists, o - 1, frame + Pow2(o - 1)), frame, o - 1, target)
  }

  function Alloc(lists: Lists, order: nat): (r: (Lists, Option<nat>))
    requires |lists| == MAX_ORDER + 1
    ensures |r.0| == |lists|
  {
    if order > MAX_ORDER then (lists, None)
    else
      var o := FirstNonEmpty(lists, order);
      if o > MAX_ORDER then (lists, None)
      else (SplitDown(Remove(lists, o, lists[o][0]), lists[o][0], o, order), Some(lists[o][0]))
  }

  // ---- buddy_free --------------------------------------------------------------------

  function FreeBlock(lists: Lists, frame: nat, order: nat): (r: Lists)
    requires |lists| == MAX_ORDER + 1 && order <= MAX_ORDER
    ensures |r| == |lists|
    decreases MAX_ORDER - order
  {
    var buddy := Xor(frame, Pow2(order));
    if order < MAX_ORDER && buddy in lists[order] then
      FreeBlock(Remove(lists, order, buddy), if buddy < frame then buddy else frame, order + 1)
    else
      Push(lists, order, frame)
  }

  // ---- what the steps list -----------------------------------------------------------

  lemma PushListed(lists: Lists, b: Block)
    requires b.order < |lists|
    ensures forall c :: Listed(Push(lists, b.order, b.base), c) <==> Listed(lists, c) || c == b
  {
  }

  lemma RemoveListed(lists: Lists, b: Block)
    requires Listed(lists, b) && NoDuplicates(lists[b.order])
    ensures forall c :: Listed(Remove(lists, b.order, b.base), c) <==> Listed(lists, c) && c != b
    ensures NoDuplicates(Remove(lists, b.order, b.base)[b.order])
  {
    var s, k := lists[b.order], IndexOf(lists[b.order], b.base);
    var t := s[..k] + s[k + 1..];
    assert forall x :: x in t ==> x in s && x != b.base;
    forall x | x in s && x != b.base ensures x in t {
      var i :| 0 <= i < |s| && s[i] == x;
      assert t[if i < k then i else i - 1] == x;
    }
  }

  lemma PushKeeps(lists: Lists, b: Block)
    requires WellFormed(lists) && Fits(lists, b)
    ensures WellFormed(Push(lists, b.order, b.base))
    ensures forall f :: IsFree(Push(lists, b.order, b.base), f) <==> IsFree(lists, f) || Covers(b, f)
  {
    var after := Push(lists, b.order, b.base);
    PushListed(lists, b);
    assert b.base !in lists[b.order] by {
      if b.base in lists[b.order] { assert Listed(lists, b); }
    }
    forall f ensures IsFree(after, f) <==> IsFree(lists, f) || Covers(b, f) {
      if IsFree(lists, f) {
        var c :| Listed(lists, c) && Covers(c, f);
        assert Listed(after, c);
      }
      if Covers(b, f) { assert Listed(after, b); }
    }
  }

  lemma RemoveKeeps(lists: Lists, b: Block)
    requires WellFormed(lists) && Listed(lists, b)
    ensures WellFormed(Remove(lists, b.order, b.base)) && Fits(Remove(lists, b.order, b.base), b)
    ensures forall f :: IsFree(lists, f) <==> IsFree(Remove(lists, b.order, b.base), f) || Covers(b, f)
    ensures Coalesced(lists) ==> Coalesced(Remove(lists, b.order, b.base))
  {
    var after := Remove(lists, b.order, b.base);
    RemoveListed(lists, b);
    forall f ensures IsFree(lists, f) <==> IsFree(after, f) || Covers(b, f) {
      if IsFree(lists, f) {
        var c :| Listed(lists, c) && Covers(c, f);
        if c != b { assert Listed(after, c); }
      }
      if IsFree(after, f) {
        var c :| Listed(after, c) && Covers(c, f);
        assert Listed(lists, c);
      }
    }
  }

  lemma FitsNotFree(lists: Lists, b: Block)
    requires Fits(lists, b)
    ensures forall f :: Covers(b, f) ==> !IsFree(lists, f)
  {
  }

  // ---- splitting ---------------------------------------------------------------------

  lemma SplitUnfolds(lists: Lists, frame: nat, o: nat, target: nat)
    requires target <= o <= |lists|
    ensures SplitDown(lists, frame, o, target) ==
      if o == target then lists
      else SplitDown(Push(lists, o - 1, Upper(Block(frame, o)).base), frame, o - 1, target)
  {
  }

  /** Splitting gives away exactly the kept block's frames, whatever was free before. */
  lemma {:induction false} SplitKeeps(lists: Lists, frame: nat, o: nat, target: nat)
    requires WellFormed(lists) && target <= o && Fits(lists, Block(frame, o))
    ensures WellFormed(SplitDown(lists, frame, o, target))
    ensures Fits(SplitDown(lists, frame, o, target), Block(frame, target))
    ensures forall f :: IsFree(lists, f) || Covers(Block(frame, o), f)
                   <==> IsFree(SplitDown(lists, frame, o, target), f) || Covers(Block(frame, target), f)
    ensures Coalesced(lists) ==> Coalesced(SplitDown(lists, frame, o, target))
    decreases o
  {
    assert |lists| == MAX_ORDER + 1 && o <= MAX_ORDER;
    SplitUnfolds(lists, frame, o, target);
    var b := Block(frame, o);
    assert o > 0 ==> Lower(b) == Block(frame, o - 1);
    hide WellFormed, Fits, Coalesced, IsFree, Push, Covers, SplitDown, Upper, Lower, Pow2;
    if o > target {
      var next := Push(lists, o - 1, Upper(b).base);
      SplitStep(lists, b);
      SplitKeeps(next, frame, o - 1, target);
    }
  }

  lemma SplitStep(lists: Lists, b: Block)
    requires WellFormed(lists) && b.order > 0 && Fits(lists, b)
    ensures var next := Push(lists, b.order - 1, Upper(b).base);
      && WellFormed(next) && Fits(next, Lower(b))
      && (Coalesced(lists) ==> Coalesced(next))
      && forall f :: IsFree(lists, f) || Covers(b, f) <==> IsFree(next, f) || Covers(Lower(b), f)
  {
    HalvesOf(b);
    assert forall f :: Covers(b, f) <==> Covers(Lower(b), f) || Covers(Upper(b), f);
    var next := Push(lists, b.order - 1, Upper(b).base);
    PushListed(lists, Upper(b));
    PushKeeps(lists, Upper(b));
    assert !Listed(next, Lower(b)) by { assert Covers(Lower(b), b.base); }
    if Coalesced(lists) {
      forall c | Listed(next, c) && c.order < MAX_ORDER ensures !Listed(next, BuddyOf(c)) {
        BuddyHalves(c);
      }
    }
  }

  // ---- merging -----------------------------------------------------------------------

  lemma MergeStep(lists: Lists, b: Block)
    requires WellFormed(lists) && b.order < MAX_ORDER && Fits(lists, b) && Listed(lists, BuddyOf(b))
    ensures var next := Remove(lists, b.order, BuddyOf(b).base);
      && WellFormed(next) && Fits(next, Parent(b))
      && (Coalesced(lists) ==> Coalesced(next))
      && forall f :: IsFree(lists, f) || Covers(b, f) <==> IsFree(next, f) || Covers(Parent(b), f)
  {
    var next := Remove(lists, b.order, BuddyOf(b).base);
    BuddyHalves(b);
    RemoveListed(lists, BuddyOf(b));
    RemoveKeeps(lists, BuddyOf(b));
    assert forall f :: Covers(Parent(b), f) <==> Covers(b, f) || Covers(BuddyOf(b), f);
    forall f ensures IsFree(lists, f) || Covers(b, f) <==> IsFree(next, f) || Covers(Parent(b), f) {
      assert IsFree(lists, f) <==> IsFree(next, f) || Covers(BuddyOf(b), f);
    }
  }

  /** Freeing gives back exactly the block's frames and leaves no free pair of buddies behind. */
  lemma {:induction false} FreeKeeps(lists: Lists, frame: nat, order: nat)
    requires WellFormed(lists) && Fits(lists, Block(frame, order))
    ensures WellFormed(FreeBlock(lists, frame, order))
    ensures forall f :: IsFree(FreeBlock(lists, frame, order), f) <==>
      IsFree(lists, f) || Covers(Block(frame, order), f)
    ensures Coalesced(lists) ==> Coalesced(FreeBlock(lists, frame, order))
    decreases MAX_ORDER - order
  {
    var b := Block(frame, order);
    if order < MAX_ORDER && Listed(lists, BuddyOf(b)) {
      MergeStep(lists, b);
      FreeKeeps(Remove(lists, order, BuddyOf(b).base), Parent(b).base, order + 1);
    } else {
      PushListed(lists, b);
      PushKeeps(lists, b);
      BuddyHalves(b);
      if Coalesced(lists) {
        forall c | Listed(Push(lists, order, frame), c) && c.order < MAX_ORDER
          ensures !Listed(Push(lists, order, frame), BuddyOf(c))
        {
          BuddyHalves(c);
        }
      }
    }
  }

  // ---- one allocation ------------------------------------------------------------------

  /** A successful allocation takes exactly one aligned block of the requested order out of the free frames. */
  lemma {:induction false} AllocKeeps(lists: Lists, order: nat)
    requires WellFormed(lists)
    ensures var (after, got) := Alloc(lists, order);
      && WellFormed(after)
      && (Coalesced(lists) ==> Coalesced(after))
      && (got.None? ==> after == lists)
      && (got.Some? ==>
            && order <= MAX_ORDER && Fits(after, Block(got.value, order))
            && forall f :: IsFree(lists, f) <==> IsFree(after, f) || Covers(Block(got.value, order), f))
  {
    if order <= MAX_ORDER {
      var o := FirstNonEmpty(lists, order);
      if o <= MAX_ORDER {
        var b := Block(lists[o][0], o);
        assert Listed(lists, b);
        RemoveKeeps(lists, b);
        SplitKeeps(Remove(lists, o, b.base), b.base, o, order);
      }
    }
  }

  // ---- exactly what changes on the lists -----------------------------------------------------------

  /** Block (frame, o) came off the head of the first list from `order` on that had one; the upper halves
      left over, one of each smaller order, are alone on their lists, which were empty. */
  ghost predicate BestFit(lists: Lists, after: Lists, order: nat, o: nat, frame: nat) {
    && order <= o < |lists| && |after| == |lists|
    && lists[o] == [frame] + after[o]
    && (forall p :: order <= p < o ==> lists[p] == [] && after[p] == [frame + Pow2(p)])
    && (forall p :: 0 <= p < |lists| && (p < order || o < p) ==> after[p] == lists[p])
  }

  lemma {:induction false} SplitSays(lists: Lists, frame: nat, o: nat, target: nat)
    requires target <= o <= |lists|
    ensures var r := SplitDown(lists, frame, o, target);
      && (forall p :: target <= p < o ==> r[p] == [frame + Pow2(p)] + lists[p])
      && (forall p :: 0 <= p < |lists| && (p < target || o <= p) ==> r[p] == lists[p])
    decreases o
  {
    hide Pow2;
    if o > target { SplitSays(Push(lists, o - 1, frame + Pow2(o - 1)), frame, o - 1, target); }
  }

  lemma HeadRemoved(lists: Lists, o: nat)
    requires o < |lists| && lists[o] != []
    ensures Remove(lists, o, lists[o][0]) == lists[o := lists[o][1..]] && lists[o] == [lists[o][0]] + lists[o][1..]
  {
    assert IndexOf(lists[o], lists[o][0]) == 0;
    assert lists[o][..0] + lists[o][0 + 1..] == lists[o][1..];
  }

  lemma SplitIsBestFit(lists: Lists, order: nat, o: nat)
    requires order <= o < |lists| && lists[o] != [] && forall p :: order <= p < o ==> lists[p] == []
    ensures BestFit(lists, SplitDown(Remove(lists, o, lists[o][0]), lists[o][0], o, order), order, o, lists[o][0])
  {
    HeadRemoved(lists, o);
    var f, rest := lists[o][0], Remove(lists, o, lists[o][0]);
    SplitSays(rest, f, o, order);
    hide Pow2, SplitDown, Remove;
    forall p | order <= p < o ensures SplitDown(rest, f, o, order)[p] == [f + Pow2(p)] {
      assert rest[p] == [];
    }
  }

  /** The smallest sufficient block is split, the head of its list, and the lower half kept each time; an
      allocation fails when there is none. */
  lemma {:induction false} AllocIsBestFit(lists: Lists, order: nat)
    requires |lists| == MAX_ORDER + 1
    ensures var (after, got) := Alloc(lists, order);
      && (got.None? ==> after == lists && forall p :: order <= p < |lists| ==> lists[p] == [])
      && (got.Some? ==> exists o :: BestFit(lists, after, order, o, got.value))
  {
    hide Remove, BestFit, Pow2;
    if order <= MAX_ORDER {
      var o := FirstNonEmpty(lists, order);
      if o <= MAX_ORDER { SplitIsBestFit(lists, order, o); }
    }
  }

  /** Base of the aligned block of order o around a frame, and of that block's other half of order o. */
  function BaseAt(frame: nat, o: nat): nat {
    hide Pow2;
    RoundDown(frame, Pow2(o));
    frame - frame % Pow2(o)
  }

  function OtherHalf(frame: nat, o: nat): nat {
    if BaseAt(frame, o) == BaseAt(frame, o + 1) then BaseAt(frame, o) + Pow2(o) else BaseAt(frame, o + 1)
  }

  /** t is s with one x taken out. */
  ghost predicate Without(s: seq<nat>, x: nat, t: seq<nat>) {
    exists k :: 0 <= k < |s| && s[k] == x && t == s[..k] + s[k + 1..]
  }

  /** From `order` up to o every other half was on its list and has left it; the block of order o around the
      frame is new at the head of its list, and its own other half is not free, or it is of the top order. */
  ghost predicate MergedUpTo(lists: Lists, after: Lists, order: nat, o: nat, frame: nat) {
    && order <= o < |lists| && |after| == |lists|
    && (forall p :: order <= p < o ==> Without(lists[p], OtherHalf(frame, p), after[p]))
    && after[o] == [BaseAt(frame, o)] + lists[o]
    && (o + 1 < |lists| ==> OtherHalf(frame, o) !in lists[o])
    && (forall p :: 0 <= p < |lists| && (p < order || o < p) ==> after[p] == lists[p])
  }

  lemma BaseIs(frame: nat, o: nat, base: nat)
    requires base % Pow2(o) == 0 && base <= frame < base + Pow2(o)
    ensures BaseAt(frame, o) == base
  {
    var p := Pow2(o);
    assert base == (base / p) * p;
    MulModPlus(base / p, p, frame - base);
  }

  lemma BaseFits(frame: nat, o: nat)
    ensures BaseAt(frame, o) % Pow2(o) == 0 && BaseAt(frame, o) <= frame < BaseAt(frame, o) + Pow2(o)
  {
    hide Pow2;
    RoundDown(frame, Pow2(o));
  }

  /** The block of order p around a frame is the one around the frame's block of any smaller order. */
  lemma BaseNested(frame: nat, o: nat, p: nat)
    requires o <= p
    ensures BaseAt(BaseAt(frame, o), p) == BaseAt(frame, p)
  {
    hide BaseAt, Pow2, AlignedTo;
    var low, high := Block(BaseAt(frame, o), o), Block(BaseAt(frame, p), p);
    BaseFits(frame, o);
    BaseFits(frame, p);
    AlignedIsMask(low.base, o);
    AlignedIsMask(high.base, p);
    assert Covers(low, frame) && Covers(high, frame);
    NestedOrDisjoint(low, high);
    BaseIs(low.base, p, high.base);
  }

  lemma HalvesAgree(frame: nat, o: nat)
    requires frame % Pow2(o) == 0
    ensures BaseAt(frame, o) == frame && Xor(frame, Pow2(o)) == OtherHalf(frame, o)
    ensures BaseAt(frame, o + 1) == if Xor(frame, Pow2(o)) < frame then Xor(frame, Pow2(o)) else frame
  {
    var b := Block(frame, o);
    var base := Parent(b).base;
    HalfPow2(o + 1);
    AlignedIsMask(frame, o);
    BuddyHalves(b);
    AlignedIsMask(base, o + 1);
    assert base <= frame < base + Pow2(o + 1);
    hide Pow2, Xor, BaseAt, AlignedTo;
    BaseIs(frame, o, frame);
    BaseIs(frame, o + 1, base);
  }

  /** Freeing merges upwards exactly as long as the other half is free, and touches no other list. */
  lemma {:induction false} FreeMerges(lists: Lists, frame: nat, order: nat)
    requires |lists| == MAX_ORDER + 1 && order <= MAX_ORDER && frame % Pow2(order) == 0
    ensures exists o :: MergedUpTo(lists, FreeBlock(lists, frame, order), order, o, frame)
    decreases MAX_ORDER - order
  {
    var after := FreeBlock(lists, frame, order);
    var buddy := Xor(frame, Pow2(order));
    HalvesAgree(frame, order);
    hide Pow2, Xor, BaseAt, OtherHalf;
    if order < MAX_ORDER && buddy in lists[order] {
      var next, base := Remove(lists, order, buddy), BaseAt(frame, order + 1);
      BaseFits(frame, order + 1);
      FreeMerges(next, base, order + 1);
      var o :| MergedUpTo(next, after, order + 1, o, base);
      MergedOn(lists, next, after, order, o, frame);
    } else {
      assert MergedUpTo(lists, after, order, order, frame);
    }
  }

  lemma OtherHalfNested(frame: nat, o: nat, p: nat)
    requires o <= p
    ensures OtherHalf(BaseAt(frame, o), p) == OtherHalf(frame, p)
  {
    BaseNested(frame, o, p);
    BaseNested(frame, o, p + 1);
    hide BaseAt, Pow2;
  }

  lemma MergedOn(lists: Lists, next: Lists, after: Lists, order: nat, o: nat, frame: nat)
    requires order < |lists| && OtherHalf(frame, order) in lists[order]
    requires next == Remove(lists, order, OtherHalf(frame, order))
    requires MergedUpTo(next, after, order + 1, o, BaseAt(frame, order + 1))
    ensures MergedUpTo(lists, after, order, o, frame)
  {
    hide BaseAt, OtherHalf, Pow2;
    var base := BaseAt(frame, order + 1);
    BaseNested(frame, order + 1, o);
    OtherHalfNested(frame, order + 1, o);
    forall p | order <= p < o ensures Without(lists[p], OtherHalf(frame, p), after[p]) {
      if p == order {
        var k := IndexOf(lists[p], OtherHalf(frame, p));
        assert lists[p][k] == OtherHalf(frame, p) && after[p] == lists[p][..k] + lists[p][k + 1..];
      } else {
        OtherHalfNested(frame, order + 1, p);
        assert next[p] == lists[p];
      }
    }
  }

  // ---- canonical form --------------------------------------------------------------------

  ghost predicate AllFree(lists: Lists, b: Block) {
    forall f :: Covers(b, f) ==> IsFree(lists, f)
  }

  /** In coalesced lists every aligned run of free frames lies inside one listed block. */
  lemma {:induction false} FreeRunIsInOneBlock(lists: Lists, b: Block) returns (c: Block)
    requires WellFormed(lists) && Coalesced(lists)
    requires Aligned(b) && b.order <= MAX_ORDER && AllFree(lists, b)
    ensures Listed(lists, c) && Within(b, c)
    decreases b.order
  {
    if b.order == 0 {
      assert Covers(b, b.base);
      c :| Listed(lists, c) && Covers(c, b.base);
    } else {
      HalvesOf(b);
      var low := FreeRunIsInOneBlock(lists, Lower(b));
      var high := FreeRunIsInOneBlock(lists, Upper(b));
      BeyondHalf(Lower(b), b, low);
      BeyondHalf(Upper(b), b, high);
      c := if Within(b, low) then low else high;
    }
  }

  /** buddy_alloc is complete: it fails exactly when no aligned run of 2^order frames is free. */
  lemma {:induction false} AllocComplete(lists: Lists, order: nat)
    requires WellFormed(lists) && Coalesced(lists) && order <= MAX_ORDER
    ensures Alloc(lists, order).1.None? <==>
              !exists base :: AlignedTo(base, order) && AllFree(lists, Block(base, order))
  {
    AllocKeeps(lists, order);
    var o := FirstNonEmpty(lists, order);
    if o <= MAX_ORDER {
      var base := Alloc(lists, order).1.value;
      assert AlignedTo(base, order) && AllFree(lists, Block(base, order));
    } else if exists base :: AlignedTo(base, order) && AllFree(lists, Block(base, order)) {
      var base :| AlignedTo(base, order) && AllFree(lists, Block(base, order));
      var c := FreeRunIsInOneBlock(lists, Block(base, order));
      SizeOrders(Block(base, order), c);
      assert false;
    }
  }

  lemma SizeOrders(b: Block, c: Block)
    requires Within(b, c)
    ensures b.order <= c.order
  {
    if b.order > c.order { Pow2Monotone(c.order + 1, b.order); }
  }

  /** The free frames determine the coalesced lists: two such lists over the same frames hold the same blocks. */
  lemma {:induction false} CoalescedIsUnique(lists: Lists, other: Lists)
    requires WellFormed(lists) && Coalesced(lists)
    requires WellFormed(other) && Coalesced(other)
    requires forall f :: IsFree(lists, f) <==> IsFree(other, f)
    ensures forall b :: Listed(lists, b) <==> Listed(other, b)
  {
    forall b ensures Listed(lists, b) <==> Listed(other, b) {
      if Listed(lists, b) { ListedInBoth(lists, other, b); }
      if Listed(other, b) { ListedInBoth(other, lists, b); }
    }
  }

  lemma ListedIsFree(lists: Lists, b: Block)
    requires WellFormed(lists) && Listed(lists, b)
    ensures AllFree(lists, b) && Aligned(b) && b.order <= MAX_ORDER && Covers(b, b.base)
  {
    hide AlignedTo;
  }

  lemma ListedInBoth(lists: Lists, other: Lists, b: Block)
    requires WellFormed(lists) && Coalesced(lists)
    requires WellFormed(other) && Coalesced(other)
    requires forall f :: IsFree(lists, f) <==> IsFree(other, f)
    requires Listed(lists, b)
    ensures Listed(other, b)
  {
    hide WellFormed, Coalesced, AlignedTo, AllFree, IsFree;
    ListedIsFree(lists, b);
    SameFree(lists, other, b);
    var c := FreeRunIsInOneBlock(other, b);
    ListedIsFree(other, c);
    SameFree(other, lists, c);
    var d := FreeRunIsInOneBlock(lists, c);
    OneBlockEach(lists, d, b, b.base);
    SizeOrders(b, c);
    SizeOrders(c, d);
  }

  lemma SameFree(lists: Lists, other: Lists, b: Block)
    requires AllFree(lists, b) && forall f :: IsFree(lists, f) <==> IsFree(other, f)
    ensures AllFree(other, b)
  {
  }

  /** Reference definition: the listed blocks are exactly the maximal aligned runs of free frames. */
  lemma {:induction false} ListedIsMaximal(lists: Lists, b: Block)
    requires WellFormed(lists) && Coalesced(lists)
    ensures Listed(lists, b) <==>
              && b.order <= MAX_ORDER && Aligned(b) && AllFree(lists, b)
              && (b.order < MAX_ORDER ==> !AllFree(lists, Parent(b)))
  {
    hide AlignedTo, Pow2;
    assert Listed(lists, b) ==> AllFree(lists, b);
    if b.order <= MAX_ORDER && Aligned(b) && AllFree(lists, b) {
      var c := FreeRunIsInOneBlock(lists, b);
      SizeOrders(b, c);
      if c.order == b.order {
        SameSize(b, c);
        if b.order < MAX_ORDER { MaximalHasBusyParent(lists, b); }
      } else {
        LargerHoldsParent(lists, b, c);
      }
    }
  }

  /** A free block that strictly contains another holds that one's parent, too. */
  lemma LargerHoldsParent(lists: Lists, b: Block, c: Block)
    requires WellFormed(lists) && Aligned(b) && Listed(lists, c) && Within(b, c) && b.order < c.order
    ensures !Listed(lists, b) && AllFree(lists, Parent(b))
  {
    hide AlignedTo, Pow2, BuddyOf;
    BuddyHalves(b);
    ParentSpans(b);
    NestedOrDisjoint(Parent(b), c);
    hide Parent;
    assert AllFree(lists, c);
  }

  lemma MaximalHasBusyParent(lists: Lists, b: Block)
    requires WellFormed(lists) && Coalesced(lists) && Listed(lists, b) && b.order < MAX_ORDER
    ensures !AllFree(lists, Parent(b))
  {
    if AllFree(lists, Parent(b)) {
      BuddyHalves(b);
      var c := FreeRunIsInOneBlock(lists, Parent(b));
      hide AlignedTo, Xor, Coalesced;
      SizeOrders(Parent(b), c);
      OneBlockEach(lists, b, c, b.base);
    }
  }

  /** No frame is covered by two listed blocks. */
  lemma OneBlockEach(lists: Lists, b: Block, c: Block, f: nat)
    requires WellFormed(lists) && Listed(lists, b) && Listed(lists, c) && Covers(b, f) && Covers(c, f)
    ensures b == c
  {
    hide AlignedTo;
  }

  // ---- accounting ------------------------------------------------------------------------

  /** Frames on the lists, as buddy_get_stats adds them up: sum of count times block size. */
  function FramesUpTo(lists: Lists, orders: nat): nat
    requires orders <= |lists|
  {
    if orders == 0 then 0
    else FramesUpTo(lists, orders - 1) + |lists[orders - 1]| * Pow2(orders - 1)
  }

  function TotalFrames(lists: Lists): nat {
    FramesUpTo(lists, |lists|)
  }

  lemma {:induction false} OneListChanged(lists: Lists, o: nat, s: seq<nat>, orders: nat)
    requires o < |lists| && orders <= |lists|
    ensures FramesUpTo(lists[o := s], orders) ==
              FramesUpTo(lists, orders) + if o < orders then (|s| - |lists[o]|) * Pow2(o) else 0
    decreases orders
  {
    if orders > 0 {
      OneListChanged(lists, o, s, orders - 1);
      if orders - 1 == o {
        assert |s| * Pow2(o) == |lists[o]| * Pow2(o) + (|s| - |lists[o]|) * Pow2(o);
      }
    }
  }

  lemma PushCounts(lists: Lists, order: nat, frame: nat)
    requires order < |lists|
    ensures TotalFrames(Push(lists, order, frame)) == TotalFrames(lists) + Pow2(order)
  {
    var s := lists[order];
    OneListChanged(lists, order, [frame] + s, |lists|);
    assert |[frame] + s| - |s| == 1;
  }

  lemma RemoveCounts(lists: Lists, order: nat, frame: nat)
    requires order < |lists| && frame in lists[order]
    ensures TotalFrames(Remove(lists, order, frame)) == TotalFrames(lists) - Pow2(order)
  {
    OneListChanged(lists, order, Remove(lists, order, frame)[order], |lists|);
  }

  lemma {:induction false} SplitCounts(lists: Lists, frame: nat, o: nat, target: nat)
    requires target <= o <= |lists|
    ensures TotalFrames(SplitDown(lists, frame, o, target)) == TotalFrames(lists) + Pow2(o) - Pow2(target)
    decreases o
  {
    if o > target {
      PushCounts(lists, o - 1, frame + Pow2(o - 1));
      SplitCounts(Push(lists, o - 1, frame + Pow2(o - 1)), frame, o - 1, target);
    }
  }

  lemma {:induction false} FreeCounts(lists: Lists, frame: nat, order: nat)
    requires |lists| == MAX_ORDER + 1 && order <= MAX_ORDER
    ensures TotalFrames(FreeBlock(lists, frame, order)) == TotalFrames(lists) + Pow2(order)
    decreases MAX_ORDER - order
  {
    var buddy := Xor(frame, Pow2(order));
    if order < MAX_ORDER && buddy in lists[order] {
      RemoveCounts(lists, order, buddy);
      FreeCounts(Remove(lists, order, buddy), if buddy < frame then buddy else frame, order + 1);
    } else {
      PushCounts(lists, order, frame);
    }
  }

  lemma {:induction false} AllocCounts(lists: Lists, order: nat)
    requires |lists| == MAX_ORDER + 1
    ensures var (after, got) := Alloc(lists, order);
      TotalFrames(after) == TotalFrames(lists) - if got.Some? then Pow2(order) else 0
  {
    if order <= MAX_ORDER {
      var o := FirstNonEmpty(lists, order);
      if o <= MAX_ORDER {
        RemoveCounts(lists, o, lists[o][0]);
        SplitCounts(Remove(lists, o, lists[o][0]), lists[o][0], o, order);
      }
    }
  }
}
