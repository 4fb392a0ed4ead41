/** Geometry of buddy blocks: naturally aligned power-of-two runs of page frames. */
module BuddyBlocks {
  import opened Bits

  const MAX_ORDER: nat := 10

  /** The 2^order frames that start at frame number `base`. */
  datatype Block = Block(base: nat, order: nat)

  function End(b: Block): nat {
    b.base + Pow2(b.order)
  }

  /** base is a multiple of 2^order. */
  predicate AlignedTo(base: nat, order: nat) {
    order == 0 || (base % 2 == 0 && AlignedTo(base / 2, order - 1))
  }

  predicate Aligned(b: Block) {
    AlignedTo(b.base, b.order)
  }

  predicate Covers(b: Block, frame: nat) {
    b.base <= frame < End(b)
  }

  predicate Disjoint(b: Block, c: Block) {
    End(b) <= c.base || End(c) <= b.base
  }

  predicate Within(b: Block, c: Block) {
    c.base <= b.base && End(b) <= End(c)
  }

  /** The source finds the buddy by flipping one bit of the address. */
  function BuddyOf(b: Block): Block {
    Block(Xor(b.base, Pow2(b.order)), b.order)
  }

  function Parent(b: Block): Block {
    var buddy := BuddyOf(b);
    Block(if buddy.base < b.base then buddy.base else b.base, b.order + 1)
  }

  function Lower(b: Block): Block
    requires b.order > 0
  {
    Block(b.base, b.order - 1)
  }

  function Upper(b: Block): Block
    requires b.order > 0
  {
    Block(b.base + Pow2(b.order - 1), b.order - 1)
  }

  /** The largest block is 4 MiB. */
  lemma LargestBlock()
    ensures 4096 * Pow2(MAX_ORDER) == 0x40_0000
  {
    assert Pow2(5) == 32;
    Pow2Add(5, 5);
  }

  /** The recursive notion of alignment is the one the source tests with a mask. */
  lemma {:induction false} AlignedIsMask(base: nat, order: nat)
    ensures AlignedTo(base, order) <==> base % Pow2(order) == 0
    ensures AlignedTo(base, order) <==> And(base, Pow2(order) - 1) == 0
  {
    AndLowMask(base, order);
    if order > 0 {
      AlignedIsMask(base / 2, order - 1);
      HalfMod(base, Pow2(order - 1));
    }
  }

  lemma {:induction false} AlignedLess(base: nat, order: nat, k: nat)
    requires AlignedTo(base, order) && k <= order
    ensures AlignedTo(base, k)
  {
    if k > 0 { AlignedLess(base / 2, order - 1, k - 1); }
  }

  /** An aligned block is the lower or the upper half of its parent, and its buddy is the other half. */
  lemma {:induction false} BuddyHalves(b: Block)
    requires Aligned(b)
    ensures Aligned(BuddyOf(b)) && BuddyOf(BuddyOf(b)) == b && BuddyOf(b) != b
    ensures Aligned(Parent(b))
    ensures AlignedTo(b.base, b.order + 1) ==> b == Lower(Parent(b)) && BuddyOf(b) == Upper(Parent(b))
    ensures !AlignedTo(b.base, b.order + 1) ==> b == Upper(Parent(b)) && BuddyOf(b) == Lower(Parent(b))
  {
    BuddyBase(b.base, b.order);
    BuddyBase(Xor(b.base, Pow2(b.order)), b.order);
    hide AlignedTo, Xor, Pow2;
  }

  lemma ParentSpans(b: Block)
    requires Aligned(b)
    ensures Within(b, Parent(b)) && Within(BuddyOf(b), Parent(b))
    ensures Disjoint(b, BuddyOf(b))
    ensures AlignedTo(b.base, b.order + 1) ==>
      && Parent(b).base == b.base && BuddyOf(b).base == End(b) && End(Parent(b)) == End(BuddyOf(b))
      && !AlignedTo(BuddyOf(b).base, b.order + 1)
  {
    BuddyHalves(b);
    BuddyBase(b.base, b.order);
  }

  lemma {:induction false} BuddyBase(base: nat, order: nat)
    requires AlignedTo(base, order)
    ensures AlignedTo(base, order + 1) ==>
      Xor(base, Pow2(order)) == base + Pow2(order)
    ensures !AlignedTo(base, order + 1) ==>
      Xor(base, Pow2(order)) == base - Pow2(order) && AlignedTo(base - Pow2(order), order + 1)
    ensures AlignedTo(Xor(base, Pow2(order)), order)
    ensures AlignedTo(base, order + 1) ==> !AlignedTo(base + Pow2(order), order + 1)
  {
    hide AlignedTo, Xor, Pow2;
    if order == 0 {
      BuddyBaseOfFrame(base);
    } else {
      var half, h := base / 2, Pow2(order - 1);
      EvenBase(base, order);
      BuddyBase(half, order - 1);
      HalfPow2(order);
      XorDouble(half, h);
      AlignedTwice(half, order + 1);
      AlignedTwice(half + h, order + 1);
      AlignedTwice(Xor(half, h), order);
      AlignedTwice(Xor(half, h), order + 1);
    }
  }

  lemma BuddyBaseOfFrame(base: nat)
    ensures Pow2(0) == 1 && AlignedTo(Xor(base, 1), 0)
    ensures AlignedTo(base, 1) ==> Xor(base, 1) == base + 1 && !AlignedTo(base + 1, 1)
    ensures !AlignedTo(base, 1) ==> base > 0 && Xor(base, 1) == base - 1 && AlignedTo(base - 1, 1)
  {
    XorOne(base);
    hide Xor, AlignedTo;
    AlignedToTwo(base);
    AlignedToTwo(base + 1);
    AlignedToTwo(Xor(base, 1));
  }

  lemma AlignedToTwo(x: nat)
    ensures Pow2(0) == 1 && AlignedTo(x, 0) && (AlignedTo(x, 1) <==> x % 2 == 0)
  {
    assert AlignedTo(x / 2, 0);
  }

  lemma EvenBase(base: nat, order: nat)
    requires AlignedTo(base, order) && order > 0
    ensures base == 2 * (base / 2) && AlignedTo(base / 2, order - 1)
  {
  }

  lemma AlignedTwice(x: nat, order: nat)
    requires order > 0
    ensures AlignedTo(2 * x, order) <==> AlignedTo(x, order - 1)
  {
  }

  lemma {:induction false} HalvesOf(b: Block)
    requires Aligned(b) && b.order > 0
    ensures Aligned(Lower(b)) && Aligned(Upper(b))
    ensures BuddyOf(Lower(b)) == Upper(b) && BuddyOf(Upper(b)) == Lower(b)
    ensures Parent(Lower(b)) == b
  {
    AlignedLess(b.base, b.order, b.order - 1);
    BuddyHalves(Lower(b));
  }

  /** Two aligned blocks are nested or disjoint. */
  lemma {:induction false} NestedOrDisjoint(b: Block, c: Block)
    requires Aligned(b) && Aligned(c) && b.order <= c.order
    ensures Disjoint(b, c) || Within(b, c)
    decreases b.order
  {
    if b.order > 0 {
      NestedOrDisjoint(Block(b.base / 2, b.order - 1), Block(c.base / 2, c.order - 1));
    }
  }

  /** A block that strictly contains one half of an aligned block contains all of it. */
  lemma {:induction false} BeyondHalf(h: Block, b: Block, big: Block)
    requires Aligned(b) && b.order > 0 && (h == Lower(b) || h == Upper(b))
    requires Aligned(big) && Within(h, big)
    ensures big == h || Within(b, big)
  {
    HalvesOf(b);
    if big.order < b.order {
      NestedOrDisjoint(big, b);
      SameSize(h, big);
    } else {
      NestedOrDisjoint(b, big);
    }
  }

  lemma SameSize(h: Block, big: Block)
    requires Within(h, big) && big.order <= h.order
    ensures big == h
  {
    Pow2Monotone(big.order, h.order);
    if big.order < h.order { Pow2Monotone(big.order + 1, h.order); }
  }
}
