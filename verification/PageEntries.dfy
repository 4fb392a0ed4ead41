/** x86_64 page-table entries and the parts of a virtual address, by the masks and shifts that take them apart. */
module PageEntries {
  import opened Bits
  import opened PhysicalMemory

  const PTE_PRESENT: nat := 1
  const PTE_WRITE: nat := 2
  const PTE_USER: nat := 4
  /** In an entry of a directory: the entry maps a large page itself instead of leading to a table. */
  const PTE_LARGE: nat := 128
  const PTE_ADDR_MASK: nat := 0x000f_ffff_ffff_f000

  const VM_WRITE: nat := 1
  const VM_USER: nat := 2

  /** Frames an entry can name: 52-bit physical addresses. */
  const FRAME_LIMIT: nat := 0x100_0000_0000

  function EntryAddr(e: nat): nat {
    And(e, PTE_ADDR_MASK)
  }

  predicate Has(e: nat, bit: nat) {
    And(e, bit) != 0
  }

  /** The entry for a frame with the given rights. */
  function Pte(frame: nat, write: bool, user: bool): nat {
    Addr(frame) + 1 + (if write then 2 else 0) + (if user then 4 else 0)
  }

  lemma MaskIsBits()
    ensures PTE_ADDR_MASK == Pow2(52) - Pow2(12) && Pow2(12) == 4096 && Pow2(52) == 4096 * FRAME_LIMIT
    ensures Pow2(0) == 1 && Pow2(1) == 2 && Pow2(2) == 4 && Pow2(3) == 8
  {
    assert Pow2(12) == 4096 && Pow2(20) == 0x10_0000;
    Pow2Add(20, 20);
    Pow2Add(12, 40);
  }

  /** Masking an entry keeps bits 51 to 12. */
  lemma {:induction false} AddrMasked(e: nat)
    ensures EntryAddr(e) == e % (4096 * FRAME_LIMIT) - e % 4096 == e % 0x10_0000_0000_0000 - e % 4096
  {
    MaskIsBits();
    hide And, Pow2;
    AndMidMask(e, 12, 52);
  }

  lemma {:induction false} EntryFields(frame: nat, write: bool, user: bool)
    requires frame < FRAME_LIMIT
    ensures var e := Pte(frame, write, user);
      && EntryAddr(e) == Addr(frame)
      && Has(e, PTE_PRESENT)
      && (Has(e, PTE_WRITE) <==> write)
      && (Has(e, PTE_USER) <==> user)
      && !Has(e, PTE_LARGE)
  {
    var e := Pte(frame, write, user);
    MaskIsBits();
    assert Pow2(7) == 128 && Pow2(8) == 256;
    hide And, Pow2;
    AndLowMask(e, 1);
    AndMidMask(e, 1, 2);
    AndMidMask(e, 2, 3);
    AndMidMask(e, 7, 8);
    AddrMasked(e);
    FlagBits(frame, write, user);
  }

  /** Beside its frame and the three flags an entry has no bit set, neither a low nor a high one. */
  lemma NoOtherBits(frame: nat, write: bool, user: bool)
    requires frame < FRAME_LIMIT
    ensures Pte(frame, write, user) % 4096 < 8 && Pte(frame, write, user) < 0x10_0000_0000_0000
  {
    LowBits(frame, 1 + (if write then 2 else 0) + (if user then 4 else 0));
  }

  lemma FlagBits(frame: nat, write: bool, user: bool)
    requires frame < FRAME_LIMIT
    ensures var e := Pte(frame, write, user);
      && e % 2 == 1
      && e % 4 - e % 2 == (if write then 2 else 0)
      && e % 8 - e % 4 == (if user then 4 else 0)
      && e % 256 == e % 128
      && e % (4096 * FRAME_LIMIT) - e % 4096 == Addr(frame)
  {
    var c := 1 + (if write then 2 else 0) + (if user then 4 else 0);
    LowBits(frame, c);
  }

  lemma LowBits(frame: nat, c: nat)
    requires frame < FRAME_LIMIT && c < 8
    ensures var e := Addr(frame) + c;
      && e % 2 == c % 2 && e % 4 == c % 4 && e % 8 == c && e % 128 == c && e % 256 == c
      && e % 4096 == c && e % (4096 * FRAME_LIMIT) == e
  {
    MulModPlus(512 * frame, 8, c);
    MulModPlus(32 * frame, 128, c);
    MulModPlus(16 * frame, 256, c);
    MulModPlus(frame, 4096, c);
    MulModPlus(0, 4096 * FRAME_LIMIT, Addr(frame) + c);
    MulModPlus(1024 * frame + c / 4, 4, c % 4);
    MulModPlus(2048 * frame + c / 2, 2, c % 2);
  }

  lemma ZeroIsAbsent()
    ensures !Has(0, PTE_PRESENT)
  {
  }

  /** The entry next_level stores for a fresh table. */
  lemma {:induction false} TableEntryBuilt(frame: nat, user: bool)
    requires frame < FRAME_LIMIT
    ensures Or(Or(Or(And(Addr(frame), PTE_ADDR_MASK), PTE_PRESENT), PTE_WRITE), if user then PTE_USER else 0)
              == Pte(frame, true, user)
  {
    MaskedFrame(frame);
    OrFlag(frame, 0, 1);
    OrFlag(frame, 1, 2);
    OrFlag(frame, 3, 4);
    OrFlag(frame, 3, 0);
  }

  /** The entry paging_map stores for a page. */
  lemma {:induction false} LeafEntryBuilt(frame: nat, write: bool, user: bool)
    requires frame < FRAME_LIMIT
    ensures var e0 := Or(And(Addr(frame), PTE_ADDR_MASK), PTE_PRESENT);
      var e1 := if write then Or(e0, PTE_WRITE) else e0;
      (if user then Or(e1, PTE_USER) else e1) == Pte(frame, write, user)
  {
    MaskedFrame(frame);
    OrFlag(frame, 0, 1);
    OrFlag(frame, 1, 2);
    OrFlag(frame, 1, 4);
    OrFlag(frame, 3, 4);
  }

  lemma MaskedFrame(frame: nat)
    requires frame < FRAME_LIMIT
    ensures And(Addr(frame), PTE_ADDR_MASK) == Addr(frame)
  {
    hide And, Pow2, Addr;
    AddrMasked(Addr(frame));
    LowBits(frame, 0);
  }

  lemma OrFlag(frame: nat, have: nat, flag: nat)
    requires have < 8 && flag < 8
    ensures Or(Addr(frame) + have, flag) == Addr(frame) + Or(have, flag)
    ensures Or(0, 1) == 1 && Or(1, 2) == 3 && Or(1, 4) == 5 && Or(3, 4) == 7 && Or(3, 0) == 3
  {
    MaskIsBits();
    SmallOrs();
    hide Or, Pow2;
    OrLow(frame, 12, have, flag);
  }

  lemma SmallOrs()
    ensures Or(0, 1) == 1 && Or(1, 2) == 3 && Or(1, 4) == 5 && Or(3, 4) == 7 && Or(3, 0) == 3
  {
    assert Or(1, 2) == 2 * Or(0, 1) + 1;
    assert Or(3, 0) == 2 * Or(1, 0) + 1;
    assert Or(1, 4) == 2 * Or(0, 2) + 1;
    assert Or(0, 2) == 2 * Or(0, 1);
    assert Or(3, 4) == 2 * Or(1, 2) + 1;
  }

  // ---- virtual addresses -----------------------------------------------------------------------

  function Pml4Index(v: nat): nat { And(Shr(v, 39), 0x1ff) }
  function PdptIndex(v: nat): nat { And(Shr(v, 30), 0x1ff) }
  function PdIndex(v: nat): nat { And(Shr(v, 21), 0x1ff) }
  function PtIndex(v: nat): nat { And(Shr(v, 12), 0x1ff) }

  /** The virtual page of an address: bits 47 to 12. */
  function PageOf(v: nat): nat {
    (v / 4096) % 0x10_0000_0000
  }

  lemma ShiftThree(x: nat)
    ensures Shr(x, 3) == x / 8
  {
    assert Shr(x, 3) == Shr(x / 2, 2);
    assert Shr(x / 2, 2) == Shr(x / 2 / 2, 1);
    assert Shr(x / 2 / 2, 1) == Shr(x / 2 / 2 / 2, 0);
  }

  lemma ShiftNine(x: nat)
    ensures Shr(x, 9) == x / 512
  {
    hide Shr;
    ShrAdd(x, 3, 6);
    ShrAdd(x / 8, 3, 3);
    ShiftThree(x);
    ShiftThree(x / 8);
    ShiftThree(x / 8 / 8);
  }

  lemma {:induction false} ShiftSteps(v: nat)
    ensures Shr(v, 12) == v / 4096
    ensures Shr(v, 21) == v / 4096 / 512
    ensures Shr(v, 30) == v / 4096 / 512 / 512
    ensures Shr(v, 39) == v / 4096 / 512 / 512 / 512
  {
    hide Shr;
    ShrAdd(v, 9, 3);
    ShiftNine(v);
    ShiftThree(v / 512);
    ShrAdd(v, 12, 9);
    ShiftNine(v / 4096);
    ShrAdd(v, 21, 9);
    ShiftNine(v / 4096 / 512);
    ShrAdd(v, 30, 9);
    ShiftNine(v / 4096 / 512 / 512);
  }

  /** The four indices are the base-512 digits of the page number, and bits 63 to 48 play no part. */
  lemma {:induction false} IndicesArePage(v: nat)
    ensures Pml4Index(v) < 512 && PdptIndex(v) < 512 && PdIndex(v) < 512 && PtIndex(v) < 512
    ensures PageOf(v) == ((Pml4Index(v) * 512 + PdptIndex(v)) * 512 + PdIndex(v)) * 512 + PtIndex(v)
  {
    ShiftSteps(v);
    assert Pow2(9) == 512;
    hide And, Pow2, Shr;
    AndLowMask(Shr(v, 12), 9);
    AndLowMask(Shr(v, 21), 9);
    AndLowMask(Shr(v, 30), 9);
    AndLowMask(Shr(v, 39), 9);
    Digits(v / 4096);
  }

  lemma Digits(q: nat)
    ensures q % 0x10_0000_0000 ==
      (((q / 512 / 512 / 512 % 512) * 512 + q / 512 / 512 % 512) * 512 + q / 512 % 512) * 512 + q % 512
  {
    var q1 := q / 512;
    var q2 := q1 / 512;
    var q3 := q2 / 512;
    var q4 := q3 / 512;
    assert q == q4 * 0x10_0000_0000 + (((q3 % 512) * 512 + q2 % 512) * 512 + q1 % 512) * 512 + q % 512;
    MulModPlus(q4, 0x10_0000_0000, (((q3 % 512) * 512 + q2 % 512) * 512 + q1 % 512) * 512 + q % 512);
  }
}
