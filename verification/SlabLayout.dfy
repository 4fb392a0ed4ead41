/** Layout of slab pages: size classes, slot offsets, and recovering a page from a pointer into it. */
module SlabLayout {
  import opened Bits
  import opened PhysicalMemory

  const NUM_CLASSES: nat := 8
  const CLASS_SIZES: seq<nat> := [16, 32, 64, 128, 256, 512, 1024, 2048]

  const SLAB_MAGIC: nat := 0x51AB_51AB_51AB_51AB
  const LARGE_MAGIC: nat := 0x1A86_A110_C1A8_6A11

  /** sizeof(struct slab) is 40, sizeof(struct large_hdr) is 16; both are rounded up to 16. */
  function AlignUp(v: nat, a: nat): nat
    requires 0 < a <= Pow2(64)
  {
    And(v + (a - 1), Pow2(64) - a)
  }

  const SLAB_DATA: nat := 48
  const LARGE_DATA: nat := 16

  lemma {:induction false} AlignUpLeast(v: nat, k: nat)
    requires k < 64 && v + Pow2(k) <= Pow2(64)
    ensures Pow2(k) <= Pow2(64)
    ensures var r := AlignUp(v, Pow2(k));
      && r % Pow2(k) == 0 && v <= r < v + Pow2(k)
  {
    hide Pow2, And;
    var a := Pow2(k);
    Pow2Monotone(k, 64);
    AndHighMask(v + (a - 1), k, 64);
    RoundDown(v + (a - 1), a);
  }

  lemma SmallPowers()
    ensures Pow2(4) == 16 && Pow2(6) == 64
  {
  }

  lemma DataOffsets()
    ensures Pow2(4) == 16 && 16 <= Pow2(64)
    ensures AlignUp(40, 16) == SLAB_DATA && AlignUp(16, 16) == LARGE_DATA
  {
    SmallPowers();
    hide Pow2, AlignUp;
    Pow2Monotone(6, 64);
    AlignUpLeast(40, 4);
    AlignUpLeast(16, 4);
  }

  function ClassSize(c: nat): (s: nat)
    requires c < NUM_CLASSES
    ensures 16 <= s <= 2048 && s % 16 == 0
  {
    CLASS_SIZES[c]
  }

  /** Slots a page of class c is carved into. */
  function Slots(c: nat): (n: nat)
    requires c < NUM_CLASSES
    ensures 1 <= n <= 253
  {
    (4096 - SLAB_DATA) / ClassSize(c)
  }

  /** Another slot would not fit. */
  lemma SlotsMost(c: nat)
    requires c < NUM_CLASSES
    ensures SLAB_DATA + (Slots(c) + 1) * ClassSize(c) > 4096
  {
  }

  /** Byte offset of slot i in its page. */
  function SlotOff(c: nat, i: nat): nat
    requires c < NUM_CLASSES
  {
    SLAB_DATA + i * ClassSize(c)
  }

  lemma {:induction false} SlotInPage(c: nat, i: nat)
    requires c < NUM_CLASSES && i < Slots(c)
    ensures SLAB_DATA <= SlotOff(c, i) && SlotOff(c, i) + ClassSize(c) <= 4096
    ensures SlotOff(c, i) % 16 == 0
  {
    var s := ClassSize(c);
    assert (i + 1) * s <= Slots(c) * s <= 4096 - SLAB_DATA by {
      ScaleLess(i + 1, Slots(c), s);
    }
    assert (i + 1) * s == i * s + s;
    SixteenTimes(i, s);
  }

  lemma ScaleLess(i: nat, j: nat, s: nat)
    requires i <= j
    ensures i * s <= j * s
  {
  }

  lemma SixteenTimes(i: nat, s: nat)
    requires s % 16 == 0
    ensures (i * s) % 16 == 0
  {
    assert i * s == (i * (s / 16)) * 16;
    MulMod(i * (s / 16), 16);
  }

  lemma {:induction false} SlotsApart(c: nat, i: nat, j: nat)
    requires c < NUM_CLASSES && i < j
    ensures SlotOff(c, i) + ClassSize(c) <= SlotOff(c, j)
  {
    ScaleLess(i + 1, j, ClassSize(c));
    assert (i + 1) * ClassSize(c) == i * ClassSize(c) + ClassSize(c);
  }

  /** Smallest class that holds `size` bytes, or NUM_CLASSES. */
  function ClassFor(size: nat, c: nat): (r: nat)
    requires c <= NUM_CLASSES
    ensures c <= r <= NUM_CLASSES
    ensures r < NUM_CLASSES ==> size <= ClassSize(r)
    ensures forall k :: c <= k < r ==> size > ClassSize(k)
    decreases NUM_CLASSES - c
  {
    if c == NUM_CLASSES || size <= ClassSize(c) then c else ClassFor(size, c + 1)
  }

  /** The slot a request gets is the least power of two, from 16 on, that holds it. */
  lemma {:induction false} ClassFits(size: nat) returns (k: nat)
    requires 0 < size <= 2048
    ensures ClassFor(size, 0) < NUM_CLASSES && ClassSize(ClassFor(size, 0)) == Pow2(k)
    ensures size <= Pow2(k) && k >= 4 && (k > 4 ==> Pow2(k - 1) < size)
  {
    if size > ClassSize(6) { assert size <= ClassSize(7); }
    var c := ClassFor(size, 0);
    k := c + 4;
    ClassPowers();
    if c > 0 { assert size > ClassSize(c - 1); }
  }

  lemma ClassPowers()
    ensures forall c :: 0 <= c < NUM_CLASSES ==> ClassSize(c) == Pow2(c + 4)
  {
    assert Pow2(4) == 16 && Pow2(5) == 32 && Pow2(6) == 64 && Pow2(7) == 128;
    assert Pow2(8) == 256 && Pow2(9) == 512 && Pow2(10) == 1024 && Pow2(11) == 2048;
  }

  /** Each class is twice the one before. */
  lemma ClassDoubles(c: nat)
    requires 0 < c < NUM_CLASSES
    ensures ClassSize(c) == 2 * ClassSize(c - 1)
  {
  }

  lemma {:induction false} ClassesAscend(c: nat, d: nat)
    requires c <= d < NUM_CLASSES
    ensures ClassSize(c) <= ClassSize(d)
  {
    if c < d {
      ClassesAscend(c, d - 1);
      ClassDoubles(d);
    }
  }

  /** No class that holds the request is smaller, and less than half of the slot is left over. */
  lemma {:induction false} ClassIsLeast(size: nat, c: nat)
    requires 0 < size <= 2048 && c < NUM_CLASSES && size <= ClassSize(c)
    ensures ClassFor(size, 0) < NUM_CLASSES && ClassSize(ClassFor(size, 0)) <= ClassSize(c)
    ensures size > 16 ==> ClassSize(ClassFor(size, 0)) < 2 * size
  {
    var r := ClassFor(size, 0);
    assert r <= c && (r == 0 ==> ClassSize(r) == 16);
    hide ClassFor, ClassSize;
    ClassesAscend(r, c);
    if r > 0 { ClassDoubles(r); }
  }

  /** The page base of a pointer: what masking off the low twelve bits yields. */
  lemma {:induction false} PageBase(hhdm: nat, frame: nat, off: nat)
    requires hhdm % 4096 == 0 && off < 4096 && hhdm + Addr(frame) + off < Pow2(64)
    ensures 4096 <= Pow2(64)
    ensures And(hhdm + Addr(frame) + off, Pow2(64) - 4096) == hhdm + Addr(frame)
  {
    PageIsPow2();
    hide Pow2, And;
    var p := hhdm + Addr(frame) + off;
    AndHighMask(p, 12, 64);
    assert p % 4096 == off;
  }

  lemma PageIsPow2()
    ensures Pow2(12) == 4096 && Pow2(4) == 16
  {
  }

  // ---- two 32-bit fields in one word ---------------------------------------------------

  function Low32(x: int): nat {
    x % 0x1_0000_0000
  }

  function High32(x: int): int {
    x / 0x1_0000_0000
  }

  function Pack(lo: nat, hi: int): int {
    hi * 0x1_0000_0000 + lo
  }

  // ---- large blocks ----------------------------------------------------------------------

  /** 4096 << o in a 64-bit register. */
  function ShiftedPage(o: nat): nat {
    (4096 * Pow2(o)) % Pow2(64)
  }

  /** Bytes of a block of order o. */
  function PageBytes(o: nat): nat {
    4096 * Pow2(o)
  }

  /** Order the loop of order_for_bytes stops at, for a request it terminates on. */
  function OrderFor(bytes: nat, o: nat): (r: nat)
    requires bytes <= Pow2(63) && o <= 51
    ensures o <= r <= 51 && bytes <= PageBytes(r)
    ensures forall k :: o <= k < r ==> PageBytes(k) < bytes
    decreases 51 - o
  {
    hide Pow2, PageBytes;
    LastOrder(bytes, o);
    if PageBytes(o) < bytes then OrderFor(bytes, o + 1) else o
  }

  lemma LastOrder(bytes: nat, o: nat)
    requires bytes <= Pow2(63) && o <= 51
    ensures PageBytes(o) < bytes ==> o < 51
  {
    PageIsPow2();
    hide Pow2;
    Pow2Add(12, 51);
  }

  lemma ShiftFits(o: nat)
    requires o <= 51
    ensures ShiftedPage(o) == 4096 * Pow2(o)
  {
    hide Pow2;
    PageIsPow2();
    Pow2Add(12, o);
    Pow2Monotone(12 + o, 63);
    HalfPow2(64);
    MulModPlus(0, Pow2(64), 4096 * Pow2(o));
  }

  lemma ShiftVanishes(o: nat)
    requires o >= 52
    ensures ShiftedPage(o) == 0
  {
    assert Pow2(12) == 4096;
    Pow2Add(12, o);
    Pow2Add(o - 52, 64);
    MulMod(Pow2(o - 52), Pow2(64));
  }

  /** order_for_bytes reaches its exit exactly for byte counts up to 2^63: beyond, the shifted page
      size wraps to 0 before it ever gets large enough. */
  lemma {:induction false} OrderTerminatesIff(bytes: nat)
    requires bytes < Pow2(64)
    ensures (exists o: nat :: ShiftedPage(o) >= bytes) <==> bytes <= Pow2(63)
  {
    PageIsPow2();
    hide Pow2;
    if bytes <= Pow2(63) {
      var o := OrderFor(bytes, 0);
      ShiftFits(o);
    } else {
      forall o: nat ensures ShiftedPage(o) < bytes {
        if o <= 51 {
          ShiftFits(o);
          Pow2Add(12, o);
          Pow2Monotone(12 + o, 63);
        } else {
          ShiftVanishes(o);
        }
      }
    }
  }

  /** A large request adds its header's 16 bytes in a 64-bit register. */
  predicate Wraps(size: nat) {
    LARGE_DATA + size >= Pow2(64)
  }

  predicate Terminates(size: nat) {
    size < Pow2(64) && (LARGE_DATA + size) % Pow2(64) <= Pow2(63)
  }

  /** Order of the block a large request gets. */
  function LargeOrder(size: nat): nat
    requires Terminates(size)
  {
    OrderFor((LARGE_DATA + size) % Pow2(64), 0)
  }

  lemma LargeOrderIs(size: nat)
    requires Terminates(size)
    ensures Pow2(64) > 0 && (LARGE_DATA + size) % Pow2(64) <= Pow2(63)
    ensures LargeOrder(size) == OrderFor((LARGE_DATA + size) % Pow2(64), 0)
  {
  }

  /** The sizes a request can have without the order loop running forever: up to 2^63 - 16, and the last
      16, whose sum wraps to almost nothing. */
  lemma {:induction false} TerminatesIff(size: nat)
    requires size < Pow2(64)
    ensures Terminates(size) <==> LARGE_DATA + size <= Pow2(63) || Wraps(size)
  {
    assert Pow2(64) == 2 * Pow2(63);
    hide Pow2;
    Sixteen();
    SumMod(size);
  }

  lemma Sixteen()
    ensures Pow2(63) >= 16
  {
    Pow2Monotone(4, 63);
  }

  /** The block a large request gets is large enough exactly when the sum does not wrap. A request for
      one of the last 16 sizes gets a single page. */
  lemma {:induction false} LargeFitsIff(size: nat)
    requires Terminates(size)
    ensures size <= 4096 * Pow2(LargeOrder(size)) - LARGE_DATA <==> !Wraps(size)
    ensures Wraps(size) ==> LargeOrder(size) == 0
  {
    OnePage();
    SumMod(size);
    hide Pow2;
  }

  /** And no smaller block would do. */
  lemma {:induction false} LargeIsLeast(size: nat, o: nat)
    requires Terminates(size) && !Wraps(size)
    ensures LARGE_DATA + size <= 4096 * Pow2(o) <==> LargeOrder(size) <= o
  {
    SumIs(size);
    var r := OrderFor(LARGE_DATA + size, 0);
    if o < r {
      assert PageBytes(o) < LARGE_DATA + size;
    } else {
      Pow2Monotone(r, o);
      assert LARGE_DATA + size <= PageBytes(r);
    }
  }

  lemma SumIs(size: nat)
    requires Terminates(size) && !Wraps(size)
    ensures LARGE_DATA + size <= Pow2(63) && LargeOrder(size) == OrderFor(LARGE_DATA + size, 0)
  {
    OnePage();
    SumMod(size);
  }

  lemma OnePage()
    ensures Pow2(0) == 1 && Pow2(64) > 8192
  {
    assert Pow2(14) == 16384;
    Pow2Monotone(14, 64);
  }

  lemma SumMod(size: nat)
    requires size < Pow2(64) && Pow2(64) > LARGE_DATA
    ensures (LARGE_DATA + size) % Pow2(64) == if Wraps(size) then LARGE_DATA + size - Pow2(64) else LARGE_DATA + size
  {
    hide Pow2;
    if Wraps(size) {
      MulModPlus(1, Pow2(64), LARGE_DATA + size - Pow2(64));
    } else {
      MulModPlus(0, Pow2(64), LARGE_DATA + size);
    }
  }

  /** The greatest size there is: kmalloc(2^64 - 1) is given a single page. */
  lemma LastSizeWraps()
    ensures var size := Pow2(64) - 1;
      Terminates(size) && Wraps(size) && LargeOrder(size) == 0 && size > 4096 * Pow2(0) - LARGE_DATA
  {
    var size := Pow2(64) - 1;
    Sixteen();
    assert Pow2(64) == 2 * Pow2(63);
    hide Pow2;
    TerminatesIff(size);
    LargeFitsIff(size);
  }

  lemma SmallSizes(size: nat)
    requires size <= 2048
    ensures Terminates(size) && !Wraps(size)
  {
    Pow2Monotone(12, 63);
    PageIsPow2();
    assert Pow2(64) == 2 * Pow2(63);
    hide Pow2;
    MulModPlus(0, Pow2(64), LARGE_DATA + size);
  }
}
