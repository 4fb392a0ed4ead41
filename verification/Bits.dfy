/** Bitwise operators on unbounded naturals, and the arithmetic they amount to for
    the masks and single bits this kernel uses. A 64-bit operand is a natural below Pow2(64). */
module Bits {

  function Pow2(k: nat): (p: nat)
    ensures p > 0
  {
    if k == 0 then 1 else 2 * Pow2(k - 1)
  }

  function And(x: nat, y: nat): nat {
    if x == 0 || y == 0 then 0
    else 2 * And(x / 2, y / 2) + (if x % 2 == 1 && y % 2 == 1 then 1 else 0)
  }

  function Or(x: nat, y: nat): nat
    decreases x + y
  {
    if x == 0 && y == 0 then 0
    else 2 * Or(x / 2, y / 2) + (if x % 2 == 1 || y % 2 == 1 then 1 else 0)
  }

  function Xor(x: nat, y: nat): nat
    decreases x + y
  {
    if x == 0 && y == 0 then 0
    else 2 * Xor(x / 2, y / 2) + (if x % 2 != y % 2 then 1 else 0)
  }

  // ---- arithmetic helpers --------------------------------------------------------

  lemma MulAtLeast(d: int, p: nat)
    requires d >= 1
    ensures d * p >= p
  {
  }

  /** Division with remainder is unique. */
  lemma MulModPlus(i: nat, p: nat, j: nat)
    requires j < p
    ensures (i * p + j) % p == j && (i * p + j) / p == i
  {
    var q, r := (i * p + j) / p, (i * p + j) % p;
    assert i * p + j == q * p + r;
    assert (i - q) * p == r - j;
    assert (q - i) * p == j - r;
    if i > q { MulAtLeast(i - q, p); }
    if i < q { MulAtLeast(q - i, p); }
  }

  lemma MulMod(i: nat, p: nat)
    requires p > 0
    ensures (i * p) % p == 0 && (i * p) / p == i
  {
    MulModPlus(i, p, 0);
  }

  lemma RoundDown(x: nat, a: nat)
    requires a > 0
    ensures (x - x % a) % a == 0 && x - a < x - x % a <= x
  {
    assert x - x % a == (x / a) * a;
    MulMod(x / a, a);
  }

  lemma HalfMod(x: nat, h: nat)
    requires h > 0
    ensures x % (2 * h) == 2 * ((x / 2) % h) + x % 2
  {
    var q, r := (x / 2) / h, (x / 2) % h;
    assert x / 2 == q * h + r;
    assert q * (2 * h) == 2 * (q * h);
    MulModPlus(q, 2 * h, 2 * r + x % 2);
  }

  lemma Pow2Add(j: nat, k: nat)
    ensures Pow2(j + k) == Pow2(j) * Pow2(k)
  {
    if j > 0 {
      Pow2Add(j - 1, k);
      HalfPow2(j);
      HalfPow2(j + k);
      hide Pow2;
      TwiceProduct(Pow2(j - 1), Pow2(k));
    }
  }

  lemma HalfPow2(k: nat)
    requires k > 0
    ensures Pow2(k) == 2 * Pow2(k - 1)
  {
  }

  lemma TwiceProduct(a: nat, b: nat)
    ensures (2 * a) * b == 2 * (a * b)
  {
  }

  lemma Pow2Monotone(j: nat, k: nat)
    requires j <= k
    ensures Pow2(j) <= Pow2(k)
  {
    if j < k { Pow2Monotone(j, k - 1); }
  }

  // ---- what the kernel's bit tricks compute ---------------------------------------

  lemma AndBit(x: nat, y: nat, b: nat)
    requires b < 2
    ensures And(x, 2 * y + b) == 2 * And(x / 2, y) + (if x % 2 == 1 then b else 0)
  {
    assert (2 * y + b) / 2 == y && (2 * y + b) % 2 == b;
  }

  function Rem(x: nat, p: nat): nat
    requires p > 0
  {
    x % p
  }

  lemma HalfRem(x: nat, h: nat)
    requires h > 0
    ensures Rem(x, 2 * h) == 2 * Rem(x / 2, h) + x % 2
  {
    HalfMod(x, h);
  }

  lemma OneRem(x: nat)
    ensures And(x, 0) == 0 && Pow2(0) == 1 && Rem(x, 1) == 0
  {
  }

  lemma {:induction false} AndLowRem(x: nat, k: nat)
    ensures And(x, Pow2(k) - 1) == Rem(x, Pow2(k))
  {
    hide And, Pow2, Rem;
    OneRem(x);
    if k > 0 {
      AndLowRem(x / 2, k - 1);
      HalfPow2(k);
      HalfRem(x, Pow2(k - 1));
      AndBit(x, Pow2(k - 1) - 1, 1);
    }
  }

  lemma {:induction false} AndMidRem(x: nat, k: nat, n: nat)
    requires k <= n
    ensures Pow2(k) <= Pow2(n)
    ensures And(x, Pow2(n) - Pow2(k)) == Rem(x, Pow2(n)) - Rem(x, Pow2(k))
  {
    hide And, Pow2, Rem;
    Pow2Monotone(k, n);
    OneRem(x);
    if k == 0 {
      AndLowRem(x, n);
    } else {
      AndMidRem(x / 2, k - 1, n - 1);
      HalfPow2(k);
      HalfPow2(n);
      HalfRem(x, Pow2(k - 1));
      HalfRem(x, Pow2(n - 1));
      AndMidStep(x, Pow2(n - 1) - Pow2(k - 1), Rem(x / 2, Pow2(n - 1)), Rem(x / 2, Pow2(k - 1)));
    }
  }

  /** x & (2^k - 1) keeps the low k bits. */
  lemma AndLowMask(x: nat, k: nat)
    ensures And(x, Pow2(k) - 1) == x % Pow2(k)
  {
    hide And, Pow2;
    AndLowRem(x, k);
  }

  /** x & (2^n - 2^k) keeps bits k up to n. */
  lemma AndMidMask(x: nat, k: nat, n: nat)
    requires k <= n
    ensures Pow2(k) <= Pow2(n)
    ensures And(x, Pow2(n) - Pow2(k)) == x % Pow2(n) - x % Pow2(k)
  {
    hide And, Pow2;
    AndMidRem(x, k, n);
  }

  lemma AndMidStep(x: nat, d: nat, p: nat, r: nat)
    requires And(x / 2, d) == p - r
    ensures And(x, 2 * d) == (2 * p + x % 2) - (2 * r + x % 2)
  {
    AndBit(x, d, 0);
  }

  /** x & ~(2^k - 1), the complement taken in n bits, clears the low k bits of an n-bit x. */
  lemma AndHighMask(x: nat, k: nat, n: nat)
    requires k <= n && x < Pow2(n)
    ensures Pow2(k) <= Pow2(n)
    ensures And(x, Pow2(n) - Pow2(k)) == x - x % Pow2(k)
  {
    hide And, Pow2;
    AndMidMask(x, k, n);
    MulModPlus(0, Pow2(n), x);
  }

  /** Flipping bit k of a multiple of 2^k moves to the other half of its 2^(k+1) pair. */
  lemma {:induction false} XorOneBit(i: nat, k: nat)
    ensures Xor(i * Pow2(k), Pow2(k)) == (if i % 2 == 0 then i + 1 else i - 1) * Pow2(k)
  {
    hide Xor, Pow2;
    if k == 0 {
      XorOne(i);
    } else {
      var j := if i % 2 == 0 then i + 1 else i - 1;
      XorOneBit(i, k - 1);
      DoublePow2(i, k);
      DoublePow2(j, k);
      XorDouble(i * Pow2(k - 1), Pow2(k - 1));
    }
  }

  lemma XorOne(i: nat)
    ensures Xor(i, 1) == if i % 2 == 0 then i + 1 else i - 1
    ensures Pow2(0) == 1
  {
    XorZero(i / 2);
  }

  lemma DoublePow2(i: nat, k: nat)
    requires k > 0
    ensures Pow2(k) == 2 * Pow2(k - 1) && i * Pow2(k) == 2 * (i * Pow2(k - 1))
  {
    HalfPow2(k);
    hide Pow2;
    DoubleMul(i, Pow2(k - 1));
  }

  lemma DoubleMul(i: nat, h: nat)
    ensures i * (2 * h) == 2 * (i * h)
    ensures (i * (2 * h)) / 2 == i * h && (i * (2 * h)) % 2 == 0
  {
    assert i * (2 * h) == 2 * (i * h);
  }

  lemma XorZero(x: nat)
    ensures Xor(x, 0) == x
  {
    if x > 0 { XorZero(x / 2); }
  }

  lemma OrZero(x: nat)
    ensures Or(x, 0) == x
  {
    if x > 0 { OrZero(x / 2); }
  }

  /** Xor commutes with shifting both operands. */
  lemma {:induction false} XorScale(x: nat, y: nat, k: nat)
    ensures Xor(x * Pow2(k), y * Pow2(k)) == Xor(x, y) * Pow2(k)
  {
    hide Xor, Pow2;
    if k == 0 {
      XorOne(0);
    } else {
      XorScale(x, y, k - 1);
      DoublePow2(x, k);
      DoublePow2(y, k);
      DoublePow2(Xor(x, y), k);
      XorDouble(x * Pow2(k - 1), y * Pow2(k - 1));
    }
  }

  lemma XorDouble(x: nat, y: nat)
    ensures Xor(2 * x, 2 * y) == 2 * Xor(x, y)
  {
    assert (2 * x) / 2 == x && (2 * y) / 2 == y;
  }

  /** Below bit k, Or-ing leaves the bits from k up alone. */
  lemma {:induction false} OrLow(i: nat, k: nat, a: nat, b: nat)
    requires a < Pow2(k) && b < Pow2(k)
    ensures Or(i * Pow2(k) + a, b) == i * Pow2(k) + Or(a, b)
  {
    if k == 0 {
      OrZero(i);
    } else {
      OrLow(i, k - 1, a / 2, b / 2);
      DoubleMul(i, Pow2(k - 1));
      OrHalves(i * Pow2(k - 1), a, b);
    }
  }

  lemma OrHalves(h: nat, a: nat, b: nat)
    requires Or(h + a / 2, b / 2) == h + Or(a / 2, b / 2)
    ensures Or(2 * h + a, b) == 2 * h + Or(a, b)
  {
    assert (2 * h + a) / 2 == h + a / 2 && (2 * h + a) % 2 == a % 2;
    OrBit(2 * h + a, b);
    OrBit(a, b);
  }

  lemma OrBit(x: nat, y: nat)
    ensures Or(x, y) == 2 * Or(x / 2, y / 2) + (if x % 2 == 1 || y % 2 == 1 then 1 else 0)
  {
  }

  function Shr(x: nat, k: nat): nat {
    if k == 0 then x else Shr(x / 2, k - 1)
  }

  lemma {:induction false} ShrAdd(x: nat, j: nat, k: nat)
    ensures Shr(x, j + k) == Shr(Shr(x, j), k)
  {
    if j > 0 { ShrAdd(x / 2, j - 1, k); }
  }
}
