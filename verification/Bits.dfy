/**
  Bit operations on the natural numbers, the masks of address prefixes, and JavaScript's
  signed 32-bit operators on numbers.
 */
module Bits {
  function Pow2(n: nat): (p: nat)
    ensures p > 0
  {
    if n == 0 then 1 else 2 * Pow2(n - 1)
  }

  function ShiftLeft(x: int, n: nat): int { if n == 0 then x else 2 * ShiftLeft(x, n - 1) }

  function ShiftRight(x: nat, n: nat): nat { if n == 0 then x else ShiftRight(x / 2, n - 1) }

  function BitAnd(x: nat, y: nat): nat {
    if x == 0 || y == 0 then 0 else 2 * BitAnd(x / 2, y / 2) + (if x % 2 == 1 && y % 2 == 1 then 1 else 0)
  }

  // ---- Powers and division ----

  lemma Pow2Four(k: nat)
    ensures Pow2(k + 4) == 16 * Pow2(k)
  {
    assert Pow2(k + 4) == 2 * Pow2(k + 3);
    assert Pow2(k + 3) == 2 * Pow2(k + 2);
    assert Pow2(k + 2) == 2 * Pow2(k + 1);
  }

  lemma {:induction false} Pow2Adds(m: nat, n: nat)
    ensures Pow2(m + n) == Pow2(m) * Pow2(n)
  {
    if m > 0 { Pow2Adds(m - 1, n); }
  }

  lemma {:induction false} Pow2Grows(m: nat, n: nat)
    requires m <= n
    ensures Pow2(m) <= Pow2(n)
    decreases n
  {
    if m < n { Pow2Grows(m, n - 1); }
  }

  const TWO32: int := 0x1_0000_0000

  lemma Pow32()
    ensures Pow2(8) == 0x100 && Pow2(16) == 0x1_0000 && Pow2(24) == 0x100_0000 && Pow2(32) == TWO32
  {
    assert Pow2(8) == 0x100;
    Pow2Adds(8, 8);
    Pow2Adds(16, 8);
    Pow2Adds(16, 16);
  }

  lemma MulMonotone(x: int, y: int, d: nat)
    requires x <= y
    ensures x * d <= y * d
  {
    assert (y - x) * d >= 0;
  }

  lemma DivModUnique(x: int, d: int, q: int, r: int)
    requires d > 0 && x == q * d + r && 0 <= r < d
    ensures x / d == q && x % d == r
  {
    var q', r' := x / d, x % d;
    assert x == q' * d + r';
    if q < q' {
      MulMonotone(q + 1, q', d);
    } else if q > q' {
      MulMonotone(q' + 1, q, d);
    }
  }

  lemma HalvedMod(x: nat, p: nat, m: nat)
    requires p > 0 && m == 2 * p
    ensures x % m == 2 * ((x / 2) % p) + x % 2
    ensures x / m == (x / 2) / p
  {
    var q, r := (x / 2) / p, (x / 2) % p;
    DivModUnique(x, m, q, 2 * r + x % 2);
  }

  lemma {:induction false} ShiftRightDivides(x: nat, n: nat)
    ensures ShiftRight(x, n) == x / Pow2(n)
  {
    if n > 0 {
      ShiftRightDivides(x / 2, n - 1);
      HalvedMod(x, Pow2(n - 1), Pow2(n));
    }
  }

  lemma {:induction false} ShiftLeftMultiplies(x: int, n: nat)
    ensures ShiftLeft(x, n) == x * Pow2(n)
  {
    if n > 0 { ShiftLeftMultiplies(x, n - 1); }
  }

  lemma {:induction false} ShiftRightAgain(x: nat, m: nat, n: nat)
    ensures ShiftRight(ShiftRight(x, m), n) == ShiftRight(x, m + n)
  {
    if m > 0 { ShiftRightAgain(x / 2, m - 1, n); }
  }

  lemma {:induction false} ShiftRightSmaller(x: nat, n: nat)
    ensures ShiftRight(x, n) <= x
  {
    if n > 0 { ShiftRightSmaller(x / 2, n - 1); }
  }

  lemma {:induction false} ShiftedOut(x: nat, n: nat)
    requires x < Pow2(n)
    ensures ShiftRight(x, n) == 0
  {
    if n > 0 { ShiftedOut(x / 2, n - 1); }
  }

  // ---- Masks ----

  lemma OnesStep(x: nat, p: nat)
    requires p > 0
    ensures BitAnd(x, 2 * p - 1) == 2 * BitAnd(x / 2, p - 1) + x % 2
  {
    assert (2 * p - 1) / 2 == p - 1 && (2 * p - 1) % 2 == 1;
  }

  lemma RemainderStep(x: nat, p: nat, r: nat)
    requires p > 0 && r == (x / 2) % p && BitAnd(x / 2, p - 1) == r
    ensures BitAnd(x, 2 * p - 1) == x % (2 * p)
  {
    HalvedMod(x, p, 2 * p);
    OnesStep(x, p);
  }

  /** Masking with k ones takes the remainder modulo 2^k. */
  lemma {:induction false} LowMask(x: nat, k: nat)
    ensures BitAnd(x, Pow2(k) - 1) == x % Pow2(k)
  {
    if k > 0 {
      LowMask(x / 2, k - 1);
      RemainderStep(x, Pow2(k - 1), (x / 2) % Pow2(k - 1));
    }
  }

  lemma AllOnes(x: nat, k: nat)
    requires x < Pow2(k)
    ensures BitAnd(x, Pow2(k) - 1) == x
  {
    LowMask(x, k);
    DivModUnique(x, Pow2(k), 0, x);
  }

  /** k ones followed by z zeros: `((1 << k) - 1) << z`. */
  function Ones(k: nat, z: nat): (m: nat)
  {
    if z == 0 then Pow2(k) - 1 else 2 * Ones(k, z - 1)
  }

  lemma {:induction false} OnesAre(k: nat, z: nat)
    ensures Ones(k, z) == Pow2(k + z) - Pow2(z) == ShiftLeft(Pow2(k) - 1, z)
  {
    if z > 0 { OnesAre(k, z - 1); }
  }

  /** Masking a number of k + z bits with k ones and z zeros clears its low z bits. */
  lemma {:induction false} HighMask(x: nat, k: nat, z: nat)
    requires x < Pow2(k + z)
    ensures BitAnd(x, Ones(k, z)) == ShiftLeft(ShiftRight(x, z), z)
  {
    if z == 0 {
      AllOnes(x, k);
    } else {
      HighMask(x / 2, k, z - 1);
    }
  }

  lemma {:induction false} ShiftLeftInjective(x: int, y: int, n: nat)
    ensures ShiftLeft(x, n) == ShiftLeft(y, n) <==> x == y
  {
    if n > 0 { ShiftLeftInjective(x, y, n - 1); }
  }

  /** Two numbers of k + z bits agree under the mask exactly when their top k bits agree. */
  lemma MaskedEqual(x: nat, y: nat, k: nat, z: nat)
    requires x < Pow2(k + z) && y < Pow2(k + z)
    ensures BitAnd(x, Ones(k, z)) == BitAnd(y, Ones(k, z)) <==> ShiftRight(x, z) == ShiftRight(y, z)
  {
    HighMask(x, k, z);
    HighMask(y, k, z);
    ShiftLeftInjective(ShiftRight(x, z), ShiftRight(y, z), z);
  }

  // ---- JavaScript numbers ----

  function ToUint32(x: int): (r: nat)
    ensures r < TWO32
  {
    x % TWO32
  }

  function ToInt32(x: int): int {
    var u := ToUint32(x);
    if u < 0x8000_0000 then u else u - TWO32
  }

  /** x << n: the shift count is taken modulo 32 and the result is signed. */
  function Shl(x: int, n: nat): int { ToInt32(ShiftLeft(ToInt32(x), n % 32)) }

  /** x >>> n */
  function Shr(x: int, n: nat): nat { ShiftRight(ToUint32(x), n % 32) }

  /** x & y: signed. */
  function And(x: int, y: int): int { ToInt32(BitAnd(ToUint32(x), ToUint32(y))) }

  lemma BitAndIsSmall(x: nat, y: nat)
    ensures BitAnd(x, y) <= x
  {
  }

  lemma SignedIsInjective(a: nat, b: nat)
    requires a < TWO32 && b < TWO32
    ensures ToInt32(a) == ToInt32(b) <==> a == b
  {
  }

  lemma AndOfSmall(x: nat, y: nat, r: nat)
    requires x < TWO32 && y < TWO32 && r == BitAnd(x, y)
    ensures And(x, y) == ToInt32(r)
  {
    SmallIsUnsigned(x);
    SmallIsUnsigned(y);
  }

  lemma SmallIsUnsigned(x: nat)
    requires x < TWO32
    ensures ToUint32(x) == x
  {
  }

  /** Signed conjunctions are equal exactly when the unsigned ones are. */
  lemma AndAgrees(x: nat, y: nat, mask: nat)
    requires x < TWO32 && y < TWO32 && mask < TWO32
    ensures And(x, mask) == And(y, mask) <==> BitAnd(x, mask) == BitAnd(y, mask)
  {
    var a, b := BitAnd(x, mask), BitAnd(y, mask);
    AndOfSmall(x, mask, a);
    AndOfSmall(y, mask, b);
    BitAndIsSmall(x, mask);
    BitAndIsSmall(y, mask);
    SignedIsInjective(a, b);
  }

  /** Masking with 2^k - 1 takes the remainder modulo m = 2^k. */
  lemma AndLow(x: nat, k: nat, m: nat)
    requires x < TWO32 && k < 32 && m == Pow2(k)
    ensures And(x, m - 1) == x % m
  {
    Pow32();
    Pow2Grows(k + 1, 32);
    LowMask(x, k);
    var r := BitAnd(x, m - 1);
    AndOfSmall(x, m - 1, r);
    RemainderIsSmall(x, m, r);
  }

  lemma RemainderIsSmall(x: nat, m: nat, r: nat)
    requires 0 < m <= 0x8000_0000 && r == x % m
    ensures ToInt32(r) == r
  {
  }

  lemma ShrIs(x: nat, n: nat)
    requires x < TWO32 && n < 32
    ensures Shr(x, n) == ShiftRight(x, n) && Shr(x, n) < TWO32
  {
    assert n % 32 == n && ToUint32(x) == x;
    ShiftRightSmaller(x, n);
  }

  /** Appending an octet with `(r << 8) + octet` is multiplication by 256 modulo 2^32. */
  lemma AppendOctet(r: int, octet: nat)
    ensures ToUint32(Shl(r, 8) + octet) == ToUint32(ToUint32(r) * 256 + octet)
  {
    assert 8 % 32 == 8;
    Pow32();
    ShiftLeftMultiplies(ToInt32(r), 8);
  }

  lemma MinusPower(m: int)
    requires 0 < m <= 0x8000_0000
    ensures ToUint32(ToInt32(-1 * m)) == TWO32 - m
  {
  }

  /** `(0xffffffff << (32 - p)) >>> 0` is p ones followed by 32 - p zeros. */
  lemma PrefixMask32(p: nat)
    requires 1 <= p <= 32
    ensures Shr(Shl(0xffff_ffff, 32 - p), 0) == Ones(p, 32 - p) < TWO32
  {
    var z := 32 - p;
    assert z % 32 == z && ToInt32(0xffff_ffff) == -1;
    ShiftLeftMultiplies(-1, z);
    Pow32();
    Pow2Grows(z + 1, 32);
    MinusPower(Pow2(z));
    OnesAre(p, z);
  }
}
