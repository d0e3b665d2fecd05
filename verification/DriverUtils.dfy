/** The arithmetic helpers of `driver/utils.h`: alignment, canonical addresses, powers of two. */
module DriverUtils {
  import opened Bits

  const TWO_32: nat := 0x1_0000_0000
  const TWO_48: nat := 0x1_0000_0000_0000
  const TWO_64: nat := 0x1_0000_0000_0000_0000

  const PAGE_SIZE: nat := 4096
  const CACHE_LINE_SIZE: nat := 64
  const KILO_BYTE: nat := 1024
  const MEGA_BYTE: nat := 0x10_0000
  const GIGA_BYTE: nat := 0x4000_0000

  /** The address of a page, as every allocation of the driver has it. */
  predicate PageAddress(a: nat) { a % PAGE_SIZE == 0 && a < TWO_64 }

  // ---------- alignUp ----------

  /** `(before + mask) & ~mask` on 64-bit words. */
  function AlignUp(before: nat, alignment: nat): nat
    requires 1 <= alignment <= TWO_64
  {
    And((before + (alignment - 1)) % TWO_64, TWO_64 - alignment)
  }

  /** The smallest multiple of `a` that is not below `n`. */
  function Ceil(n: nat, a: nat): nat
    requires a >= 1
  {
    (n + a - 1) - (n + a - 1) % a
  }

  lemma CeilIsLeastMultiple(n: nat, a: nat, m: nat)
    requires a >= 1
    ensures Ceil(n, a) % a == 0 && n <= Ceil(n, a) < n + a
    ensures m % a == 0 && n <= m ==> Ceil(n, a) <= m
  {
    var q, r := (n + a - 1) / a, (n + a - 1) % a;
    assert n + a - 1 == a * q + r;
    DivModUnique(a * q, a, q, 0);
    if m % a == 0 && n <= m {
      var k := m / a;
      assert m == a * k;
      if k < q {
        MulMonotone(a, k + 1, q);
      } else {
        MulMonotone(a, q, k);
      }
    }
  }

  /** For a power of two, `alignUp` rounds up to the next multiple, except that a sum which does not
      fit 64 bits is rounded to zero. */
  lemma AlignUpRoundsUp(before: nat, k: nat)
    requires before < TWO_64 && k <= 64
    ensures 1 <= Pow2(k) <= TWO_64
    ensures AlignUp(before, Pow2(k)) ==
            if before + Pow2(k) <= TWO_64 then Ceil(before, Pow2(k)) else 0
  {
    hide And, Pow2;
    Pow2Constants();
    Pow2Monotone(k, 64);
    AlignUpCases(before, Pow2(k));
    var sum := before + (Pow2(k) - 1);
    if before + Pow2(k) <= TWO_64 {
      AndHighMask(sum, k, 64);
    } else {
      AndHighMask(sum - TWO_64, k, 64);
      DivModUnique(sum - TWO_64, Pow2(k), 0, sum - TWO_64);
    }
  }

  lemma AlignUpCases(before: nat, a: nat)
    requires before < TWO_64 && 1 <= a <= TWO_64
    ensures AlignUp(before, a) ==
            And(if before + a <= TWO_64 then before + (a - 1) else before + (a - 1) - TWO_64, TWO_64 - a)
  {
    assert (before + (a - 1)) % TWO_64 ==
           if before + a <= TWO_64 then before + (a - 1) else before + (a - 1) - TWO_64;
  }

  lemma AlignUpTo64(before: nat)
    requires before + 64 <= TWO_64
    ensures AlignUp(before, 64) == Ceil(before, 64)
    ensures AlignUp(before, 64) % 64 == 0 && before <= AlignUp(before, 64) < before + 64
  {
    Pow2Constants();
    AlignUpRoundsUp(before, 6);
    CeilIsLeastMultiple(before, 64, 0);
  }

  /** A multiple of 64 can be taken out of the rounding. */
  lemma CeilShift(start: nat, n: nat)
    requires start % 64 == 0
    ensures Ceil(start + n, 64) == start + Ceil(n, 64)
  {
    var s, m := start / 64, n + 63;
    assert start == 64 * s;
    DivModUnique(start + m, 64, s + m / 64, m % 64);
  }

  // ---------- canonical addresses ----------

  /** `(1 << n) - 1`, with the shift count below 64. */
  function MaxNBitValue(n: nat): nat
    requires n < 64
  {
    Pow2(n) - 1
  }

  /** A 64-bit word read as two's complement. */
  function Signed(a: nat): int
    requires a < TWO_64
  {
    if a < TWO_64 / 2 then a else a - TWO_64
  }

  /** `(int64_t)(address << 16) >> 16`: the arithmetic shift divides rounding down. */
  function Canonize(address: nat): (r: nat)
    requires address < TWO_64
    ensures r < TWO_64
  {
    (Signed((address * 0x1_0000) % TWO_64) / 0x1_0000) % TWO_64
  }

  function Decanonize(address: nat): nat
    requires address < TWO_64
  {
    And(address, MaxNBitValue(48))
  }

  lemma DecanonizeIsLow48(address: nat)
    requires address < TWO_64
    ensures Decanonize(address) == address % TWO_48
  {
    AndLowMask(address, 48);
    Pow2Constants();
  }

  /** Canonize copies bit 47 into bits 48 to 63 and keeps the low 48 bits. */
  lemma CanonizeSignExtends(address: nat)
    requires address < TWO_48
    ensures Canonize(address) == if address < TWO_48 / 2 then address else address + (TWO_64 - TWO_48)
  {
  }

  /** decanonize undoes canonize, and canonize is idempotent, on every 48-bit address. */
  lemma CanonicalRoundTrip(address: nat)
    requires address < TWO_48
    ensures Canonize(address) < TWO_64
    ensures Decanonize(Canonize(address)) == address
    ensures Canonize(Canonize(address)) == Canonize(address)
  {
    hide Canonize, Decanonize;
    CanonizeSignExtends(address);
    CanonizeAgain(address);
    DecanonizeIsLow48(Canonize(address));
  }

  lemma CanonizeAgain(address: nat)
    requires address < TWO_48
    ensures Canonize(address) < TWO_64 && Canonize(Canonize(address)) == Canonize(address)
  {
    if address < TWO_48 / 2 {
      CanonizeSignExtends(address);
    } else {
      CanonizeHigh(address);
      CanonizeHigh(address + (TWO_64 - TWO_48));
    }
  }

  /** Addresses whose bits 47 and up are all ones, or whose bit 47 is the highest one. */
  lemma CanonizeHigh(address: nat)
    requires TWO_48 / 2 <= address < TWO_48 || TWO_64 - TWO_48 / 2 <= address < TWO_64
    ensures Canonize(address) == if address < TWO_48 then address + (TWO_64 - TWO_48) else address
  {
    var shifted := address * 0x1_0000;
    if address < TWO_48 {
      DivModUnique(shifted, TWO_64, 0, shifted);
      assert Signed(shifted) == 0x1_0000 * (address - TWO_48);
    } else {
      var below := TWO_64 - address;
      DivModUnique(shifted, TWO_64, 0xffff, TWO_64 - 0x1_0000 * below);
      assert Signed(shifted % TWO_64) == 0x1_0000 * -below;
    }
  }

  // ---------- prevPowerOfTwo ----------

  predicate IsPowerOfTwo(p: nat) { exists k: nat | k <= p :: p == Pow2(k) }

  /** The top m of the n low bits of v are ones (all n of them once m reaches n). */
  predicate Smeared(v: nat, n: nat, m: nat)
  {
    v < Pow2(n) && if m >= n then v == Pow2(n) - 1 else Shr(v, n - m) == Pow2(m) - 1
  }

  lemma ShiftByZero(v: nat)
    ensures Shr(v, 0) == v
  {
  }

  lemma SmearStep(v: nat, n: nat, m: nat)
    requires Smeared(v, n, m)
    ensures Smeared(Or(v, Shr(v, m)), n, 2 * m)
  {
    hide Or, Shr;
    var w := Shr(v, m);
    ShrAtMost(v, m);
    OrBelow(v, w, n);
    if m >= n {
      Pow2Monotone(n, m);
      ShrBelow(v, m);
      OrZero(v);
    } else {
      ShiftByZero(Or(v, w));
      SmearFill(v, n, m, if n <= 2 * m then n - m else m);
    }
  }

  /** One `value |= value >> m` turns the j bits below the leading ones into ones. */
  lemma SmearFill(v: nat, n: nat, m: nat, j: nat)
    requires m < n && Smeared(v, n, m)
    requires j <= m && j + m <= n
    ensures Shr(Or(v, Shr(v, m)), n - m - j) == Pow2(m + j) - 1
  {
    var low := n - m - j;
    var a, b := Shr(v, low), Shr(Shr(v, m), low);
    assert Shr(a, j) == Pow2(m) - 1 by { ShrShr(v, low, j); }
    assert b == Pow2(j) - 1 by {
      ShrShr(v, m, low);
      ShrShr(v, n - m, m - j);
      ShrOnes(m, m - j);
    }
    assert Or(a, b) == Pow2(m + j) - 1 by { FillBelow(a, m, j); }
    OrShr(v, Shr(v, m), low);
  }

  lemma FillBelow(a: nat, m: nat, j: nat)
    requires Shr(a, j) == Pow2(m) - 1
    ensures Or(a, Pow2(j) - 1) == Pow2(m + j) - 1
  {
    hide *;
    ShrDivides(a, j);
    OrFill(Shr(a, j), a % Pow2(j), j);
    Pow2Add(m, j);
    OneLessTimes(Pow2(m), Pow2(j));
  }

  lemma OneLessTimes(p: int, q: int)
    ensures (p - 1) * q == p * q - q
  {
  }

  /** A number starts with its highest bit smeared over one place. */
  lemma SmearStart(input: nat) returns (n: nat)
    requires input < TWO_32
    ensures n <= 32 && Smeared(input, n, 1)
    ensures if input == 0 then n == 0 else n > 0 && Pow2(n - 1) <= input < 2 * Pow2(n - 1)
  {
    if input == 0 {
      n := 0;
    } else {
      n := TopBit(input);
      n := n + 1;
      Pow2Constants();
      TopBitBelow(input, n - 1, 32);
      DivModUnique(input, Pow2(n - 1), 1, input - Pow2(n - 1));
      ShrDivides(input, n - 1);
    }
  }

  lemma SmearEnd(v: nat, n: nat)
    requires n <= 32 && Smeared(v, n, 32)
    ensures n == 0 ==> v == 0
    ensures n > 0 ==> v - Shr(v, 1) == Pow2(n - 1)
    ensures Shr(v, 1) <= v
  {
    assert Shr(v, 1) == v / 2;
  }

  /** The largest power of two not above `input` (zero for zero). */
  method PrevPowerOfTwo(input: nat) returns (r: nat)
    requires input < TWO_32
    ensures input == 0 ==> r == 0
    ensures input > 0 ==> IsPowerOfTwo(r) && r <= input < 2 * r
  {
    hide Smeared, Or, Shr, Pow2;
    var value := input;
    ghost var n := SmearStart(input);
    SmearStep(value, n, 1);
    value := Or(value, Shr(value, 1));
    SmearStep(value, n, 2);
    value := Or(value, Shr(value, 2));
    SmearStep(value, n, 4);
    value := Or(value, Shr(value, 4));
    SmearStep(value, n, 8);
    value := Or(value, Shr(value, 8));
    SmearStep(value, n, 16);
    value := Or(value, Shr(value, 16));
    SmearEnd(value, n);
    r := value - Shr(value, 1);
    if input > 0 {
      Pow2Exceeds(n - 1);
    }
  }

  lemma {:induction false} Pow2Exceeds(n: nat)
    ensures n < Pow2(n)
  {
    if n > 0 { Pow2Exceeds(n - 1); }
  }

  /** A power of two r with r <= v < 2 r is above every other power of two that is at most v. */
  lemma LargestPowerOfTwo(v: nat, r: nat, p: nat)
    requires IsPowerOfTwo(r) && IsPowerOfTwo(p) && p <= v < 2 * r
    ensures p <= r
  {
    var i: nat :| i <= r && r == Pow2(i);
    var j: nat :| j <= p && p == Pow2(j);
    if j > i { Pow2Monotone(i + 1, j); }
    if j <= i { Pow2Monotone(j, i); }
  }
}
