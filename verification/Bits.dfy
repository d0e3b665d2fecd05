/** Bitwise operations on natural numbers, and what they mean arithmetically.

    The driver's `&`, `|`, `>>` and `~` are written here on mathematical integers, so that masks can
    be related to remainders and alignments.
 */
module Bits {

  function Pow2(n: nat): (p: nat)
    ensures p >= 1
  {
    if n == 0 then 1 else 2 * Pow2(n - 1)
  }

  function And(a: nat, b: nat): nat
    decreases a
  {
    if a == 0 then 0 else 2 * And(a / 2, b / 2) + (if a % 2 == 1 && b % 2 == 1 then 1 else 0)
  }

  function Or(a: nat, b: nat): nat
    decreases a + b
  {
    if a + b == 0 then 0 else 2 * Or(a / 2, b / 2) + (if a % 2 == 1 || b % 2 == 1 then 1 else 0)
  }

  function Shr(a: nat, n: nat): nat
  {
    if n == 0 then a else Shr(a / 2, n - 1)
  }

  /** Bit `n` of `a`. */
  predicate TestBit(a: nat, n: nat) { Shr(a, n) % 2 == 1 }

  lemma {:induction false} Pow2Add(m: nat, n: nat)
    ensures Pow2(m + n) == Pow2(m) * Pow2(n)
  {
    if m > 0 { Pow2Add(m - 1, n); }
  }

  lemma Pow2Step(n: nat)
    ensures Pow2(n) == if n == 0 then 1 else 2 * Pow2(n - 1)
  {
  }

  lemma {:induction false} Pow2Monotone(m: nat, n: nat)
    requires m <= n
    ensures Pow2(m) <= Pow2(n)
  {
    if m < n { Pow2Monotone(m, n - 1); }
  }

  lemma Pow2Constants()
    ensures Pow2(0) == 1 && Pow2(4) == 16 && Pow2(6) == 64 && Pow2(12) == 4096 && Pow2(16) == 0x1_0000
    ensures Pow2(32) == 0x1_0000_0000
    ensures Pow2(48) == 0x1_0000_0000_0000 && Pow2(64) == 0x1_0000_0000_0000_0000
  {
    assert Pow2(0) == 1 && Pow2(4) == 16 && Pow2(6) == 64 && Pow2(12) == 4096 && Pow2(16) == 0x1_0000;
    hide Pow2;
    Pow2Add(16, 16);
    Pow2Add(32, 16);
    Pow2Add(32, 32);
  }

  /** Halving distributes over a split at bit k + 1. */
  lemma HalfOfRemainder(a: nat, p: nat)
    requires p >= 1
    ensures a % (2 * p) == 2 * ((a / 2) % p) + a % 2
  {
    var q, r := (a / 2) / p, (a / 2) % p;
    assert a / 2 == p * q + r;
    assert a == (2 * p) * q + (2 * r + a % 2);
    DivModUnique(a, 2 * p, q, 2 * r + a % 2);
  }

  lemma DivModUnique(n: int, d: int, q: int, r: int)
    requires 0 <= r < d && n == d * q + r
    ensures n / d == q && n % d == r
  {
    var q', r' := n / d, n % d;
    assert n == d * q' + r' && 0 <= r' < d;
    if q > q' {
      MulMonotone(d, q' + 1, q);
    } else if q < q' {
      MulMonotone(d, q + 1, q');
    }
  }

  lemma Distribute(a: int, b: int, c: int)
    ensures a * (b + c) == a * b + a * c
  {
  }

  lemma MulMonotone(a: int, x: int, y: int)
    requires 0 <= a && x <= y
    ensures a * x <= a * y
  {
  }

  lemma AndOddMask(a: nat, q: nat)
    ensures And(a, 2 * q + 1) == 2 * And(a / 2, q) + a % 2
  {
    assert (2 * q + 1) / 2 == q && (2 * q + 1) % 2 == 1;
  }

  lemma AndEvenMask(a: nat, q: nat)
    ensures And(a, 2 * q) == 2 * And(a / 2, q)
  {
    assert (2 * q) / 2 == q && (2 * q) % 2 == 0;
  }

  /** Masking with 2^k - 1 keeps the remainder. */
  lemma {:induction false} AndLowMask(a: nat, k: nat)
    ensures And(a, Pow2(k) - 1) == a % Pow2(k)
    decreases k
  {
    hide And;
    if k == 0 {
      AndZero(a);
    } else {
      AndLowMask(a / 2, k - 1);
      AndOddMask(a, Pow2(k - 1) - 1);
      HalfOfRemainder(a, Pow2(k - 1));
    }
  }

  lemma {:induction false} AndZero(a: nat)
    ensures And(a, 0) == 0
  {
    if a > 0 { AndZero(a / 2); }
  }

  lemma {:induction false} AndAllOnes(a: nat, w: nat)
    requires a < Pow2(w)
    ensures And(a, Pow2(w) - 1) == a
  {
    AndLowMask(a, w);
    DivModUnique(a, Pow2(w), 0, a);
  }

  /** Masking with the complement of 2^k - 1 in a w-bit word rounds down to a multiple of 2^k. */
  lemma {:induction false} AndHighMask(a: nat, k: nat, w: nat)
    requires k <= w && a < Pow2(w)
    ensures Pow2(k) <= Pow2(w)
    ensures And(a, Pow2(w) - Pow2(k)) == a - a % Pow2(k)
    decreases k
  {
    hide And, Pow2;
    Pow2Monotone(k, w);
    Pow2Step(k);
    Pow2Step(w);
    if k == 0 {
      AndAllOnes(a, w);
    } else {
      Pow2Monotone(k - 1, w - 1);
      AndHighMask(a / 2, k - 1, w - 1);
      EvenMaskRounds(a, Pow2(k - 1), Pow2(w - 1));
    }
  }

  lemma EvenMaskRounds(a: nat, p: nat, q: nat)
    requires 1 <= p <= q && And(a / 2, q - p) == a / 2 - a / 2 % p
    ensures And(a, 2 * q - 2 * p) == a - a % (2 * p)
  {
    hide And;
    AndEvenMask(a, q - p);
    HalfOfRemainder(a, p);
  }

  lemma {:induction false} OrShr(a: nat, b: nat, n: nat)
    ensures Shr(Or(a, b), n) == Or(Shr(a, n), Shr(b, n))
  {
    if n > 0 {
      OrShr(a / 2, b / 2, n - 1);
      assert Or(a, b) / 2 == Or(a / 2, b / 2);
    }
  }

  lemma {:induction false} ShrAtMost(a: nat, n: nat)
    ensures Shr(a, n) <= a
  {
    if n > 0 { ShrAtMost(a / 2, n - 1); }
  }

  /** A right shift is a division, with the bits shifted out as the remainder. */
  lemma {:induction false} ShrDivides(a: nat, n: nat)
    ensures Shr(a, n) == a / Pow2(n)
    ensures a == Pow2(n) * Shr(a, n) + a % Pow2(n)
  {
    if n > 0 {
      var p := Pow2(n - 1);
      ShrDivides(a / 2, n - 1);
      HalvedDivision(a, p, Shr(a / 2, n - 1), (a / 2) % p);
    }
  }

  lemma HalvedDivision(a: nat, p: nat, q: nat, r: nat)
    requires a / 2 == p * q + r && r < p
    ensures a / (2 * p) == q && a == 2 * p * q + a % (2 * p)
  {
    TwiceProduct(p, q);
    DivModUnique(a, 2 * p, q, 2 * r + a % 2);
  }

  lemma TwiceProduct(p: nat, q: nat)
    ensures (2 * p) * q == 2 * (p * q)
  {
  }

  /** Or-ing m ones below a number shifted up by m fills its low m bits. */
  lemma {:induction false} OrFill(h: nat, l: nat, m: nat)
    requires l < Pow2(m)
    ensures Or(h * Pow2(m) + l, Pow2(m) - 1) == h * Pow2(m) + Pow2(m) - 1
  {
    if m == 0 {
      OrZero(h);
    } else {
      var p := Pow2(m - 1);
      assert h * Pow2(m) == 2 * (h * p);
      assert (h * Pow2(m) + l) / 2 == h * p + l / 2;
      assert (Pow2(m) - 1) / 2 == p - 1;
      OrFill(h, l / 2, m - 1);
    }
  }

  lemma {:induction false} OrZero(a: nat)
    ensures Or(a, 0) == a
  {
    if a > 0 { OrZero(a / 2); }
  }

  lemma {:induction false} OrBelow(a: nat, b: nat, n: nat)
    requires a < Pow2(n) && b < Pow2(n)
    ensures Or(a, b) < Pow2(n)
  {
    if n > 0 && a + b > 0 { OrBelow(a / 2, b / 2, n - 1); }
  }

  lemma {:induction false} ShrShr(a: nat, m: nat, n: nat)
    ensures Shr(Shr(a, m), n) == Shr(a, m + n)
  {
    if m > 0 {
      ShrShr(a / 2, m - 1, n);
    }
  }

  lemma {:induction false} ShrOnes(m: nat, n: nat)
    requires n <= m
    ensures Shr(Pow2(m) - 1, n) == Pow2(m - n) - 1
  {
    if n > 0 {
      ShrOnes(m - 1, n - 1);
    }
  }

  lemma ShrBelow(a: nat, n: nat)
    requires a < Pow2(n)
    ensures Shr(a, n) == 0
  {
    ShrDivides(a, n);
    DivModUnique(a, Pow2(n), 0, a);
  }

  /** Every positive number has a most significant bit. */
  lemma {:induction false} TopBit(a: nat) returns (n: nat)
    requires a > 0
    ensures Pow2(n) <= a < Pow2(n + 1)
  {
    if a == 1 {
      n := 0;
    } else {
      n := TopBit(a / 2);
      n := n + 1;
    }
  }

  lemma {:induction false} TopBitBelow(a: nat, n: nat, w: nat)
    requires Pow2(n) <= a < Pow2(w)
    ensures n < w
  {
    if w <= n { Pow2Monotone(w, n); }
  }

  /** A mask of m ones has exactly the bits below m. */
  lemma {:induction false} OnesTestBit(m: nat, n: nat)
    ensures TestBit(Pow2(m) - 1, n) <==> n < m
  {
    hide Pow2, Shr;
    if n < m {
      ShrOnes(m, n);
      Pow2Step(m - n);
    } else {
      Pow2Monotone(m, n);
      ShrBelow(Pow2(m) - 1, n);
    }
  }
}
