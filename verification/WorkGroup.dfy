/** Which lanes of which threads run, and which work-items they run: every work-item of a group exactly
    once, or not.

    The thread count and the execution mask are those `createIndirectObjectHeap` and
    `createCommandStreamTask` program; the IDs are those the packed generator stores.
 */
module WorkGroup {
  import opened Bits
  import opened DriverUtils
  import opened LocalIds
  import opened PackedIds

  // ---------- lane accounting ----------

  predicate IsSimd(simdSize: nat) { simdSize == 8 || simdSize == 16 || simdSize == 32 }

  /** Hardware threads of a group of `local` work-items. */
  function HwThreads(local: nat, simdSize: nat): nat
    requires simdSize + local >= 1
  {
    Shr(simdSize + local - 1, if simdSize == 32 then 5 else if simdSize == 16 then 4 else if simdSize == 8 then 3 else 0)
  }

  /** A kernel compiled for one lane takes a thread for every work-item. */
  lemma ThreadPerItem(local: nat)
    ensures HwThreads(local, 1) == local
  {
    assert Shr(local, 0) == local;
  }

  /** The walker's RightExecutionMask: the lanes that run in the last thread. */
  function RightExecutionMask(local: nat, simdSize: nat): nat
    requires 1 <= simdSize <= 32
  {
    RemainderFits(local, simdSize);
    MaskOf(And(local, simdSize - 1))
  }

  /** The mask for `rest` remaining lanes; an empty mask is read as a full one. */
  function MaskOf(rest: nat): nat
    requires rest < 64
  {
    var mask := MaxNBitValue(rest);
    (if mask == 0 then ALL_ONES else mask) % TWO_32
  }

  lemma {:induction false} RemainderFits(a: nat, b: nat)
    requires b >= 1
    ensures And(a, b - 1) <= b - 1
  {
    AndBelow(a, b - 1);
  }

  lemma {:induction false} AndBelow(a: nat, b: nat)
    ensures And(a, b) <= b
  {
    if a > 0 { AndBelow(a / 2, b / 2); }
  }

  /** Lane l of thread t runs: all threads but the last are full, the last obeys the mask. */
  predicate Enabled(t: nat, l: nat, local: nat, simdSize: nat)
    requires 1 <= simdSize <= 32
  {
    && l < simdSize && t < HwThreads(local, simdSize)
    && (t + 1 < HwThreads(local, simdSize) || TestBit(RightExecutionMask(local, simdSize), l))
  }

  /** All threads but the last are full, and the last takes what is left. */
  lemma ThreadsCoverGroup(local: nat, simdSize: nat)
    requires IsSimd(simdSize) && local >= 1
    ensures HwThreads(local, simdSize) >= 1
    ensures local == (HwThreads(local, simdSize) - 1) * simdSize +
                     (if local % simdSize == 0 then simdSize else local % simdSize)
  {
    ShiftIsDivision(simdSize + local - 1);
    hide Shr;
    LastThread(local, simdSize);
  }

  lemma ShiftIsDivision(a: nat)
    ensures Shr(a, 3) == a / 8 && Shr(a, 4) == a / 16 && Shr(a, 5) == a / 32
  {
    assert Pow2(3) == 8 && Pow2(4) == 16 && Pow2(5) == 32;
    ShrDivides(a, 3);
    ShrDivides(a, 4);
    ShrDivides(a, 5);
  }

  lemma LastThread(local: nat, simdSize: nat)
    requires simdSize >= 1 && local >= 1
    ensures var threads := (simdSize + local - 1) / simdSize;
            threads >= 1 &&
            local == (threads - 1) * simdSize + (if local % simdSize == 0 then simdSize else local % simdSize)
  {
    var q, r := local / simdSize, local % simdSize;
    assert local == simdSize * q + r;
    if r == 0 {
      DivModUnique(simdSize + local - 1, simdSize, q, simdSize - 1);
    } else {
      DivModUnique(simdSize + local - 1, simdSize, q + 1, r - 1);
    }
  }

  lemma MaskOfOnes(rest: nat)
    requires rest < 32
    ensures MaskOf(rest) == Pow2(if rest == 0 then 32 else rest) - 1
  {
    Pow2Constants();
    if rest > 0 {
      Pow2Monotone(1, rest);
      Pow2Monotone(rest, 31);
    }
  }

  lemma MaskValue(local: nat, simdSize: nat)
    requires IsSimd(simdSize)
    ensures RightExecutionMask(local, simdSize) ==
            Pow2(if local % simdSize == 0 then 32 else local % simdSize) - 1
  {
    assert And(local, simdSize - 1) == local % simdSize by {
      assert Pow2(5) == 32 && Pow2(4) == 16 && Pow2(3) == 8;
      AndLowMask(local, if simdSize == 32 then 5 else if simdSize == 16 then 4 else 3);
    }
    hide And, Pow2, MaskOf;
    MaskOfOnes(local % simdSize);
  }

  /** The lanes that run are exactly those whose number is below the group size. */
  lemma EnabledIffInGroup(t: nat, l: nat, local: nat, simdSize: nat)
    requires IsSimd(simdSize) && local >= 1 && l < simdSize
    ensures Enabled(t, l, local, simdSize) <==> t * simdSize + l < local
  {
    hide HwThreads, RightExecutionMask, TestBit;
    var threads, rest := HwThreads(local, simdSize), local % simdSize;
    ThreadsCoverGroup(local, simdSize);
    MaskValue(local, simdSize);
    OnesTestBit(if rest == 0 then 32 else rest, l);
    if t + 1 < threads {
      MulMonotone(simdSize, t + 1, threads - 1);
    } else if t >= threads {
      MulMonotone(simdSize, threads, t);
    }
  }

  // ---------- which work-item a lane runs ----------

  predicate InBox(d: Id, X: nat, Y: nat, Z: nat) { d.x < X && d.y < Y && d.z < Z }

  /** A group of lanes whose work-items n .. n + 3 do not step over a multiple of X, except that n + 3 may
      be the multiple itself, holds n's quotient and the remainders from n's on. */
  lemma GroupWithinRow(n: nat, X: nat, Y: nat, k: nat)
    requires 1 <= X <= 1024 && Y >= 1 && k < 4 && n % X + 3 <= X
    ensures var d := IdOf(Ramp(n), X * LANE_ONES, Y);
            d.y == n / X % Y && d.z == n / X / Y && Lane(d.x, k) == n % X + k
  {
    var a, b := n / X, n % X;
    assert n == X * a + b;
    assert Ramp(n) == (X * LANE_ONES) * a + Ramp(b);
    DivModUnique(Ramp(n), X * LANE_ONES, a, Ramp(b));
    hide Lane;
    assert Ramp(b) == Pack(b, b + 1, b + 2, b + 3);
    LaneOfPack(b, b + 1, b + 2, b + 3, k);
  }

  /** A group that steps over X inside its lanes borrows across them: lane 0 leaves the row. */
  lemma GroupAcrossRow(n: nat, X: nat, Y: nat)
    requires 1 <= X <= 1024 && Y >= 1 && n < X < n + 3
    ensures Lane(IdOf(Ramp(n), X * LANE_ONES, Y).x, 0) >= 0xfffd
  {
    var M := X * LANE_ONES;
    var k, x := Ramp(n) / M, Ramp(n) % M;
    assert Ramp(n) == M * k + x;
    assert Ramp(n) >= M;
    if k > 0 { MulMonotone(X, 1, k); }
    var kx := X * k;
    assert M * k == kx * LANE_ONES;
    assert x == (n - kx) * LANE_ONES + LANE_RAMP;
    assert kx <= n + 3;
    DivModUnique(x, 0x1_0000, (n - kx) * 0x1_0001_0001 + 0x3_0002_0001 - 1, n - kx + 0x1_0000);
  }

  lemma LaneIsGroupLane(t: nat, l: nat, simdSize: nat, X: nat, Y: nat)
    requires X >= 1 && Y >= 1
    ensures var d := IdOf(Ramp(l - l % 4 + t * simdSize), X * LANE_ONES, Y);
            StoredLane(t, l, simdSize, X, Y) == Id(Lane(d.x, l % 4), d.y, d.z)
  {
    GroupDividesRamp(l - l % 4, simdSize, t, X, Y);
  }

  /** The X values for which the packed generator works, for a group of Y rows and Z planes. */
  predicate Divisible(X: nat, Y: nat, Z: nat)
  {
    X % 4 == 0 || (X % 4 == 3 && Y == 1 && Z == 1)
  }

  /** For these, every lane that runs holds exactly its own work-item. */
  lemma LaneRunsItsItem(t: nat, l: nat, simdSize: nat, X: nat, Y: nat, Z: nat)
    requires IsSimd(simdSize) && l < simdSize && 1 <= X <= 1024 && Y >= 1 && Z >= 1
    requires Divisible(X, Y, Z) && t * simdSize + l < X * Y * Z
    ensures StoredLane(t, l, simdSize, X, Y) == IdOf(t * simdSize + l, X, Y)
  {
    hide StoredLane, Lane, Ramp;
    var k := l % 4;
    var n := l - k + t * simdSize;
    assert n % 4 == 0 by { SimdMultiple(t, simdSize, l - k); }
    if X % 4 != 0 {
      assert X * Y * Z == X;
    }
    GroupStaysInRow(n, k, X);
    LaneIsGroupLane(t, l, simdSize, X, Y);
    GroupWithinRow(n, X, Y, k);
    SameQuotient(n, k, X);
  }

  /** No lane of a good group passes the end of its row. */
  lemma GroupStaysInRow(n: nat, k: nat, X: nat)
    requires n % 4 == 0 && k < 4 && X >= 1
    requires X % 4 == 0 || (X % 4 == 3 && n + k < X)
    ensures n % X + 3 <= X && n % X + k < X
  {
    var a, b := n / X, n % X;
    assert X * a + b == n;
    OffsetStaysInRow(a, b, k, X);
  }

  lemma OffsetStaysInRow(a: nat, b: nat, k: nat, X: nat)
    requires (X * a + b) % 4 == 0 && k < 4 && b < X
    requires X % 4 == 0 || (X % 4 == 3 && X * a + b + k < X)
    ensures b + 3 <= X && b + k < X
  {
    if X % 4 == 0 {
      MultipleOfFour(X, a, b);
    } else if a > 0 {
      MulMonotone(X, 1, a);
    }
  }

  lemma SameQuotient(n: nat, k: nat, X: nat)
    requires X >= 1 && n % X + k < X
    ensures (n + k) % X == n % X + k && (n + k) / X == n / X
  {
    DivModUnique(n + k, X, n / X, n % X + k);
  }

  lemma SimdMultiple(t: nat, simdSize: nat, first: nat)
    requires IsSimd(simdSize) && first % 4 == 0
    ensures (first + t * simdSize) % 4 == 0
  {
    var s := simdSize / 4;
    assert t * simdSize == 4 * (t * s);
    DivModUnique(first + t * simdSize, 4, first / 4 + t * s, 0);
  }

  lemma MultipleOfFour(X: nat, a: nat, b: nat)
    requires X % 4 == 0 && (X * a + b) % 4 == 0
    ensures b % 4 == 0
  {
    var q, r := X / 4, (X * a + b) / 4;
    assert X * a == 4 * (q * a);
    assert b == 4 * (r - q * a);
  }

  /** Otherwise some lane that runs holds an x outside the group. */
  lemma SomeLaneLeavesGroup(simdSize: nat, X: nat, Y: nat, Z: nat) returns (t: nat, l: nat)
    requires IsSimd(simdSize) && 1 <= X <= 1024 && Y >= 1 && Z >= 1 && !Divisible(X, Y, Z)
    ensures l < simdSize && t * simdSize + l < X * Y * Z
    ensures StoredLane(t, l, simdSize, X, Y).x >= X
  {
    var n := if X % 4 == 3 then X else X - X % 4;
    t, l := n / simdSize, n % simdSize;
    hide StoredLane;
    assert t * simdSize + l == n;
    RowFits(X, Y, Z);
    if X % 4 == 3 {
      LaneOnePastRow(t, l, simdSize, X, Y);
    } else {
      LaneBorrows(t, l, simdSize, X, Y);
    }
  }

  /** The lane of work-item X stays in the row when the three lanes below it do. */
  lemma LaneOnePastRow(t: nat, l: nat, simdSize: nat, X: nat, Y: nat)
    requires IsSimd(simdSize) && 1 <= X <= 1024 && Y >= 1 && X % 4 == 3 && t * simdSize + l == X
    ensures StoredLane(t, l, simdSize, X, Y).x == X
  {
    hide StoredLane, Lane, Ramp;
    SimdMultiple(t, simdSize, l - l % 4);
    assert l - l % 4 + t * simdSize == X - 3;
    LaneIsGroupLane(t, l, simdSize, X, Y);
    DivModUnique(X - 3, X, 0, X - 3);
    GroupWithinRow(X - 3, X, Y, 3);
  }

  /** The first lane of the group that crosses the end of the row receives a borrow. */
  lemma LaneBorrows(t: nat, l: nat, simdSize: nat, X: nat, Y: nat)
    requires IsSimd(simdSize) && 1 <= X <= 1024 && Y >= 1 && (X % 4 == 1 || X % 4 == 2)
    requires t * simdSize + l == X - X % 4
    ensures StoredLane(t, l, simdSize, X, Y).x >= 0xfffd
  {
    hide StoredLane, Lane, Ramp;
    SimdMultiple(t, simdSize, l - l % 4);
    assert l - l % 4 + t * simdSize == X - X % 4;
    LaneIsGroupLane(t, l, simdSize, X, Y);
    GroupAcrossRow(X - X % 4, X, Y);
  }

  lemma RowFits(X: nat, Y: nat, Z: nat)
    requires X >= 1 && Y >= 1 && Z >= 1
    ensures X <= X * Y * Z
    ensures Y > 1 || Z > 1 ==> X < X * Y * Z
  {
    MulMonotone(X, 1, Y);
    MulMonotone(X * Y, 1, Z);
    if Z > 1 {
      MulMonotone(X * Y, 2, Z);
    } else if Y > 1 {
      MulMonotone(X, 2, Y);
    }
  }

  // ---------- every work-item exactly once ----------

  /** The lanes that run map one-to-one onto the work-items [0, X) x [0, Y) x [0, Z). */
  ghost predicate RunsEachItemOnce(simdSize: nat, X: nat, Y: nat, Z: nat)
    requires IsSimd(simdSize) && X >= 1
  {
    var local := X * Y * Z;
    && (forall t: nat, l: nat | Enabled(t, l, local, simdSize) :: InBox(StoredLane(t, l, simdSize, X, Y), X, Y, Z))
    && (forall d: Id | InBox(d, X, Y, Z) ::
          exists t: nat, l: nat :: Enabled(t, l, local, simdSize) && StoredLane(t, l, simdSize, X, Y) == d)
    && (forall t: nat, l: nat, t': nat, l': nat
          | Enabled(t, l, local, simdSize) && Enabled(t', l', local, simdSize) &&
            StoredLane(t, l, simdSize, X, Y) == StoredLane(t', l', simdSize, X, Y) :: t == t' && l == l')
  }

  lemma NumberOfItem(d: Id, X: nat, Y: nat, Z: nat)
    requires InBox(d, X, Y, Z)
    ensures Value(d, X, Y) < X * Y * Z && IdOf(Value(d, X, Y), X, Y) == d
  {
    hide IdOf;
    DigitsAreUnique(d, X, Y);
    DigitBelow(d.y, d.z, Y, Z);
    DigitBelow(d.x, d.y + Y * d.z, X, Y * Z);
    assert X * Y * Z == X * (Y * Z);
  }

  lemma DigitBelow(low: nat, high: nat, radix: nat, n: nat)
    requires low < radix && high < n
    ensures low + radix * high < radix * n
  {
    MulMonotone(radix, high + 1, n);
    Distribute(radix, high, 1);
  }

  lemma ItemOfNumber(n: nat, X: nat, Y: nat, Z: nat)
    requires X >= 1 && Y >= 1 && n < X * Y * Z
    ensures InBox(IdOf(n, X, Y), X, Y, Z)
  {
    IdOfInRange(n, X, Y);
    var d := IdOf(n, X, Y);
    assert X * Y * Z == X * (Y * Z);
    if d.z >= Z {
      MulMonotone(Y, Z, d.z);
      MulMonotone(X, Y * Z, d.y + Y * d.z);
    }
  }

  lemma LaneOfNumber(n: nat, simdSize: nat, local: nat) returns (t: nat, l: nat)
    requires IsSimd(simdSize) && n < local
    ensures n == t * simdSize + l && Enabled(t, l, local, simdSize)
  {
    t, l := n / simdSize, n % simdSize;
    EnabledIffInGroup(t, l, local, simdSize);
  }

  /** Every work-item of the group runs exactly once if and only if the four lanes of a 64-bit group never
      straddle the end of a row: X is a multiple of four, or there is a single row and X is one short of it. */
  lemma EachItemOnceIff(simdSize: nat, X: nat, Y: nat, Z: nat)
    requires IsSimd(simdSize) && 1 <= X <= 1024 && Y >= 1 && Z >= 1
    ensures RunsEachItemOnce(simdSize, X, Y, Z) <==> Divisible(X, Y, Z)
  {
    var local := X * Y * Z;
    assert local >= 1 by { RowFits(X, Y, Z); }
    if Divisible(X, Y, Z) {
      DivisibleRunsEachOnce(simdSize, X, Y, Z);
    } else {
      var t, l := SomeLaneLeavesGroup(simdSize, X, Y, Z);
      EnabledIffInGroup(t, l, local, simdSize);
      assert !InBox(StoredLane(t, l, simdSize, X, Y), X, Y, Z);
    }
  }

  lemma DivisibleRunsEachOnce(simdSize: nat, X: nat, Y: nat, Z: nat)
    requires IsSimd(simdSize) && 1 <= X <= 1024 && Y >= 1 && Z >= 1 && X * Y * Z >= 1
    requires Divisible(X, Y, Z)
    ensures RunsEachItemOnce(simdSize, X, Y, Z)
  {
    hide StoredLane, IdOf, Enabled, Value, InBox, Divisible;
    var local := X * Y * Z;
    forall t: nat, l: nat | Enabled(t, l, local, simdSize)
      ensures StoredLane(t, l, simdSize, X, Y) == IdOf(t * simdSize + l, X, Y)
      ensures InBox(StoredLane(t, l, simdSize, X, Y), X, Y, Z)
      ensures Value(StoredLane(t, l, simdSize, X, Y), X, Y) == t * simdSize + l && l < simdSize
    {
      EnabledBelow(t, l, local, simdSize);
      LaneRunsItsItem(t, l, simdSize, X, Y, Z);
      ItemOfNumber(t * simdSize + l, X, Y, Z);
      IdOfInRange(t * simdSize + l, X, Y);
    }
    forall d: Id | InBox(d, X, Y, Z)
      ensures exists t: nat, l: nat :: Enabled(t, l, local, simdSize) && StoredLane(t, l, simdSize, X, Y) == d
    {
      NumberOfItem(d, X, Y, Z);
      var t, l := LaneOfNumber(Value(d, X, Y), simdSize, local);
      assert Enabled(t, l, local, simdSize) && StoredLane(t, l, simdSize, X, Y) == d;
    }
    forall t: nat, l: nat, t': nat, l': nat
      | Enabled(t, l, local, simdSize) && Enabled(t', l', local, simdSize) &&
        StoredLane(t, l, simdSize, X, Y) == StoredLane(t', l', simdSize, X, Y)
      ensures t == t' && l == l'
    {
      DivModUnique(t * simdSize + l, simdSize, t, l);
      DivModUnique(t' * simdSize + l', simdSize, t', l');
    }
  }

  lemma EnabledBelow(t: nat, l: nat, local: nat, simdSize: nat)
    requires IsSimd(simdSize) && local >= 1 && Enabled(t, l, local, simdSize)
    ensures l < simdSize && t * simdSize + l < local
  {
    EnabledIffInGroup(t, l, local, simdSize);
  }
}
