/** What threads load when the driver's stride between their ID rows is not the generator's.

    The generator always writes three rows a thread: x, y and z.  The driver has each thread loaded with as many rows
    as the kernel reads IDs, one thread's rows behind the other's.  So a kernel that reads n IDs finds word j of
    thread t in row n * t + j of what was written.
 */
module PayloadStride {
  import opened Bits
  import opened LocalIds
  import opened PackedIds
  import opened WorkGroup
  import opened Serving

  /** Lane l of row r: row 3 * t + d is channel d of thread t. */
  function Row(r: nat, l: nat, simdSize: nat, X: nat, Y: nat): nat
    requires X >= 1
  {
    var d := StoredLane(r / 3, l, simdSize, X, Y);
    if r % 3 == 0 then d.x else if r % 3 == 1 then d.y else d.z
  }

  /** The words of lane number i of a kernel that reads n IDs. */
  function Loaded(n: nat, simdSize: nat, X: nat, Y: nat): Load
    requires simdSize >= 1 && X >= 1
  {
    (i: nat, j: nat) => Row(n * (i / simdSize) + j, i % simdSize, simdSize, X, Y)
  }

  // ---------- what was written ----------

  /** A lane whose group of four, starting at item n, does not step over a multiple of X. */
  lemma WrittenWithinRow(t: nat, l: nat, n: nat, simdSize: nat, X: nat, Y: nat)
    requires 1 <= X <= 1024 && Y >= 1 && n == l - l % 4 + t * simdSize && n % X + 3 <= X
    ensures var d := IdOf(n, X, Y); StoredLane(t, l, simdSize, X, Y) == Id(d.x + l % 4, d.y, d.z)
  {
    hide StoredLane, Lane, Ramp;
    LaneIsGroupLane(t, l, simdSize, X, Y);
    GroupWithinRow(n, X, Y, l % 4);
  }

  /** For a multiple of 4, every lane is written its own number's ID. */
  lemma WrittenOwnId(t: nat, l: nat, simdSize: nat, X: nat, Y: nat)
    requires IsSimd(simdSize) && 4 <= X <= 1024 && Y >= 1 && X % 4 == 0
    ensures StoredLane(t, l, simdSize, X, Y) == IdOf(l + t * simdSize, X, Y)
  {
    hide StoredLane;
    var k := l % 4;
    var n := l - k + t * simdSize;
    SimdMultiple(t, simdSize, l - k);
    GroupStaysInRow(n, k, X);
    WrittenWithinRow(t, l, n, simdSize, X, Y);
    SameQuotient(n, k, X);
  }

  lemma LoadedRow(n: nat, t: nat, l: nat, j: nat, simdSize: nat, X: nat, Y: nat)
    requires l < simdSize && X >= 1
    ensures Loaded(n, simdSize, X, Y)(t * simdSize + l, j) == Row(n * t + j, l, simdSize, X, Y)
  {
    hide Row;
    DivModUnique(t * simdSize + l, simdSize, t, l);
  }

  /** The three rows of the generator's thread g. */
  lemma RowsOfThread(g: nat, l: nat, simdSize: nat, X: nat, Y: nat)
    requires X >= 1
    ensures Row(3 * g, l, simdSize, X, Y) == StoredLane(g, l, simdSize, X, Y).x
    ensures Row(3 * g + 1, l, simdSize, X, Y) == StoredLane(g, l, simdSize, X, Y).y
    ensures Row(3 * g + 2, l, simdSize, X, Y) == StoredLane(g, l, simdSize, X, Y).z
  {
    hide StoredLane;
  }

  lemma LaneSplits(i: nat, simdSize: nat)
    requires simdSize >= 1
    ensures i / simdSize * simdSize + i % simdSize == i && i % simdSize < simdSize
  {
  }

  /** For a multiple of 4 a row holds one digit of its lanes' numbers. */
  lemma RowOfDigits(r: nat, l: nat, simdSize: nat, X: nat, Y: nat)
    requires IsSimd(simdSize) && 4 <= X <= 1024 && Y >= 1 && X % 4 == 0
    ensures Row(r, l, simdSize, X, Y) == Digit(r % 3, l + r / 3 * simdSize, X, Y)
  {
    hide StoredLane;
    WrittenOwnId(r / 3, l, simdSize, X, Y);
  }

  /** A group that crosses a multiple of X inside its lanes borrows as the first one does. */
  lemma GroupAcrossAnyRow(n: nat, a: nat, X: nat, Y: nat)
    requires 1 <= X <= 1024 && Y >= 1 && n < X < n + 3
    ensures Lane(IdOf(Ramp(X * a + n), X * LANE_ONES, Y).x, 0) >= 0xfffd
  {
    hide Lane;
    GroupAcrossRow(n, X, Y);
    var M, x := X * LANE_ONES, Ramp(n) % (X * LANE_ONES);
    assert Ramp(X * a + n) == M * a + Ramp(n);
    assert Ramp(n) == M * (Ramp(n) / M) + x;
    Distribute(M, a, Ramp(n) / M);
    DivModUnique(Ramp(X * a + n), M, a + Ramp(n) / M, x);
  }

  /** When X does not suit the generator, the x of some lane in the first two rows of items is no x at all. */
  lemma HugeLane(simdSize: nat, X: nat, Y: nat, Z: nat) returns (h: nat)
    requires IsSimd(simdSize) && 1 <= X <= 1024 && Y >= 1 && Z >= 1 && !Divisible(X, Y, Z)
    ensures h < X * Y * Z && h == if X % 4 == 3 then 2 * X - 2 else X - X % 4
    ensures StoredLane(h / simdSize, h % simdSize, simdSize, X, Y).x >= 0xfffd
  {
    hide StoredLane, Lane, Ramp, IdOf;
    h := if X % 4 == 3 then 2 * X - 2 else X - X % 4;
    TwoRows(X, Y, Z);
    if X % 4 == 3 {
      GroupAcrossAnyRow(X - 2, 1, X, Y);
      assert X * 1 + (X - 2) == h && h % 4 == 0;
    } else {
      GroupAcrossAnyRow(h, 0, X, Y);
      assert X * 0 + h == h && h % 4 == 0;
    }
    FirstOfGroup(h, simdSize, X, Y);
  }

  lemma FirstOfGroup(h: nat, simdSize: nat, X: nat, Y: nat)
    requires IsSimd(simdSize) && h % 4 == 0 && X >= 1 && Y >= 1
    ensures StoredLane(h / simdSize, h % simdSize, simdSize, X, Y).x == Lane(IdOf(Ramp(h), X * LANE_ONES, Y).x, 0)
  {
    hide StoredLane, Lane, Ramp, IdOf;
    LaneSplits(h, simdSize);
    MultipleOfFourSplits(h, simdSize);
    LaneIsGroupLane(h / simdSize, h % simdSize, simdSize, X, Y);
  }

  lemma MultipleOfFourSplits(h: nat, simdSize: nat)
    requires IsSimd(simdSize) && h % 4 == 0
    ensures h % simdSize % 4 == 0
  {
    var q, s := h / 4, simdSize / 4;
    assert h == 4 * q && simdSize == 4 * s;
    DivModUnique(h, simdSize, q / s, 4 * (q % s));
  }

  /** One row of items, or at least two. */
  lemma TwoRows(X: nat, Y: nat, Z: nat)
    requires X >= 1 && Y >= 1 && Z >= 1
    ensures X <= X * Y * Z && (Y > 1 || Z > 1 ==> 2 * X <= X * Y * Z)
  {
    MulMonotone(Y, 1, Z);
    MulMonotone(Z, 1, Y);
    Regroup(X, Y, Z);
    MulMonotone(X, if Y > 1 || Z > 1 then 2 else 1, Y * Z);
  }

  lemma Regroup(a: nat, b: nat, c: nat)
    ensures a * b * c == a * (b * c)
  {
  }

  // ---------- threads that load what was written for them ----------

  /** With three rows a thread, or one thread, lanes are loaded with what was written for them. */
  lemma OwnWord(n: nat, simdSize: nat, X: nat, Y: nat, i: nat, j: nat)
    requires simdSize >= 1 && X >= 1 && j < n <= 3 && (n == 3 || i < simdSize)
    ensures var d := StoredLane(i / simdSize, i % simdSize, simdSize, X, Y);
            Loaded(n, simdSize, X, Y)(i, j) == if j == 0 then d.x else if j == 1 then d.y else d.z
  {
    hide StoredLane, Row;
    var t, l := i / simdSize, i % simdSize;
    if n < 3 { DivModUnique(i, simdSize, 0, i); }
    assert n * t + j == 3 * t + j;
    assert Loaded(n, simdSize, X, Y)(i, j) == Row(3 * t + j, l, simdSize, X, Y);
    RowsOfThread(t, l, simdSize, X, Y);
  }

  /** Then the group is served exactly if the packed generator suits it and the IDs read are as many of each kind as
      the rows that stand in their places. */
  lemma OwnRowsIff(n: nat, simdSize: nat, group: Id, size: Id)
    requires IsSimd(simdSize) && 1 <= group.x <= 1024 && group.y >= 1 && group.z >= 1 && 1 <= n <= 3
    requires 1 <= size.x <= 1024 && size.y >= 1 && size.z >= 1 && Items(size) == Items(group)
    requires n == 3 || Items(group) <= simdSize
    ensures Served(Loaded(n, simdSize, group.x, group.y), n, size)
            <==> Divisible(group.x, group.y, group.z) && Leading(n, size, group)
  {
    hide StoredLane, Served, Divisible, Leading, Loaded;
    var load, X, Y := Loaded(n, simdSize, group.x, group.y), group.x, group.y;
    if Divisible(X, Y, group.z) {
      forall i: nat, j: nat | i < Items(size) && j < n ensures load(i, j) == Digit(j, i, X, Y)
      {
        OwnWord(n, simdSize, X, Y, i, j);
        LaneSplits(i, simdSize);
        LaneRunsItsItem(i / simdSize, i % simdSize, simdSize, X, Y, group.z);
      }
      DigitsServeIff(load, n, size, group);
    } else if Served(load, n, size) {
      var item := ServedBy(load, n, size);
      var h := HugeLane(simdSize, X, Y, group.z);
      OwnWord(n, simdSize, X, Y, h, 0);
      LoadsInside(item, load, n, size, h);
    }
  }
}
