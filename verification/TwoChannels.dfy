/** Kernels of several threads that read two IDs.

    Thread 0 is loaded with the x and y rows of the generator's thread 0, thread 1 with the z row of thread 0 and the x
    row of thread 1, thread 2 with the y and z rows of thread 1, and so on.  No group is served: some lane is loaded
    with no ID of the group, or too many lanes with the same pair.
 */
module TwoChannels {
  import opened Bits
  import opened LocalIds
  import opened PackedIds
  import opened WorkGroup
  import opened Serving
  import opened PayloadStride

  /** Word j of lane i when X is a multiple of 4. */
  function Word(i: nat, j: nat, simdSize: nat, X: nat, Y: nat): nat
    requires simdSize >= 1 && X >= 1 && Y >= 1
  {
    var r := 2 * (i / simdSize) + j;
    Digit(r % 3, i % simdSize + r / 3 * simdSize, X, Y)
  }

  lemma LoadedIsWord(i: nat, j: nat, simdSize: nat, X: nat, Y: nat)
    requires IsSimd(simdSize) && 4 <= X <= 1024 && Y >= 1 && X % 4 == 0
    ensures Loaded(2, simdSize, X, Y)(i, j) == Word(i, j, simdSize, X, Y)
  {
    hide Row, Digit;
    RowOfDigits(2 * (i / simdSize) + j, i % simdSize, simdSize, X, Y);
  }

  /** The arrangements of a group's sizes by two IDs that are read. */
  predicate PairOf(size: Id, group: Id)
  {
    size == group || size == Id(group.x, group.z, group.y) || size == Id(group.y, group.z, group.x)
  }

  /** A group of several threads of a kernel that reads two IDs. */
  predicate Suited(simdSize: nat, group: Id, size: Id)
  {
    && IsSimd(simdSize) && 4 <= group.x && group.x % 4 == 0 && group.y >= 1 && group.z >= 1
    && simdSize < Items(group) <= 1024 && Items(group) <= 64 * simdSize && PairOf(size, group)
  }

  lemma SizesOf(group: Id, size: Id)
    requires group.x >= 1 && group.y >= 1 && group.z >= 1 && PairOf(size, group)
    ensures Items(size) == Items(group) == group.x * (group.y * group.z)
    ensures group.x <= Items(group) && group.y * group.z <= Items(group)
  {
    MulMonotone(group.y, 1, group.z);
    MulMonotone(group.x, 1, group.y * group.z);
    MulMonotone(group.y * group.z, 1, group.x);
    assert group.x * (group.y * group.z) == group.x * group.y * group.z;
    assert group.x * group.z * group.y == group.x * group.y * group.z == group.y * group.z * group.x;
  }

  /** A lane that is loaded with no pair of the group. */
  lemma Stray(simdSize: nat, group: Id, size: Id, i: nat)
    requires Suited(simdSize, group, size) && i < Items(group)
    requires Word(i, 0, simdSize, group.x, group.y) >= size.x || Word(i, 1, simdSize, group.x, group.y) >= size.y
    ensures !Served(Loaded(2, simdSize, group.x, group.y), 2, size)
  {
    hide Served, Loaded, Word, Items, Assigns;
    SizesOf(group, size);
    LoadedIsWord(i, 0, simdSize, group.x, group.y);
    LoadedIsWord(i, 1, simdSize, group.x, group.y);
    if Served(Loaded(2, simdSize, group.x, group.y), 2, size) {
      var item := ServedBy(Loaded(2, simdSize, group.x, group.y), 2, size);
      LoadsInside(item, Loaded(2, simdSize, group.x, group.y), 2, size, i);
    }
  }

  /** Lanes that are loaded with the same pair, more than there are items with it. */
  lemma Crowded(simdSize: nat, group: Id, size: Id, lanes: seq<nat>, v: nat, w: nat)
    requires Suited(simdSize, group, size) && |lanes| > size.z
    requires forall i, k | 0 <= i < k < |lanes| :: lanes[i] != lanes[k]
    requires forall k | 0 <= k < |lanes| ::
               && lanes[k] < Items(group) && Word(lanes[k], 0, simdSize, group.x, group.y) == v
               && Word(lanes[k], 1, simdSize, group.x, group.y) == w
    ensures !Served(Loaded(2, simdSize, group.x, group.y), 2, size)
  {
    hide Served, Loaded, Word, Items, Assigns;
    SizesOf(group, size);
    if Served(Loaded(2, simdSize, group.x, group.y), 2, size) {
      var load := Loaded(2, simdSize, group.x, group.y);
      var item := ServedBy(load, 2, size);
      forall k | 0 <= k < |lanes| ensures lanes[k] < Items(size) && load(lanes[k], 0) == v && load(lanes[k], 1) == w
      {
        LoadedIsWord(lanes[k], 0, simdSize, group.x, group.y);
        LoadedIsWord(lanes[k], 1, simdSize, group.x, group.y);
      }
      SamePair(item, load, 2, size, lanes, v, w);
    }
  }

  lemma WordAt(t: nat, l: nat, j: nat, simdSize: nat, X: nat, Y: nat)
    requires l < simdSize && X >= 1 && Y >= 1
    ensures Word(t * simdSize + l, j, simdSize, X, Y) == Digit((2 * t + j) % 3, l + (2 * t + j) / 3 * simdSize, X, Y)
  {
    hide Digit, Word;
    DivModUnique(t * simdSize + l, simdSize, t, l);
    WordOfLane(t * simdSize + l, t, l, j, simdSize, X, Y);
  }

  lemma WordOfLane(i: nat, t: nat, l: nat, j: nat, simdSize: nat, X: nat, Y: nat)
    requires simdSize >= 1 && X >= 1 && Y >= 1 && i / simdSize == t && i % simdSize == l
    ensures Word(i, j, simdSize, X, Y) == Digit((2 * t + j) % 3, l + (2 * t + j) / 3 * simdSize, X, Y)
  {
    hide Digit;
  }

  /** The words of lane l of threads 0, 1 and 2. */
  lemma FirstThreads(l: nat, simdSize: nat, X: nat, Y: nat)
    requires l < simdSize && X >= 1 && Y >= 1
    ensures Word(l, 0, simdSize, X, Y) == Digit(0, l, X, Y) && Word(l, 1, simdSize, X, Y) == Digit(1, l, X, Y)
    ensures Word(simdSize + l, 0, simdSize, X, Y) == Digit(2, l, X, Y)
    ensures Word(simdSize + l, 1, simdSize, X, Y) == Digit(0, simdSize + l, X, Y)
    ensures Word(2 * simdSize + l, 0, simdSize, X, Y) == Digit(1, simdSize + l, X, Y)
    ensures Word(2 * simdSize + l, 1, simdSize, X, Y) == Digit(2, simdSize + l, X, Y)
  {
    hide Digit, Word;
    WordAt(0, l, 0, simdSize, X, Y);
    WordAt(0, l, 1, simdSize, X, Y);
    WordAt(1, l, 0, simdSize, X, Y);
    WordAt(1, l, 1, simdSize, X, Y);
    WordAt(2, l, 0, simdSize, X, Y);
    WordAt(2, l, 1, simdSize, X, Y);
  }

  /** The digits of the l-th number of run a. */
  lemma DigitsInRun(a: nat, l: nat, X: nat, Y: nat)
    requires l < X && Y >= 1
    ensures Digit(0, X * a + l, X, Y) == l && Digit(1, X * a + l, X, Y) == a % Y && Digit(2, X * a + l, X, Y) == a / Y
  {
    DivModUnique(X * a + l, X, a, l);
  }

  // ---------- rows of items longer than a thread ----------

  /** Thread 1 is loaded with numbers from the SIMD size on, so there are as many values, and too many zeros. */
  lemma LongRows(simdSize: nat, group: Id, size: Id)
    requires Suited(simdSize, group, size) && group.x > simdSize
    ensures !Served(Loaded(2, simdSize, group.x, group.y), 2, size)
  {
    hide Served, Loaded, Word, Items, Digit;
    var X, Y, rows := group.x, group.y, group.y * group.z;
    SizesOf(group, size);
    FirstThreads(0, simdSize, X, Y);
    DigitsInRun(0, simdSize, X, Y);
    if simdSize >= size.y {
      Stray(simdSize, group, size, simdSize);
    } else if size == Id(Y, group.z, X) {
      FirstThreads(simdSize - 1, simdSize, X, Y);
      DigitsInRun(0, simdSize - 1, X, Y);
      if simdSize - 1 >= Y {
        Stray(simdSize, group, size, simdSize - 1);
      } else {
        MulMonotone(simdSize, simdSize + 1, group.z);
        MulMonotone(group.z, simdSize, Y);
        MulMonotone(rows, simdSize + 4, X);
        MulMonotone(simdSize + 4, simdSize * (simdSize + 1), rows);
      }
    } else {
      FewAbsent(simdSize, group, size);
      var lanes := [0] + seq(4, k requires 0 <= k < 4 => 2 * simdSize + k);
      forall k | 0 <= k < |lanes|
        ensures lanes[k] < Items(group) && Word(lanes[k], 0, simdSize, X, Y) == 0 && Word(lanes[k], 1, simdSize, X, Y) == 0
      {
        DigitsInRun(0, 0, X, Y);
        if k > 0 {
          FirstThreads(k - 1, simdSize, X, Y);
          DigitsInRun(0, simdSize + k - 1, X, Y);
        }
      }
      Crowded(simdSize, group, size, lanes, 0, 0);
    }
  }

  lemma FewAbsent(simdSize: nat, group: Id, size: Id)
    requires Suited(simdSize, group, size) && group.x > simdSize && size.y > simdSize && size != Id(group.y, group.z, group.x)
    ensures 1 <= size.z <= 4 && Items(group) >= 2 * simdSize + 4
  {
    hide Items;
    var plane := group.x * size.y;
    PlaneTimes(group, size);
    ProductAtLeast(group.x, size.y, simdSize + 4, simdSize + 1);
    if size.z >= 5 {
      ProductAtLeast(plane, size.z, (simdSize + 4) * (simdSize + 1), 5);
    } else {
      ProductAtLeast(plane, size.z, (simdSize + 4) * (simdSize + 1), 1);
    }
  }

  lemma PlaneTimes(group: Id, size: Id)
    requires PairOf(size, group) && size != Id(group.y, group.z, group.x)
    ensures group.x * size.y * size.z == Items(group)
  {
    assert group.x * group.z * group.y == group.x * group.y * group.z;
  }

  lemma ProductAtLeast(a: nat, b: nat, p: nat, q: nat)
    requires a >= p && b >= q
    ensures a * b >= p * q
  {
    MulMonotone(a, q, b);
    MulMonotone(q, p, a);
  }

  // ---------- rows of items no longer than a thread ----------

  /** A lane of thread 0 and one of thread 1 end a row of items, so there are as many values as X in both places. */
  lemma RowEnds(simdSize: nat, group: Id, size: Id)
    requires Suited(simdSize, group, size) && group.x <= simdSize && (size.x < group.x || size.y < group.x)
    ensures !Served(Loaded(2, simdSize, group.x, group.y), 2, size)
  {
    hide Served, Loaded, Word, Digit, Items;
    var X, Y := group.x, group.y;
    SizesOf(group, size);
    var q, l := EndOfRow(simdSize, X, group.y * group.z);
    if size.x < X {
      FirstThreads(X - 1, simdSize, X, Y);
      DigitsInRun(0, X - 1, X, Y);
      Stray(simdSize, group, size, X - 1);
    } else {
      FirstThreads(l, simdSize, X, Y);
      DigitsInRun(q, X - 1, X, Y);
      Stray(simdSize, group, size, simdSize + l);
    }
  }

  /** The first row of items that ends in thread 1. */
  lemma EndOfRow(simdSize: nat, X: nat, rows: nat) returns (q: nat, l: nat)
    requires 1 <= X <= simdSize < X * rows
    ensures l < X && simdSize + l == X * q + (X - 1) && simdSize + l < X * rows
  {
    q := simdSize / X;
    var c := simdSize % X;
    l := X - 1 - c;
    assert simdSize == X * q + c;
    if rows <= q { MulMonotone(X, rows, q); }
    MulMonotone(X, q + 1, rows);
    Distribute(X, q, 1);
  }

  /** With the absent ID as large as X: the group has at most 8 values each, and 4 or 8 lanes are loaded alike. */
  lemma Cubes(simdSize: nat, group: Id, size: Id)
    requires Suited(simdSize, group, size) && group.x <= simdSize && size.x >= group.x && size.y >= group.x
    requires size.z >= group.x
    ensures group.x == 4 || group.x == 8
    ensures group.y >= group.x && group.z >= group.x && Items(group) >= group.x * group.x * group.x
  {
    var X := group.x;
    ProductAtLeast(X, group.y, X, X);
    ProductAtLeast(X * group.y, group.z, X * X, X);
    if X >= 12 {
      ProductAtLeast(X, X, 12, 12);
      ProductAtLeast(X * X, X, 144, 12);
    }
  }

  /** Every lane of one run of items in thread 2 is loaded with the same pair. */
  lemma RunAlike(k: nat, a: nat, m: nat, simdSize: nat, X: nat, Y: nat)
    requires m < X && Y >= 1 && k < simdSize && simdSize + k == X * a + m
    ensures Word(2 * simdSize + k, 0, simdSize, X, Y) == a % Y && Word(2 * simdSize + k, 1, simdSize, X, Y) == a / Y
  {
    hide Word, Digit;
    FirstThreads(k, simdSize, X, Y);
    DigitsInRun(a, m, X, Y);
  }

  /** X that does not divide the SIMD size: eight lanes of one run are more than the absent IDs. */
  lemma UnevenRows(simdSize: nat, group: Id, size: Id)
    requires Suited(simdSize, group, size) && group.x <= simdSize && simdSize % group.x != 0 && size.y >= group.x
    requires size != Id(group.y, group.z, group.x)
    ensures !Served(Loaded(2, simdSize, group.x, group.y), 2, size)
  {
    hide Served, Loaded, Items;
    var X := group.x;
    assert X == 12 || X == 20 || X == 24 || X == 28;
    FewPlanes(group, size);
    if X == 12 && simdSize == 32 {
      EightAlike(simdSize, group, size, 4, 3);
    } else {
      EightAlike(simdSize, group, size, 0, 1);
    }
  }

  lemma EightAlike(simdSize: nat, group: Id, size: Id, first: nat, a: nat)
    requires Suited(simdSize, group, size) && size.z <= 7 && first + 8 <= simdSize && 2 * simdSize + first + 8 <= Items(group)
    requires group.x * a <= simdSize + first && simdSize + first + 8 <= group.x * a + group.x
    ensures !Served(Loaded(2, simdSize, group.x, group.y), 2, size)
  {
    hide Served, Loaded, Word, Items, IsSimd;
    var X, Y, skip := group.x, group.y, simdSize + first - group.x * a;
    var lanes := seq(8, k requires 0 <= k < 8 => 2 * simdSize + first + k);
    forall k | 0 <= k < 8
      ensures lanes[k] < Items(group)
      ensures Word(lanes[k], 0, simdSize, X, Y) == a % Y && Word(lanes[k], 1, simdSize, X, Y) == a / Y
    {
      RunAlike(first + k, a, skip + k, simdSize, X, Y);
    }
    Crowded(simdSize, group, size, lanes, a % Y, a / Y);
  }

  lemma FewPlanes(group: Id, size: Id)
    requires group.x >= 12 && group.y >= 1 && group.z >= 1 && PairOf(size, group) && size.y >= group.x
    requires size != Id(group.y, group.z, group.x) && Items(group) <= 1024
    ensures size.z <= 7 && Items(group) >= 144 && (group.x >= 20 ==> Items(group) >= 400)
  {
    hide Items;
    var plane, least := group.x * size.y, if group.x >= 20 then 20 else 12;
    PlaneTimes(group, size);
    ProductAtLeast(group.x, size.y, least, least);
    ProductAtLeast(plane, size.z, least * least, if size.z >= 8 then 8 else 1);
  }

  /** Groups of hardly more than two threads: thread 1 is loaded with too many pairs of zeros. */
  lemma SmallGroups(simdSize: nat, group: Id, size: Id, u: nat)
    requires Suited(simdSize, group, size) && simdSize == group.x * u && size.y >= group.x
    requires (u == 1 || u == 2 || u == 4 || u == 8) && size != Id(group.y, group.z, group.x) && group.y * group.z <= 2 * u
    ensures !Served(Loaded(2, simdSize, group.x, group.y), 2, size)
  {
    hide Served, Loaded, Word, Items, IsSimd;
    SizesOf(group, size);
    MulMonotone(group.x, group.y * group.z, if group.y * group.z <= u then u else 2 * u);
    var n := ZeroPairs(group.y, group.z, u, size.z);
    TooManyZeros(simdSize, group, size, u, n);
  }

  lemma TooManyZeros(simdSize: nat, group: Id, size: Id, u: nat, n: nat)
    requires Suited(simdSize, group, size) && simdSize == group.x * u
    requires n <= u && n <= group.y && u + n <= group.y * group.z && n >= size.z
    ensures !Served(Loaded(2, simdSize, group.x, group.y), 2, size)
  {
    hide Served, Loaded, Word, Items, PairOf;
    var lanes := ZeroLanes(simdSize, group, u, n);
    Crowded(simdSize, group, size, lanes, 0, 0);
  }

  lemma ZeroLanes(simdSize: nat, group: Id, u: nat, n: nat) returns (lanes: seq<nat>)
    requires IsSimd(simdSize) && group.x >= 4 && group.y >= 1 && group.z >= 1 && simdSize == group.x * u
    requires simdSize < Items(group) && n <= u && n <= group.y && u + n <= group.y * group.z
    ensures |lanes| == n + 1 && forall i, k | 0 <= i < k < |lanes| :: lanes[i] != lanes[k]
    ensures forall k | 0 <= k < |lanes| ::
              && lanes[k] < Items(group) && Word(lanes[k], 0, simdSize, group.x, group.y) == 0
              && Word(lanes[k], 1, simdSize, group.x, group.y) == 0
  {
    hide Word, Items, IsSimd;
    SomeSimd(simdSize);
    lanes := [0] + seq(n, k requires 0 <= k < n => ZeroLane(k, simdSize, group.x));
    forall k | 0 <= k < |lanes|
      ensures lanes[k] < Items(group) && Word(lanes[k], 0, simdSize, group.x, group.y) == 0
      ensures Word(lanes[k], 1, simdSize, group.x, group.y) == 0
    {
      if k > 0 { ZeroPair(k - 1, simdSize, group, u); } else { FirstLane(simdSize, group.x, group.y); }
    }
    forall i, k | 0 <= i < k < |lanes| ensures lanes[i] != lanes[k]
    {
      if i > 0 { Apart(group.x, i - 1, k - 1); }
    }
  }

  /** Lane 0 of run k of thread 1. */
  function ZeroLane(k: nat, simdSize: nat, X: nat): nat { simdSize + X * k }

  lemma FirstLane(simdSize: nat, X: nat, Y: nat)
    requires simdSize >= 1 && X >= 1 && Y >= 1
    ensures Word(0, 0, simdSize, X, Y) == 0 && Word(0, 1, simdSize, X, Y) == 0
  {
    hide Word, Digit;
    FirstThreads(0, simdSize, X, Y);
    DigitsInRun(0, 0, X, Y);
  }

  lemma SomeSimd(simdSize: nat)
    requires IsSimd(simdSize)
    ensures simdSize >= 8
  {
  }

  lemma Apart(X: nat, i: nat, k: nat)
    requires X >= 1 && i < k
    ensures X * i < X * k
  {
    MulMonotone(X, i + 1, k);
    Distribute(X, i, 1);
  }

  /** As many zeros of x as there are runs in thread 1, up to the first number with a z. */
  lemma ZeroPairs(Y: nat, Z: nat, u: nat, absent: nat) returns (n: nat)
    requires Y >= 1 && Z >= 1 && (absent == Y || absent == Z) && u < Y * Z <= 2 * u && (u == 1 || u == 2 || u == 4 || u == 8)
    requires (absent == Z ==> Y >= 4) && (absent == Y ==> Z >= 4)
    ensures n <= u && n <= Y && u + n <= Y * Z && n >= absent
  {
    var rows := Y * Z;
    n := if u <= Y && 2 * u <= rows then u else if rows - u <= Y then rows - u else Y;
    if absent == Z {
      ProductAtLeast(Y, Z, 4, if Z <= 5 then Z else 5);
      assert rows == (if Z == 1 then Y else if Z == 2 then 2 * Y else if Z == 3 then 3 * Y else 4 * Y);
    } else {
      ProductAtLeast(Y, Z, if Y <= 5 then Y else 5, 4);
      assert rows == (if Y == 1 then Z else if Y == 2 then 2 * Z else if Y == 3 then 3 * Z else 4 * Z);
    }
  }

  /** The lanes of thread 1 that start a run are loaded with zeros. */
  lemma ZeroPair(k: nat, simdSize: nat, group: Id, u: nat)
    requires group.x >= 4 && group.y >= 1 && group.z >= 1 && simdSize == group.x * u
    requires k < u && k < group.y && u + k < group.y * group.z
    ensures var i := simdSize + group.x * k;
            && i < Items(group) && Word(i, 0, simdSize, group.x, group.y) == 0 && Word(i, 1, simdSize, group.x, group.y) == 0
  {
    hide Word, Digit;
    var X, Y := group.x, group.y;
    Apart(X, k, u);
    FirstThreads(X * k, simdSize, X, Y);
    DigitsInRun(k, 0, X, Y);
    DivModUnique(k, Y, 0, k);
    Distribute(X, u, k);
    DigitsInRun(u + k, 0, X, Y);
    Apart(X, u + k, Y * group.z);
    ItemsByRows(group);
  }

  lemma ItemsByRows(group: Id)
    ensures Items(group) == group.x * (group.y * group.z)
  {
  }

  /** Otherwise thread 2 holds a whole run, and so there are as many absent IDs as X. */
  lemma WholeRun(simdSize: nat, group: Id, size: Id, u: nat)
    requires Suited(simdSize, group, size) && simdSize == group.x * u && group.y * group.z > 2 * u && size.z < group.x
    ensures !Served(Loaded(2, simdSize, group.x, group.y), 2, size)
  {
    hide Served, Loaded, Word, Items;
    var X, Y := group.x, group.y;
    RunInThree(simdSize, group, u);
    var lanes := seq(X, k requires 0 <= k < X => 2 * simdSize + k);
    forall k | 0 <= k < X
      ensures lanes[k] < Items(group)
      ensures Word(lanes[k], 0, simdSize, X, Y) == u % Y && Word(lanes[k], 1, simdSize, X, Y) == u / Y
    {
      RunAlike(k, u, k, simdSize, X, Y);
    }
    Crowded(simdSize, group, size, lanes, u % Y, u / Y);
  }

  lemma RunInThree(simdSize: nat, group: Id, u: nat)
    requires IsSimd(simdSize) && group.x >= 4 && simdSize == group.x * u && group.y * group.z > 2 * u
    ensures 2 * simdSize + group.x <= Items(group) && group.x <= simdSize
  {
    MulMonotone(group.x, 2 * u + 1, group.y * group.z);
    Distribute(group.x, 2 * u, 1);
    MulMonotone(group.x, 1, u);
    ItemsByRows(group);
  }

  // ---------- the few groups that are left: X is 4 or 8, and Y and Z are no less ----------

  /** A run of thread 2, and a lane of thread 0 that is loaded with the same pair. */
  lemma RunAndOne(simdSize: nat, group: Id, size: Id, u: nat)
    requires Suited(simdSize, group, size) && simdSize == group.x * u && u < group.x && u < group.y && size.z <= group.x
    requires group.y * group.z > 2 * u
    ensures !Served(Loaded(2, simdSize, group.x, group.y), 2, size)
  {
    hide Served, Loaded, Word, Items, Digit;
    var X, Y := group.x, group.y;
    RunInThree(simdSize, group, u);
    DivModUnique(u, Y, 0, u);
    var lanes := [u] + seq(X, k requires 0 <= k < X => 2 * simdSize + k);
    forall k | 0 <= k < |lanes|
      ensures lanes[k] < Items(group) && Word(lanes[k], 0, simdSize, X, Y) == u && Word(lanes[k], 1, simdSize, X, Y) == 0
    {
      if k == 0 {
        FirstThreads(u, simdSize, X, Y);
        DigitsInRun(0, u, X, Y);
      } else {
        RunAlike(k - 1, u, k - 1, simdSize, X, Y);
      }
    }
    Crowded(simdSize, group, size, lanes, u, 0);
  }

  /** Lanes below n, in rising order, that are all loaded with v and w. */
  ghost predicate Alike(lanes: seq<nat>, n: nat, simdSize: nat, X: nat, Y: nat, v: nat, w: nat)
    requires simdSize >= 1 && X >= 1 && Y >= 1
  {
    && (forall i, k | 0 <= i < k < |lanes| :: lanes[i] < lanes[k])
    && (forall k | 0 <= k < |lanes| ::
          lanes[k] < n && Word(lanes[k], 0, simdSize, X, Y) == v && Word(lanes[k], 1, simdSize, X, Y) == w)
  }

  /** Word j of lane l of thread t is digit d of the number that stands for an ID. */
  lemma WordIs(t: nat, l: nat, j: nat, g: nat, d: nat, id: Id, simdSize: nat, X: nat, Y: nat)
    requires l < simdSize && d < 3 && 2 * t + j == 3 * g + d
    requires InRange(id, X, Y) && l + g * simdSize == id.x + X * (id.y + Y * id.z)
    ensures Word(t * simdSize + l, j, simdSize, X, Y) == if d == 0 then id.x else if d == 1 then id.y else id.z
  {
    hide Word;
    WordAt(t, l, j, simdSize, X, Y);
    DivModUnique(2 * t + j, 3, g, d);
    DigitsAreUnique(id, X, Y);
  }

  lemma NoLanes(n: nat, simdSize: nat, X: nat, Y: nat, v: nat, w: nat)
    requires simdSize >= 1 && X >= 1 && Y >= 1
    ensures Alike([], n, simdSize, X, Y, v, w)
  {
  }

  lemma OneMore(lanes: seq<nat>, i: nat, n: nat, simdSize: nat, X: nat, Y: nat, v: nat, w: nat) returns (more: seq<nat>)
    requires simdSize >= 1 && X >= 1 && Y >= 1 && Alike(lanes, n, simdSize, X, Y, v, w)
    requires lanes == [] || lanes[|lanes| - 1] < i
    requires i < n && Word(i, 0, simdSize, X, Y) == v && Word(i, 1, simdSize, X, Y) == w
    ensures Alike(more, n, simdSize, X, Y, v, w) && |more| == |lanes| + 1 && more[|lanes|] == i
  {
    hide Word;
    more := lanes + [i];
  }

  /** The run of items that thread 2 begins with. */
  lemma RunMore(lanes: seq<nat>, a: nat, n: nat, simdSize: nat, X: nat, Y: nat, v: nat, w: nat) returns (more: seq<nat>)
    requires simdSize >= 1 && X >= 1 && Y >= 1 && Alike(lanes, n, simdSize, X, Y, v, w)
    requires lanes == [] || lanes[|lanes| - 1] < 2 * simdSize
    requires X <= simdSize == X * a && 2 * simdSize + X <= n && v == a % Y && w == a / Y
    ensures Alike(more, n, simdSize, X, Y, v, w) && |more| == |lanes| + X && more[|more| - 1] == 2 * simdSize + X - 1
  {
    hide Word;
    var run := seq(X, k requires 0 <= k < X => 2 * simdSize + k);
    forall k | 0 <= k < X
      ensures run[k] < n && Word(run[k], 0, simdSize, X, Y) == v && Word(run[k], 1, simdSize, X, Y) == w
    {
      RunAlike(k, a, k, simdSize, X, Y);
    }
    more := lanes + run;
  }

  lemma AlikeIsCrowded(simdSize: nat, group: Id, size: Id, lanes: seq<nat>, X: nat, Y: nat, v: nat, w: nat)
    requires Suited(simdSize, group, size) && X == group.x && Y == group.y && |lanes| > size.z
    requires Alike(lanes, Items(group), simdSize, X, Y, v, w)
    ensures !Served(Loaded(2, simdSize, X, Y), 2, size)
  {
    hide Served, Loaded, Word, Items;
    Crowded(simdSize, group, size, lanes, v, w);
  }

  lemma StrayAt(simdSize: nat, group: Id, size: Id, i: nat, j: nat, X: nat, Y: nat)
    requires Suited(simdSize, group, size) && X == group.x && Y == group.y && i < X * (Y * group.z) && j < 2
    requires Word(i, j, simdSize, X, Y) >= (if j == 0 then size.x else size.y)
    ensures !Served(Loaded(2, simdSize, X, Y), 2, size)
  {
    hide Served, Loaded, Word, Items;
    ItemsByRows(group);
    Stray(simdSize, group, size, i);
  }

  /** Seven lanes that are loaded with (2, 0). */
  lemma FoursOfEightAlike(n: nat) returns (lanes: seq<nat>)
    requires n > 60
    ensures |lanes| == 7 && Alike(lanes, n, 8, 4, 4, 2, 0)
  {
    hide Alike, Word;
    NoLanes(n, 8, 4, 4, 2, 0);
    lanes := [];
    WordIs(0, 2, 0, 0, 0, Id(2, 0, 0), 8, 4, 4);
    WordIs(0, 2, 1, 0, 1, Id(2, 0, 0), 8, 4, 4);
    lanes := OneMore(lanes, 2, n, 8, 4, 4, 2, 0);
    lanes := RunMore(lanes, 2, n, 8, 4, 4, 2, 0);
    WordIs(7, 0, 0, 4, 2, Id(0, 0, 2), 8, 4, 4);
    WordIs(7, 0, 1, 5, 0, Id(0, 2, 2), 8, 4, 4);
    lanes := OneMore(lanes, 56, n, 8, 4, 4, 2, 0);
    WordIs(7, 4, 0, 4, 2, Id(0, 1, 2), 8, 4, 4);
    WordIs(7, 4, 1, 5, 0, Id(0, 3, 2), 8, 4, 4);
    lanes := OneMore(lanes, 60, n, 8, 4, 4, 2, 0);
  }

  /** Nine lanes that are loaded with (0, 1). */
  lemma FoursOfSixteenAlike(n: nat) returns (lanes: seq<nat>)
    requires n > 35
    ensures |lanes| == 9 && Alike(lanes, n, 16, 4, 4, 0, 1)
  {
    hide Alike, Word;
    NoLanes(n, 16, 4, 4, 0, 1);
    lanes := [];
    WordIs(0, 4, 0, 0, 0, Id(0, 1, 0), 16, 4, 4);
    WordIs(0, 4, 1, 0, 1, Id(0, 1, 0), 16, 4, 4);
    lanes := OneMore(lanes, 4, n, 16, 4, 4, 0, 1);
    WordIs(1, 1, 0, 0, 2, Id(1, 0, 0), 16, 4, 4);
    WordIs(1, 1, 1, 1, 0, Id(1, 0, 1), 16, 4, 4);
    lanes := OneMore(lanes, 17, n, 16, 4, 4, 0, 1);
    WordIs(1, 5, 0, 0, 2, Id(1, 1, 0), 16, 4, 4);
    WordIs(1, 5, 1, 1, 0, Id(1, 1, 1), 16, 4, 4);
    lanes := OneMore(lanes, 21, n, 16, 4, 4, 0, 1);
    WordIs(1, 9, 0, 0, 2, Id(1, 2, 0), 16, 4, 4);
    WordIs(1, 9, 1, 1, 0, Id(1, 2, 1), 16, 4, 4);
    lanes := OneMore(lanes, 25, n, 16, 4, 4, 0, 1);
    WordIs(1, 13, 0, 0, 2, Id(1, 3, 0), 16, 4, 4);
    WordIs(1, 13, 1, 1, 0, Id(1, 3, 1), 16, 4, 4);
    lanes := OneMore(lanes, 29, n, 16, 4, 4, 0, 1);
    lanes := RunMore(lanes, 4, n, 16, 4, 4, 0, 1);
  }

  /** Ten lanes that are loaded with (0, 2). */
  lemma FoursOfThirtyTwoAlike(n: nat) returns (lanes: seq<nat>)
    requires n > 67
    ensures |lanes| == 10 && Alike(lanes, n, 32, 4, 4, 0, 2)
  {
    hide Alike, Word;
    NoLanes(n, 32, 4, 4, 0, 2);
    lanes := [];
    WordIs(0, 8, 0, 0, 0, Id(0, 2, 0), 32, 4, 4);
    WordIs(0, 8, 1, 0, 1, Id(0, 2, 0), 32, 4, 4);
    lanes := OneMore(lanes, 8, n, 32, 4, 4, 0, 2);
    WordIs(0, 24, 0, 0, 0, Id(0, 2, 1), 32, 4, 4);
    WordIs(0, 24, 1, 0, 1, Id(0, 2, 1), 32, 4, 4);
    lanes := OneMore(lanes, 24, n, 32, 4, 4, 0, 2);
    WordIs(1, 2, 0, 0, 2, Id(2, 0, 0), 32, 4, 4);
    WordIs(1, 2, 1, 1, 0, Id(2, 0, 2), 32, 4, 4);
    lanes := OneMore(lanes, 34, n, 32, 4, 4, 0, 2);
    WordIs(1, 6, 0, 0, 2, Id(2, 1, 0), 32, 4, 4);
    WordIs(1, 6, 1, 1, 0, Id(2, 1, 2), 32, 4, 4);
    lanes := OneMore(lanes, 38, n, 32, 4, 4, 0, 2);
    WordIs(1, 10, 0, 0, 2, Id(2, 2, 0), 32, 4, 4);
    WordIs(1, 10, 1, 1, 0, Id(2, 2, 2), 32, 4, 4);
    lanes := OneMore(lanes, 42, n, 32, 4, 4, 0, 2);
    WordIs(1, 14, 0, 0, 2, Id(2, 3, 0), 32, 4, 4);
    WordIs(1, 14, 1, 1, 0, Id(2, 3, 2), 32, 4, 4);
    lanes := OneMore(lanes, 46, n, 32, 4, 4, 0, 2);
    lanes := RunMore(lanes, 8, n, 32, 4, 4, 0, 2);
  }

  /** Thirteen lanes that are loaded with (2, 0). */
  lemma EightsOfSixteenAlike(n: nat) returns (lanes: seq<nat>)
    requires n > 264
    ensures |lanes| == 13 && Alike(lanes, n, 16, 8, 8, 2, 0)
  {
    hide Alike, Word;
    NoLanes(n, 16, 8, 8, 2, 0);
    lanes := [];
    WordIs(0, 2, 0, 0, 0, Id(2, 0, 0), 16, 8, 8);
    WordIs(0, 2, 1, 0, 1, Id(2, 0, 0), 16, 8, 8);
    lanes := OneMore(lanes, 2, n, 16, 8, 8, 2, 0);
    lanes := RunMore(lanes, 2, n, 16, 8, 8, 2, 0);
    WordIs(13, 0, 0, 8, 2, Id(0, 0, 2), 16, 8, 8);
    WordIs(13, 0, 1, 9, 0, Id(0, 2, 2), 16, 8, 8);
    lanes := OneMore(lanes, 208, n, 16, 8, 8, 2, 0);
    WordIs(13, 8, 0, 8, 2, Id(0, 1, 2), 16, 8, 8);
    WordIs(13, 8, 1, 9, 0, Id(0, 3, 2), 16, 8, 8);
    lanes := OneMore(lanes, 216, n, 16, 8, 8, 2, 0);
    WordIs(16, 0, 0, 10, 2, Id(0, 4, 2), 16, 8, 8);
    WordIs(16, 0, 1, 11, 0, Id(0, 6, 2), 16, 8, 8);
    lanes := OneMore(lanes, 256, n, 16, 8, 8, 2, 0);
    WordIs(16, 8, 0, 10, 2, Id(0, 5, 2), 16, 8, 8);
    WordIs(16, 8, 1, 11, 0, Id(0, 7, 2), 16, 8, 8);
    lanes := OneMore(lanes, 264, n, 16, 8, 8, 2, 0);
  }

  /** Thirteen lanes that are loaded with (4, 0). */
  lemma EightsOfThirtyTwoAlike(n: nat) returns (lanes: seq<nat>)
    requires n > 440
    ensures |lanes| == 13 && Alike(lanes, n, 32, 8, 8, 4, 0)
  {
    hide Alike, Word;
    NoLanes(n, 32, 8, 8, 4, 0);
    lanes := [];
    WordIs(0, 4, 0, 0, 0, Id(4, 0, 0), 32, 8, 8);
    WordIs(0, 4, 1, 0, 1, Id(4, 0, 0), 32, 8, 8);
    lanes := OneMore(lanes, 4, n, 32, 8, 8, 4, 0);
    lanes := RunMore(lanes, 4, n, 32, 8, 8, 4, 0);
    WordIs(13, 0, 0, 8, 2, Id(0, 0, 4), 32, 8, 8);
    WordIs(13, 0, 1, 9, 0, Id(0, 4, 4), 32, 8, 8);
    lanes := OneMore(lanes, 416, n, 32, 8, 8, 4, 0);
    WordIs(13, 8, 0, 8, 2, Id(0, 1, 4), 32, 8, 8);
    WordIs(13, 8, 1, 9, 0, Id(0, 5, 4), 32, 8, 8);
    lanes := OneMore(lanes, 424, n, 32, 8, 8, 4, 0);
    WordIs(13, 16, 0, 8, 2, Id(0, 2, 4), 32, 8, 8);
    WordIs(13, 16, 1, 9, 0, Id(0, 6, 4), 32, 8, 8);
    lanes := OneMore(lanes, 432, n, 32, 8, 8, 4, 0);
    WordIs(13, 24, 0, 8, 2, Id(0, 3, 4), 32, 8, 8);
    WordIs(13, 24, 1, 9, 0, Id(0, 7, 4), 32, 8, 8);
    lanes := OneMore(lanes, 440, n, 32, 8, 8, 4, 0);
  }

  lemma FoursOfEight(group: Id, size: Id)
    requires Suited(8, group, size) && group.x == 4 && group.y >= 4 && group.z >= 4
    ensures !Served(Loaded(2, 8, 4, group.y), 2, size)
  {
    hide Served, Loaded, Items, IsSimd, Word, Alike;
    var Y, Z := group.y, group.z;
    ProductAtLeast(Y, Z, if Y <= 7 then Y else 7, if Z <= 7 then Z else 7);
    ItemsByRows(group);
    if size.z == 4 {
      RunAndOne(8, group, size, 2);
    } else if Y >= 7 {
      WordIs(5, 0, 0, 3, 1, Id(0, 6, 0), 8, 4, Y);
      StrayAt(8, group, size, 40, 0, 4, Y);
    } else if Y == 6 {
      WordIs(8, 0, 0, 5, 1, Id(0, 4, 1), 8, 4, 6);
      StrayAt(8, group, size, 64, 0, 4, 6);
    } else if Y == 5 && Z == 4 {
      WordIs(3, 0, 1, 2, 1, Id(0, 4, 0), 8, 4, 5);
      StrayAt(8, group, size, 24, 1, 4, 5);
    } else if Y == 5 {
      WordIs(11, 0, 0, 7, 1, Id(0, 4, 2), 8, 4, 5);
      StrayAt(8, group, size, 88, 0, 4, 5);
    } else if Z >= 7 {
      WordIs(13, 0, 0, 8, 2, Id(0, 0, 4), 8, 4, 4);
      StrayAt(8, group, size, 104, 0, 4, 4);
    } else {
      var lanes := FoursOfEightAlike(Items(group));
      AlikeIsCrowded(8, group, size, lanes, 4, 4, 2, 0);
    }
  }

  lemma FoursOfSixteen(group: Id, size: Id)
    requires Suited(16, group, size) && group.x == 4 && group.y >= 4 && group.z >= 4
    ensures !Served(Loaded(2, 16, 4, group.y), 2, size)
  {
    hide Served, Loaded, Items, IsSimd, Word, Alike;
    var Y, Z := group.y, group.z;
    ProductAtLeast(Y, Z, if Y <= 5 then Y else 5, if Z <= 8 then Z else 8);
    ItemsByRows(group);
    if size.z == 4 {
      TooManyZeros(16, group, size, 4, 4);
    } else if Y >= 5 {
      WordIs(2, 0, 0, 1, 1, Id(0, 4, 0), 16, 4, Y);
      StrayAt(16, group, size, 32, 0, 4, Y);
    } else if Z >= 8 {
      WordIs(7, 0, 0, 4, 2, Id(0, 0, 4), 16, 4, 4);
      StrayAt(16, group, size, 112, 0, 4, 4);
    } else {
      var lanes := FoursOfSixteenAlike(Items(group));
      AlikeIsCrowded(16, group, size, lanes, 4, 4, 0, 1);
    }
  }

  lemma FoursOfThirtyTwo(group: Id, size: Id)
    requires Suited(32, group, size) && group.x == 4 && group.y >= 4 && group.z >= 4
    ensures !Served(Loaded(2, 32, 4, group.y), 2, size)
  {
    hide Served, Loaded, Items, IsSimd, Word, Alike;
    var Y, Z := group.y, group.z;
    ProductAtLeast(Y, Z, if Y <= 9 then Y else 9, if Z <= 9 then Z else 9);
    ItemsByRows(group);
    if size.z == 4 {
      TooManyZeros(32, group, size, 8, 4);
    } else if Y >= 9 {
      WordIs(2, 0, 0, 1, 1, Id(0, 8, 0), 32, 4, Y);
      StrayAt(32, group, size, 64, 0, 4, Y);
    } else if Y == 8 {
      WordIs(2, 16, 0, 1, 1, Id(0, 4, 1), 32, 4, 8);
      StrayAt(32, group, size, 80, 0, 4, 8);
    } else if Y == 7 {
      WordIs(2, 12, 0, 1, 1, Id(0, 4, 1), 32, 4, 7);
      StrayAt(32, group, size, 76, 0, 4, 7);
    } else if Y == 6 {
      WordIs(2, 8, 0, 1, 1, Id(0, 4, 1), 32, 4, 6);
      StrayAt(32, group, size, 72, 0, 4, 6);
    } else if Y == 5 {
      WordIs(2, 4, 0, 1, 1, Id(0, 4, 1), 32, 4, 5);
      StrayAt(32, group, size, 68, 0, 4, 5);
    } else if Z >= 9 {
      WordIs(4, 0, 0, 2, 2, Id(0, 0, 4), 32, 4, 4);
      StrayAt(32, group, size, 128, 0, 4, 4);
    } else {
      var lanes := FoursOfThirtyTwoAlike(Items(group));
      AlikeIsCrowded(32, group, size, lanes, 4, 4, 0, 2);
    }
  }

  lemma EightsOfSixteen(group: Id, size: Id)
    requires Suited(16, group, size) && group.x == 8 && group.y >= 8 && group.z >= 8
    ensures !Served(Loaded(2, 16, 8, group.y), 2, size)
  {
    hide Served, Loaded, Items, IsSimd, Word, Alike;
    var Y, Z := group.y, group.z;
    ProductAtLeast(Y, Z, if Y <= 11 then Y else 11, if Z <= 13 then Z else 13);
    ItemsByRows(group);
    if size.z == 8 {
      RunAndOne(16, group, size, 2);
    } else if Y >= 11 {
      WordIs(8, 0, 0, 5, 1, Id(0, 10, 0), 16, 8, Y);
      StrayAt(16, group, size, 128, 0, 8, Y);
    } else if Y == 10 {
      WordIs(14, 0, 0, 9, 1, Id(0, 8, 1), 16, 8, 10);
      StrayAt(16, group, size, 224, 0, 8, 10);
    } else if Y == 9 {
      WordIs(20, 0, 0, 13, 1, Id(0, 8, 2), 16, 8, 9);
      StrayAt(16, group, size, 320, 0, 8, 9);
    } else if Z >= 13 {
      WordIs(49, 0, 0, 32, 2, Id(0, 0, 8), 16, 8, 8);
      StrayAt(16, group, size, 784, 0, 8, 8);
    } else {
      var lanes := EightsOfSixteenAlike(Items(group));
      AlikeIsCrowded(16, group, size, lanes, 8, 8, 2, 0);
    }
  }

  lemma EightsOfThirtyTwo(group: Id, size: Id)
    requires Suited(32, group, size) && group.x == 8 && group.y >= 8 && group.z >= 8
    ensures !Served(Loaded(2, 32, 8, group.y), 2, size)
  {
    hide Served, Loaded, Items, IsSimd, Word, Alike;
    var Y, Z := group.y, group.z;
    ProductAtLeast(Y, Z, if Y <= 13 then Y else 13, if Z <= 13 then Z else 13);
    ItemsByRows(group);
    if size.z == 8 {
      RunAndOne(32, group, size, 4);
    } else if Y >= 13 {
      WordIs(5, 0, 0, 3, 1, Id(0, 12, 0), 32, 8, Y);
      StrayAt(32, group, size, 160, 0, 8, Y);
    } else if Y == 12 {
      WordIs(8, 0, 0, 5, 1, Id(0, 8, 1), 32, 8, 12);
      StrayAt(32, group, size, 256, 0, 8, 12);
    } else if Y == 11 {
      WordIs(8, 0, 0, 5, 1, Id(0, 9, 1), 32, 8, 11);
      StrayAt(32, group, size, 256, 0, 8, 11);
    } else if Y == 10 {
      WordIs(11, 0, 0, 7, 1, Id(0, 8, 2), 32, 8, 10);
      StrayAt(32, group, size, 352, 0, 8, 10);
    } else if Y == 9 {
      WordIs(17, 0, 0, 11, 1, Id(0, 8, 4), 32, 8, 9);
      StrayAt(32, group, size, 544, 0, 8, 9);
    } else if Z >= 13 {
      WordIs(25, 0, 0, 16, 2, Id(0, 0, 8), 32, 8, 8);
      StrayAt(32, group, size, 800, 0, 8, 8);
    } else {
      var lanes := EightsOfThirtyTwoAlike(Items(group));
      AlikeIsCrowded(32, group, size, lanes, 8, 8, 4, 0);
    }
  }

  // ---------- every group ----------

  lemma SuitedIsNotServed(simdSize: nat, group: Id, size: Id)
    requires Suited(simdSize, group, size)
    ensures !Served(Loaded(2, simdSize, group.x, group.y), 2, size)
  {
    hide Served, Loaded, Items;
    var X, rows := group.x, group.y * group.z;
    if X > simdSize {
      LongRows(simdSize, group, size);
    } else if size.x < X || size.y < X {
      RowEnds(simdSize, group, size);
    } else if size.z >= X {
      CubeIsNotServed(simdSize, group, size);
    } else if simdSize % X != 0 {
      UnevenRows(simdSize, group, size);
    } else {
      var u := RunsOfThread(simdSize, X);
      if rows <= 2 * u { SmallGroups(simdSize, group, size, u); } else { WholeRun(simdSize, group, size, u); }
    }
  }

  lemma RunsOfThread(simdSize: nat, X: nat) returns (u: nat)
    requires IsSimd(simdSize) && 4 <= X <= simdSize && X % 4 == 0 && simdSize % X == 0
    ensures simdSize == X * u && (u == 1 || u == 2 || u == 4 || u == 8)
  {
    u := simdSize / X;
    assert X == 4 || X == 8 || X == 12 || X == 16 || X == 20 || X == 24 || X == 28 || X == 32;
  }

  lemma CubeIsNotServed(simdSize: nat, group: Id, size: Id)
    requires Suited(simdSize, group, size) && group.x <= simdSize && size.x >= group.x && size.y >= group.x
    requires size.z >= group.x
    ensures !Served(Loaded(2, simdSize, group.x, group.y), 2, size)
  {
    hide Served, Loaded, Items;
    Cubes(simdSize, group, size);
    if group.x == 4 {
      if simdSize == 8 {
        FoursOfEight(group, size);
      } else if simdSize == 16 {
        FoursOfSixteen(group, size);
      } else {
        FoursOfThirtyTwo(group, size);
      }
    } else if simdSize == 8 {
      EightsOfEight(group, size);
    } else if simdSize == 16 {
      EightsOfSixteen(group, size);
    } else {
      EightsOfThirtyTwo(group, size);
    }
  }

  /** More than 64 threads, but for one group. */
  lemma EightsOfEight(group: Id, size: Id)
    requires Suited(8, group, size) && group.x == 8 && group.y >= 8 && group.z >= 8
    ensures !Served(Loaded(2, 8, 8, group.y), 2, size)
  {
    hide Served, Loaded, Items;
    ItemsByRows(group);
    ProductAtLeast(group.y, group.z, if group.y > 8 then 9 else 8, if group.z > 8 then 9 else 8);
    RunAndOne(8, group, size, 1);
  }

  /** When X does not suit the generator, some lane is loaded with an x that is none, or lane 0 of thread 1 with an x
      where the kernel reads another ID. */
  lemma UnsuitedIsNotServed(simdSize: nat, group: Id, size: Id)
    requires IsSimd(simdSize) && group.x >= 1 && group.y >= 1 && group.z >= 1 && group.x % 4 != 0
    requires simdSize < Items(group) <= 1024 && PairOf(size, group)
    ensures !Served(Loaded(2, simdSize, group.x, group.y), 2, size)
  {
    hide Served, Loaded, Items, StoredLane, PairOf;
    var X, Y, load := group.x, group.y, Loaded(2, simdSize, group.x, group.y);
    SizesOf(group, size);
    SidesBelow(group, size);
    if Served(load, 2, size) {
      var item := ServedBy(load, 2, size);
      if Divisible(X, Y, group.z) {
        FirstOfThreadOne(item, simdSize, group, size);
      } else {
        ItemsByRows(group);
        NumbersBelow(group, 0);
        var h := HugeLane(simdSize, X, Y, group.z);
        var i, j := XOfLane(h, simdSize, X, Y);
        if i < Items(group) {
          LoadsInside(item, load, 2, size, i);
        } else {
          MulMonotone(X, if Y * group.z >= 3 then 3 else 0, Y * group.z);
          FirstOfThreadOne(item, simdSize, group, size);
        }
      }
    }
  }

  lemma SidesBelow(group: Id, size: Id)
    requires group.x >= 1 && group.y >= 1 && group.z >= 1 && PairOf(size, group)
    ensures size.x <= Items(group) && size.y <= Items(group) && (size.y == group.y || size.y == group.z)
    ensures group.y <= group.y * group.z && group.z <= group.y * group.z
  {
    hide Items;
    SizesOf(group, size);
    MulMonotone(group.y, 1, group.z);
    MulMonotone(group.z, 1, group.y);
  }

  /** Where the x of the generator's lane h is loaded. */
  lemma XOfLane(h: nat, simdSize: nat, X: nat, Y: nat) returns (i: nat, j: nat)
    requires simdSize >= 1 && X >= 1
    ensures j < 2 && Loaded(2, simdSize, X, Y)(i, j) == StoredLane(h / simdSize, h % simdSize, simdSize, X, Y).x
    ensures 2 * i <= 3 * h && (h < 2 * simdSize ==> i == h)
  {
    hide StoredLane, Loaded, Row;
    var g, l := h / simdSize, h % simdSize;
    LaneSplits(h, simdSize);
    var t;
    i, t, j := ThreadOfRow(h, g, l, simdSize);
    LoadedRow(2, t, l, j, simdSize, X, Y);
    RowsOfThread(g, l, simdSize, X, Y);
  }

  /** The thread that is loaded with row 3 * g, as word j. */
  lemma ThreadOfRow(h: nat, g: nat, l: nat, s: nat) returns (i: nat, t: nat, j: nat)
    requires h == g * s + l && l < s
    ensures j < 2 && 2 * t + j == 3 * g && i == t * s + l && 2 * i <= 3 * h && (h < 2 * s ==> i == h)
  {
    t, j := 3 * g / 2, 3 * g % 2;
    i := t * s + l;
    MulMonotone(s, 2 * t, 3 * g);
    assert s * (2 * t) == 2 * (t * s) && s * (3 * g) == 3 * (g * s);
    if g >= 2 { MulMonotone(s, 2, g); }
  }

  /** In a row longer than a thread, the second word of thread 1's first lane is the SIMD size. */
  lemma FirstOfThreadOne(item: nat -> Id, simdSize: nat, group: Id, size: Id)
    requires IsSimd(simdSize) && simdSize + 3 <= group.x <= 1024 && group.y >= 1 && simdSize < Items(size) && size.y < simdSize
    ensures !Assigns(item, Loaded(2, simdSize, group.x, group.y), 2, size)
  {
    hide Loaded, Assigns, Items, StoredLane, Row;
    var X, Y, load := group.x, group.y, Loaded(2, simdSize, group.x, group.y);
    DivModUnique(simdSize, X, 0, simdSize);
    WrittenWithinRow(1, 0, simdSize, simdSize, X, Y);
    LoadedRow(2, 1, 0, 1, simdSize, X, Y);
    RowsOfThread(1, 0, simdSize, X, Y);
    if Assigns(item, load, 2, size) { LoadsInside(item, load, 2, size, simdSize); }
  }

  /** The theorem.  Several threads whose kernel reads two IDs are never loaded with the IDs of a group's items. */
  lemma TwoChannelsNever(simdSize: nat, group: Id, size: Id)
    requires IsSimd(simdSize) && group.x >= 1 && group.y >= 1 && group.z >= 1
    requires simdSize < Items(group) <= 1024 && Items(group) <= 64 * simdSize && PairOf(size, group)
    ensures !Served(Loaded(2, simdSize, group.x, group.y), 2, size)
  {
    hide Served, Loaded, Items, PairOf;
    if group.x % 4 == 0 {
      SuitedIsNotServed(simdSize, group, size);
    } else {
      UnsuitedIsNotServed(simdSize, group, size);
    }
  }
}
