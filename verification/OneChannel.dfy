/** Kernels of several threads that read one ID.

    Thread 0 is loaded with the x row of the generator's thread 0, thread 1 with its y row, thread 2 with its z row,
    thread 3 with the x row of the generator's thread 1, and so on.  The group is served exactly when the x rows,
    the y rows and the z rows that are loaded each hold every value equally often.
 */
module OneChannel {
  import opened Bits
  import opened LocalIds
  import opened PackedIds
  import opened WorkGroup
  import opened Serving
  import opened PayloadStride

  // ---------- lanes by the kind of their row ----------

  /** The lane that is loaded with digit d of number m. */
  function LaneFor(d: nat, m: nat, simdSize: nat): nat
    requires simdSize >= 1
  {
    (3 * (m / simdSize) + d) * simdSize + m % simdSize
  }

  /** Lane i is loaded with digit Kind(i) of number Number(i). */
  function Kind(i: nat, simdSize: nat): (d: nat)
    requires simdSize >= 1
    ensures d < 3
  {
    i / simdSize % 3
  }

  function Number(i: nat, simdSize: nat): nat
    requires simdSize >= 1
  {
    i / simdSize / 3 * simdSize + i % simdSize
  }

  lemma LaneForInverse(i: nat, simdSize: nat)
    requires simdSize >= 1
    ensures LaneFor(Kind(i, simdSize), Number(i, simdSize), simdSize) == i
  {
    var t, l := i / simdSize, i % simdSize;
    assert t == 3 * (t / 3) + t % 3;
    DivModUnique(Number(i, simdSize), simdSize, t / 3, l);
  }

  lemma LaneForKind(d: nat, m: nat, simdSize: nat)
    requires simdSize >= 1 && d < 3
    ensures Kind(LaneFor(d, m, simdSize), simdSize) == d && Number(LaneFor(d, m, simdSize), simdSize) == m
  {
    var g, l := m / simdSize, m % simdSize;
    DivModUnique(LaneFor(d, m, simdSize), simdSize, 3 * g + d, l);
    DivModUnique(3 * g + d, 3, g, d);
  }

  lemma LoadedDigit(i: nat, simdSize: nat, X: nat, Y: nat)
    requires IsSimd(simdSize) && 4 <= X <= 1024 && Y >= 1 && X % 4 == 0
    ensures Loaded(1, simdSize, X, Y)(i, 0) == Digit(Kind(i, simdSize), Number(i, simdSize), X, Y)
  {
    hide Row, Digit;
    RowOfDigits(i / simdSize, i % simdSize, simdSize, X, Y);
  }

  /** Of the first k rows, those of kind d. */
  function RowsOf(k: nat, d: nat): nat
    requires d < 3
  {
    (k + 2 - d) / 3
  }

  /** How many numbers' digits d a group of n lanes is loaded with: those of the numbers below. */
  function Reach(n: nat, simdSize: nat, d: nat): nat
    requires simdSize >= 1 && d < 3
  {
    RowsOf(n / simdSize, d) * simdSize + (if n / simdSize % 3 == d then n % simdSize else 0)
  }

  lemma RowsOfIff(k: nat, d: nat, g: nat)
    requires d < 3
    ensures 3 * g + d < k <==> g < RowsOf(k, d)
    ensures 3 * g + d == k <==> g == RowsOf(k, d) && k % 3 == d
  {
  }

  lemma ReachIff(n: nat, simdSize: nat, d: nat, m: nat)
    requires simdSize >= 1 && d < 3
    ensures LaneFor(d, m, simdSize) < n <==> m < Reach(n, simdSize, d)
  {
    hide RowsOf;
    var k, r, g, l := n / simdSize, n % simdSize, m / simdSize, m % simdSize;
    assert n == k * simdSize + r && m == g * simdSize + l;
    ReachParts(k, r, g, l, simdSize, d);
  }

  lemma ReachParts(k: nat, r: nat, g: nat, l: nat, simdSize: nat, d: nat)
    requires d < 3 && l < simdSize && r < simdSize
    ensures (3 * g + d) * simdSize + l < k * simdSize + r
            <==> g * simdSize + l < RowsOf(k, d) * simdSize + (if k % 3 == d then r else 0)
  {
    RowsOfIff(k, d, g);
    hide RowsOf;
    BelowBySteps(3 * g + d, l, k, r, simdSize);
    BelowBySteps(g, l, RowsOf(k, d), if k % 3 == d then r else 0, simdSize);
  }

  lemma BelowBySteps(a: nat, l: nat, b: nat, r: nat, step: nat)
    requires l < step && r < step
    ensures a * step + l < b * step + r <==> a < b || (a == b && l < r)
  {
    if a < b { MulMonotone(step, a + 1, b); } else if a > b { MulMonotone(step, b + 1, a); }
  }

  /** Every lane is of one kind. */
  lemma ReachesAddUp(n: nat, simdSize: nat)
    requires simdSize >= 1
    ensures Reach(n, simdSize, 0) + Reach(n, simdSize, 1) + Reach(n, simdSize, 2) == n
    ensures Reach(n, simdSize, 0) >= Reach(n, simdSize, 1) >= Reach(n, simdSize, 2)
  {
    hide RowsOf;
    var k := n / simdSize;
    RowsAddUp(k);
    ThreeKinds(simdSize, RowsOf(k, 0), RowsOf(k, 1), RowsOf(k, 2));
    assert n == k * simdSize + n % simdSize;
  }

  lemma ThreeKinds(s: nat, a: nat, b: nat, c: nat)
    requires c <= b <= a <= c + 1
    ensures a * s + b * s + c * s == (a + b + c) * s
    ensures a * s == b * s + (if a > b then s else 0) && b * s == c * s + (if b > c then s else 0)
  {
    Distribute(s, a, b);
    Distribute(s, a + b, c);
    Distribute(s, b, a - b);
    Distribute(s, c, b - c);
  }

  lemma RowsAddUp(k: nat)
    ensures RowsOf(k, 0) + RowsOf(k, 1) + RowsOf(k, 2) == k
    ensures RowsOf(k, 0) == RowsOf(k, 1) + (if k % 3 == 1 then 1 else 0)
    ensures RowsOf(k, 1) == RowsOf(k, 2) + (if k % 3 == 2 then 1 else 0)
  {
  }

  // ---------- zeros and top values ----------

  /** From a number to the next with a larger digit d. */
  function Stride(d: nat, X: nat, Y: nat): nat { if d == 0 then 1 else if d == 1 then X else X * Y }

  function Up(d: nat, m: nat, v: nat, X: nat, Y: nat): nat { m + v * Stride(d, X, Y) }

  /** So many strides down, a digit v is a zero. */
  lemma StridesDown(d: nat, m: nat, v: nat, X: nat, Y: nat)
    requires d < 3 && X >= 1 && Y >= 1 && Digit(d, m, X, Y) == v
    ensures m >= v * Stride(d, X, Y) && Digit(d, m - v * Stride(d, X, Y), X, Y) == 0
  {
    hide IdOf, Stride, Value, Digit;
    var id := IdOf(m, X, Y);
    IdOfInRange(m, X, Y);
    DigitOfId(d, m, X, Y);
    var lower := if d == 0 then Id(0, id.y, id.z) else if d == 1 then Id(id.x, 0, id.z) else Id(id.x, id.y, 0);
    WithoutDigit(d, id, X, Y);
    DigitsAreUnique(lower, X, Y);
    DigitOfId(d, Value(lower, X, Y), X, Y);
  }

  lemma DigitOfId(d: nat, m: nat, X: nat, Y: nat)
    requires X >= 1 && Y >= 1
    ensures var id := IdOf(m, X, Y); Digit(d, m, X, Y) == if d == 0 then id.x else if d == 1 then id.y else id.z
  {
  }

  lemma WithoutDigit(d: nat, id: Id, X: nat, Y: nat)
    requires d < 3
    ensures d == 0 ==> Value(Id(0, id.y, id.z), X, Y) + id.x * Stride(d, X, Y) == Value(id, X, Y)
    ensures d == 1 ==> Value(Id(id.x, 0, id.z), X, Y) + id.y * Stride(d, X, Y) == Value(id, X, Y)
    ensures d == 2 ==> Value(Id(id.x, id.y, 0), X, Y) + id.z * Stride(d, X, Y) == Value(id, X, Y)
  {
    Distribute(X, id.y, Y * id.z);
    assert X * (Y * id.z) == id.z * (X * Y);
    assert Y * 0 == 0;
  }

  /** The lane of the zero below a lane that is loaded with v. */
  function Down(i: nat, v: nat, simdSize: nat, X: nat, Y: nat): nat
    requires simdSize >= 1
  {
    var d, m := Kind(i, simdSize), Number(i, simdSize);
    var k := v * Stride(d, X, Y);
    LaneFor(d, if k <= m then m - k else 0, simdSize)
  }

  lemma DownIsZero(i: nat, n: nat, v: nat, simdSize: nat, X: nat, Y: nat)
    requires IsSimd(simdSize) && 4 <= X <= 1024 && Y >= 1 && X % 4 == 0
    requires i < n && Loaded(1, simdSize, X, Y)(i, 0) == v
    ensures Down(i, v, simdSize, X, Y) < n && Loaded(1, simdSize, X, Y)(Down(i, v, simdSize, X, Y), 0) == 0
    ensures var z, k := Down(i, v, simdSize, X, Y), v * Stride(Kind(i, simdSize), X, Y);
            Kind(z, simdSize) == Kind(i, simdSize) && Number(z, simdSize) + k == Number(i, simdSize)
  {
    hide Digit, Stride, LaneFor, Kind, Number, Reach, IsSimd, Loaded;
    SimdPositive(simdSize);
    var d, m := Kind(i, simdSize), Number(i, simdSize);
    LoadedDigit(i, simdSize, X, Y);
    LaneForInverse(i, simdSize);
    StridesDown(d, m, v, X, Y);
    var low := m - v * Stride(d, X, Y);
    LaneForKind(d, low, simdSize);
    ReachIff(n, simdSize, d, m);
    ReachIff(n, simdSize, d, low);
    LoadedDigit(LaneFor(d, low, simdSize), simdSize, X, Y);
  }

  lemma SimdPositive(simdSize: nat)
    requires IsSimd(simdSize)
    ensures simdSize >= 8
  {
  }

  /** In a group that is served every zero has its top value, so many strides up: there are as many top values as
      zeros, and every top value has a zero below. */
  lemma TopOfZero(item: nat -> Id, simdSize: nat, X: nat, Y: nat, size: Id, d: nat, m: nat)
    requires IsSimd(simdSize) && 4 <= X <= 1024 && Y >= 1 && X % 4 == 0 && size.x >= 1 && size.y >= 1 && d < 3
    requires Assigns(item, Loaded(1, simdSize, X, Y), 1, size)
    requires m < Reach(Items(size), simdSize, d) && Digit(d, m, X, Y) == 0
    ensures Up(d, m, size.x - 1, X, Y) < Reach(Items(size), simdSize, d)
    ensures Digit(d, Up(d, m, size.x - 1, X, Y), X, Y) == size.x - 1
  {
    hide Digit, Stride, LaneFor, Kind, Number, Reach, IsSimd, Loaded, Down, Items, Assigns;
    SimdPositive(simdSize);
    var load, n, v: nat := Loaded(1, simdSize, X, Y), Items(size), size.x - 1;
    FibreSize(item, load, 1, size, 0);
    FibreSize(item, load, 1, size, v);
    var zeros, tops := Fibre(load, n, 0), Fibre(load, n, v);
    var zero := LaneFor(d, m, simdSize);
    LaneForKind(d, m, simdSize);
    ReachIff(n, simdSize, d, m);
    LoadedDigit(zero, simdSize, X, Y);
    assert zero in zeros;
    if forall i | i in tops :: Down(i, v, simdSize, X, Y) != zero {
      TooFewTops(load, n, v, zero, simdSize, X, Y);
    } else {
      var i :| i in tops && Down(i, v, simdSize, X, Y) == zero;
      DownIsZero(i, n, v, simdSize, X, Y);
      LaneForInverse(i, simdSize);
      ReachIff(n, simdSize, d, Number(i, simdSize));
      LoadedDigit(i, simdSize, X, Y);
    }
  }

  lemma TooFewTops(load: Load, n: nat, v: nat, zero: nat, simdSize: nat, X: nat, Y: nat)
    requires IsSimd(simdSize) && 4 <= X <= 1024 && Y >= 1 && X % 4 == 0 && load == Loaded(1, simdSize, X, Y)
    requires zero in Fibre(load, n, 0) && forall i | i in Fibre(load, n, v) :: Down(i, v, simdSize, X, Y) != zero
    ensures |Fibre(load, n, v)| < |Fibre(load, n, 0)|
  {
    hide Stride, LaneFor, Kind, Number, IsSimd, Loaded, Down;
    SimdPositive(simdSize);
    var h := (i: nat) requires simdSize >= 1 => Down(i, v, simdSize, X, Y);
    var tops, rest := Fibre(load, n, v), Fibre(load, n, 0) - {zero};
    forall i | i in tops ensures h(i) in rest { DownIsZero(i, n, v, simdSize, X, Y); }
    forall i, k | i in tops && k in tops && h(i) == h(k) ensures i == k
    {
      DownIsZero(i, n, v, simdSize, X, Y);
      DownIsZero(k, n, v, simdSize, X, Y);
      LaneForInverse(i, simdSize);
      LaneForInverse(k, simdSize);
    }
    NotMore(tops, h, rest);
  }

  /** No digit that is loaded reaches the size of the ID it is taken for. */
  lemma DigitInside(item: nat -> Id, simdSize: nat, X: nat, Y: nat, size: Id, d: nat, m: nat)
    requires IsSimd(simdSize) && 4 <= X <= 1024 && Y >= 1 && X % 4 == 0 && d < 3
    requires Assigns(item, Loaded(1, simdSize, X, Y), 1, size) && m < Reach(Items(size), simdSize, d)
    ensures Digit(d, m, X, Y) < size.x
  {
    hide Digit, LaneFor, Kind, Number, Reach, IsSimd, Loaded, Items, Assigns;
    SimdPositive(simdSize);
    var i := LaneFor(d, m, simdSize);
    LaneForKind(d, m, simdSize);
    ReachIff(Items(size), simdSize, d, m);
    LoadsInside(item, Loaded(1, simdSize, X, Y), 1, size, i);
    LoadedDigit(i, simdSize, X, Y);
  }

  // ---------- what is needed ----------

  /** Rows of all kinds hold each of the ID's values equally often: as many values as X, whole runs of x; whole cycles
      of y, or exactly one when there are more y values; and of z rows none, or those of X planes. */
  predicate Balanced(n: nat, simdSize: nat, X: nat, Y: nat, values: nat)
    requires simdSize >= 1 && X >= 1
  {
    && values == X && Reach(n, simdSize, 0) % X == 0
    && (if Y == X then Reach(n, simdSize, 1) % (X * X) == 0 else Y > X && Reach(n, simdSize, 1) == X * X)
    && (Reach(n, simdSize, 2) == 0 || Reach(n, simdSize, 2) == X * (X * Y))
  }

  /** An arrangement of a group's sizes by the one ID that is read. */
  predicate FirstOf(size: Id, group: Id)
  {
    && size.x >= 1 && size.y >= 1 && size.z >= 1 && Items(size) == Items(group)
    && (size.x == group.x || size.x == group.y || size.x == group.z)
  }

  /** Of the numbers below `reach` every digit d is at most v, and every zero has a v so many strides up. */
  ghost predicate Even(d: nat, reach: nat, v: nat, X: nat, Y: nat)
    requires X >= 1 && Y >= 1
  {
    forall m: nat | m < reach ::
      Digit(d, m, X, Y) <= v && (Digit(d, m, X, Y) == 0 ==> Up(d, m, v, X, Y) < reach && Digit(d, Up(d, m, v, X, Y), X, Y) == v)
  }

  lemma EvenRows(item: nat -> Id, simdSize: nat, X: nat, Y: nat, size: Id, d: nat)
    requires IsSimd(simdSize) && 4 <= X <= 1024 && Y >= 1 && X % 4 == 0 && size.x >= 1 && size.y >= 1 && d < 3
    requires Assigns(item, Loaded(1, simdSize, X, Y), 1, size)
    ensures Even(d, Reach(Items(size), simdSize, d), size.x - 1, X, Y)
  {
    hide Digit, Up, Reach, Loaded, Items, Assigns;
    var v: nat, reach := size.x - 1, Reach(Items(size), simdSize, d);
    forall m: nat | m < reach
      ensures Digit(d, m, X, Y) <= v
      ensures Digit(d, m, X, Y) == 0 ==> Up(d, m, v, X, Y) < reach && Digit(d, Up(d, m, v, X, Y), X, Y) == v
    {
      DigitInside(item, simdSize, X, Y, size, d, m);
      if Digit(d, m, X, Y) == 0 { TopOfZero(item, simdSize, X, Y, size, d, m); }
    }
  }

  lemma EvenX(reach: nat, values: nat, X: nat, Y: nat)
    requires X >= 1 && Y >= 1 && values >= 1 && reach >= 1 && Even(0, reach, values - 1, X, Y)
    ensures values <= X && (values < X ==> reach <= values) && (values == X ==> reach % X == 0)
  {
    hide Digit;
    DigitZero(0, 0, X, Y);
    assert Digit(0, 0, X, Y) == 0;
    DigitOfUp(values - 1, X, Y);
    if values < X {
      DigitZero(0, values, X, Y);
    } else if values == X {
      var q := (reach - 1) / X;
      DigitZero(q, 0, X, Y);
      assert Digit(0, X * q, X, Y) == 0;
      UpByOne(X * q, values - 1, X, Y);
      assert reach - 1 == X * q + (reach - 1) % X;
      Distribute(X, q, 1);
      DivModUnique(reach, X, q + 1, 0);
    }
  }

  lemma DigitZero(a: nat, l: nat, X: nat, Y: nat)
    requires l < X && Y >= 1
    ensures Digit(0, X * a + l, X, Y) == l
  {
    DivModUnique(X * a + l, X, a, l);
  }

  lemma DigitOfUp(v: nat, X: nat, Y: nat)
    requires X >= 1 && Y >= 1
    ensures Digit(0, v, X, Y) < X && Up(0, 0, v, X, Y) == v
  {
  }

  lemma UpByOne(m: nat, v: nat, X: nat, Y: nat)
    ensures Up(0, m, v, X, Y) == m + v && Up(1, m, v, X, Y) == m + X * v
  {
  }

  lemma DigitOne(a: nat, l: nat, X: nat, Y: nat)
    requires l < X && Y >= 1
    ensures Digit(1, X * a + l, X, Y) == a % Y
  {
    DivModUnique(X * a + l, X, a, l);
  }

  lemma DigitTwo(a: nat, l: nat, X: nat, Y: nat)
    requires X >= 1 && Y >= 1 && l < X * Y
    ensures Digit(2, X * Y * a + l, X, Y) == a
  {
    var p, q := l / X, l % X;
    assert l == X * p + q;
    if p >= Y { MulMonotone(X, Y, p); }
    assert X * Y * a == X * (Y * a);
    Distribute(X, Y * a, p);
    DivModUnique(X * Y * a + l, X, Y * a + p, q);
    DivModUnique(Y * a + p, Y, a, p);
  }

  lemma EvenY(reach: nat, X: nat, Y: nat)
    requires X >= 4 && Y >= 1 && reach >= 1 && Even(1, reach, X - 1, X, Y)
    ensures if Y == X then reach % (X * X) == 0 else Y > X && reach == X * X
  {
    hide Digit, Even;
    if Y == X { EvenSquares(reach, X); } else { EvenOnce(reach, X, Y); }
  }

  /** The l-th number of a run of zeros has its top value v runs up. */
  lemma ZeroRun(reach: nat, v: nat, a: nat, l: nat, X: nat, Y: nat)
    requires l < X && Y >= 1 && Even(1, reach, v, X, Y) && X * a + l < reach && a % Y == 0
    ensures X * a + l + X * v < reach && (a + v) % Y == v
  {
    hide Digit, Up;
    DigitOne(a, l, X, Y);
    assert Digit(1, X * a + l, X, Y) == 0;
    UpByOne(X * a + l, v, X, Y);
    Distribute(X, a, v);
    DigitOne(a + v, l, X, Y);
  }

  lemma RunInside(reach: nat, v: nat, a: nat, X: nat, Y: nat)
    requires X >= 1 && Y >= 1 && Even(1, reach, v, X, Y) && X * a < reach
    ensures a % Y <= v
  {
    hide Digit, Up;
    DigitOne(a, 0, X, Y);
    assert Digit(1, X * a + 0, X, Y) <= v;
  }

  lemma EvenOnce(reach: nat, X: nat, Y: nat)
    requires X >= 4 && Y >= 1 && Y != X && reach >= 1 && Even(1, reach, X - 1, X, Y)
    ensures Y > X && reach == X * X
  {
    hide Even;
    var v := X - 1;
    assert X * 0 == 0 && X * v + X == X * X;
    MulMonotone(X, 1, v);
    ZeroRun(reach, v, 0, 0, X, Y);
    ZeroRun(reach, v, 0, v, X, Y);
    assert v < Y;
    if X * X < reach { RunInside(reach, v, X, X, Y); }
  }

  lemma EvenSquares(reach: nat, X: nat)
    requires X >= 4 && reach >= 1 && Even(1, reach, X - 1, X, X)
    ensures reach % (X * X) == 0
  {
    hide Even;
    var start, rest := LastCycle(reach, X);
    if rest > 0 {
      ZeroRun(reach, X - 1, start, if rest < X then rest - 1 else X - 1, X, X);
    }
  }

  /** The run that the last cycle starts with, and what of the cycle is reached. */
  lemma LastCycle(reach: nat, X: nat) returns (start: nat, rest: nat)
    requires X >= 4
    ensures reach == X * start + rest && rest == reach % (X * X) && start % X == 0
    ensures rest < X * (X - 1) + X && 3 * X <= X * (X - 1)
  {
    var square := X * X;
    MulMonotone(X, 3, X - 1);
    Distribute(X, X - 1, 1);
    var u := reach / square;
    start, rest := X * u, reach % square;
    assert X * (X * u) == square * u;
    DivModUnique(X * u, X, u, 0);
  }

  lemma EvenZ(reach: nat, X: nat, Y: nat)
    requires X >= 4 && Y >= 1 && reach >= 1 && Even(2, reach, X - 1, X, Y)
    ensures reach == X * (X * Y)
  {
    hide Digit;
    var v, plane := X - 1, X * Y;
    MulMonotone(X, 1, Y);
    DigitTwo(0, 0, X, Y);
    assert Digit(2, 0, X, Y) == 0;
    assert Up(2, 0, v, X, Y) == v * plane;
    MulMonotone(plane, 1, v);
    DigitTwo(0, plane - 1, X, Y);
    assert Digit(2, plane - 1, X, Y) == 0;
    assert Up(2, plane - 1, v, X, Y) == plane - 1 + v * plane;
    Distribute(plane, v, 1);
    DigitTwo(X, 0, X, Y);
  }

  lemma ReachAtLeast(n: nat, simdSize: nat)
    requires IsSimd(simdSize) && n > simdSize
    ensures Reach(n, simdSize, 0) >= simdSize >= 8 && Reach(n, simdSize, 1) >= 1
  {
    hide RowsOf;
    var k, r := n / simdSize, n % simdSize;
    assert n == simdSize * k + r;
    if k < 1 { MulMonotone(simdSize, k, 0); }
    FirstRowsOf(k);
    MulMonotone(simdSize, 1, RowsOf(k, 0));
    if k >= 2 { MulMonotone(simdSize, 1, RowsOf(k, 1)); }
  }

  lemma FirstRowsOf(k: nat)
    requires k >= 1
    ensures RowsOf(k, 0) >= 1 && (k >= 2 ==> RowsOf(k, 1) >= 1)
  {
  }

  /** With fewer values than X there are many more items than values. */
  lemma FewerValues(group: Id, size: Id)
    requires FirstOf(size, group) && group.y >= 1 && group.z >= 1 && 8 <= size.x < group.x
    ensures Items(size) > 3 * size.x
  {
    PlaneOf(group, size.x);
    MulMonotone(size.x, 9, group.x);
  }

  lemma PlaneOf(group: Id, v: nat)
    requires group.x >= 1 && group.y >= 1 && group.z >= 1 && (v == group.y || v == group.z)
    ensures v * group.x <= Items(group)
  {
    if v == group.y {
      MulMonotone(group.x * group.y, 1, group.z);
    } else {
      MulMonotone(group.x, 1, group.y);
      MulMonotone(group.z, group.x, group.x * group.y);
    }
  }

  /** A group that is served is balanced. */
  lemma ServedIsBalanced(simdSize: nat, group: Id, size: Id)
    requires IsSimd(simdSize) && 4 <= group.x <= 1024 && group.y >= 1 && group.z >= 1 && group.x % 4 == 0
    requires FirstOf(size, group) && simdSize < Items(group) && Served(Loaded(1, simdSize, group.x, group.y), 1, size)
    ensures Balanced(Items(group), simdSize, group.x, group.y, size.x)
  {
    hide Reach, Assigns, Loaded, Items, Even, Served, RowsOf;
    var item := ServedBy(Loaded(1, simdSize, group.x, group.y), 1, size);
    var n, X, Y := Items(group), group.x, group.y;
    ReachAtLeast(n, simdSize);
    EvenRows(item, simdSize, X, Y, size, 0);
    EvenX(Reach(n, simdSize, 0), size.x, X, Y);
    if size.x < X {
      ReachesAddUp(n, simdSize);
      FewerValues(group, size);
    }
    EvenRows(item, simdSize, X, Y, size, 1);
    EvenY(Reach(n, simdSize, 1), X, Y);
    EvenRows(item, simdSize, X, Y, size, 2);
    if Reach(n, simdSize, 2) > 0 { EvenZ(Reach(n, simdSize, 2), X, Y); }
  }

  // ---------- what is enough ----------

  lemma QuotientBelow(m: nat, n: nat, X: nat)
    requires X >= 1
    ensures m < X * n <==> m / X < n
  {
    assert m == X * (m / X) + m % X;
    if m / X < n { MulMonotone(X, m / X + 1, n); } else { MulMonotone(X, n, m / X); }
  }

  /** The occurrence that a number is of its digit's value, and the number that is the r-th occurrence of v. */
  function RankOf(d: nat, m: nat, X: nat, Y: nat): nat
    requires X >= 1 && Y >= 1
  {
    if d == 0 then m / X else if d == 1 then Joined(m % X, m / X / X, X) else Joined(m % X, m / X % Y, X)
  }

  function NumberOf(d: nat, v: nat, r: nat, X: nat, Y: nat): nat
    requires X >= 1
  {
    if d == 0 then Joined(v, r, X)
    else if d == 1 then Joined(r % X, Joined(v, r / X, X), X)
    else Joined(r % X, Joined(r / X, v, Y), X)
  }

  function Joined(low: nat, high: nat, radix: nat): nat { radix * high + low }

  /** Rows of one kind that hold r values each as often: r occurrences of each of X values. */
  ghost predicate Ranks(d: nat, reach: nat, X: nat, Y: nat)
    requires X >= 1 && Y >= 1
  {
    && reach % X == 0
    && (forall m: nat | m < reach :: Ranked(d, m, reach, X, Y))
    && (forall v: nat, r: nat | v < X && r < reach / X :: Numbered(d, v, r, reach, X, Y))
  }

  predicate Ranked(d: nat, m: nat, reach: nat, X: nat, Y: nat)
    requires X >= 1 && Y >= 1
  {
    Digit(d, m, X, Y) < X && RankOf(d, m, X, Y) < reach / X && NumberOf(d, Digit(d, m, X, Y), RankOf(d, m, X, Y), X, Y) == m
  }

  predicate Numbered(d: nat, v: nat, r: nat, reach: nat, X: nat, Y: nat)
    requires X >= 1 && Y >= 1
  {
    var m := NumberOf(d, v, r, X, Y);
    m < reach && Digit(d, m, X, Y) == v && RankOf(d, m, X, Y) == r
  }

  lemma RanksX(reach: nat, X: nat, Y: nat)
    requires X >= 1 && Y >= 1 && reach % X == 0
    ensures Ranks(0, reach, X, Y)
  {
    var q := reach / X;
    assert reach == X * q;
    forall m: nat | m < reach ensures Ranked(0, m, reach, X, Y) { QuotientBelow(m, q, X); }
    forall v: nat, r: nat | v < X && r < q ensures Numbered(0, v, r, reach, X, Y)
    {
      DivModUnique(X * r + v, X, r, v);
      QuotientBelow(X * r + v, q, X);
    }
  }

  /** y: whole cycles of X runs, or the first X runs. */
  lemma RanksY(cycles: nat, X: nat, Y: nat)
    requires X >= 1 && (Y == X || (Y > X && cycles == 1))
    ensures Ranks(1, X * (X * cycles), X, Y)
  {
    hide Digit, NumberOf, RankOf;
    var reach := X * (X * cycles);
    DivModUnique(reach, X, X * cycles, 0);
    forall m: nat | m < reach ensures Ranked(1, m, reach, X, Y) { RankY(m, cycles, X, Y); }
    forall v: nat, r: nat | v < X && r < reach / X ensures Numbered(1, v, r, reach, X, Y) { NumberY(v, r, cycles, X, Y); }
  }

  /** The number whose x digit is l, in run v of cycle u. */
  lemma DigitsOfY(l: nat, v: nat, u: nat, X: nat, Y: nat)
    requires l < X && v < X && (Y == X || (Y > X && u == 0))
    ensures var m, r := X * (X * u + v) + l, X * u + l;
            && Digit(1, m, X, Y) == v && RankOf(1, m, X, Y) == l + X * u
            && r / X == u && r % X == l && NumberOf(1, v, r, X, Y) == m
  {
    var a := X * u + v;
    DivModUnique(X * a + l, X, a, l);
    DivModUnique(X * u + l, X, u, l);
    DivModUnique(a, X, u, v);
    if Y > X { DivModUnique(v, Y, 0, v); }
  }

  lemma DigitsBelow(l: nat, a: nat, n: nat, X: nat)
    requires l < X
    ensures X * a + l < X * n <==> a < n
  {
    if a < n { MulMonotone(X, a + 1, n); } else { MulMonotone(X, n, a); }
  }

  lemma Digits(m: nat, X: nat, Y: nat) returns (l: nat, e: nat, u: nat)
    requires X >= 1 && Y >= 1
    ensures l < X && e < Y && m == X * (Y * u + e) + l
  {
    l, e, u := m % X, m / X % Y, m / X / Y;
    assert m / X == Y * u + e;
  }

  lemma Split(r: nat, X: nat) returns (q: nat, l: nat)
    requires X >= 1
    ensures r == X * q + l && l < X && r / X == q && r % X == l
  {
    q, l := r / X, r % X;
  }

  lemma RankY(m: nat, cycles: nat, X: nat, Y: nat)
    requires X >= 1 && (Y == X || (Y > X && cycles == 1)) && m < X * (X * cycles)
    ensures Digit(1, m, X, Y) < X && RankOf(1, m, X, Y) < X * cycles
    ensures NumberOf(1, Digit(1, m, X, Y), RankOf(1, m, X, Y), X, Y) == m
  {
    hide Digit, RankOf, NumberOf;
    var l, v, u := Digits(m, X, X);
    DigitsBelow(l, X * u + v, X * cycles, X);
    DigitsBelow(v, u, cycles, X);
    DigitsOfY(l, v, u, X, Y);
    DigitsBelow(l, u, cycles, X);
  }

  lemma NumberY(v: nat, r: nat, cycles: nat, X: nat, Y: nat)
    requires X >= 1 && (Y == X || (Y > X && cycles == 1)) && v < X && r < X * cycles
    ensures var m := NumberOf(1, v, r, X, Y);
            m < X * (X * cycles) && Digit(1, m, X, Y) == v && RankOf(1, m, X, Y) == r
  {
    hide Digit, RankOf, NumberOf;
    var u, l := Split(r, X);
    DigitsBelow(l, u, cycles, X);
    DigitsBelow(v, u, cycles, X);
    DigitsBelow(l, X * u + v, X * cycles, X);
    DigitsOfY(l, v, u, X, Y);
  }

  /** z: the planes of X values, or none. */
  lemma RanksZ(X: nat, Y: nat)
    requires X >= 1 && Y >= 1
    ensures Ranks(2, X * (Y * X), X, Y)
  {
    hide Digit, NumberOf, RankOf;
    var reach := X * (Y * X);
    DivModUnique(reach, X, Y * X, 0);
    forall m: nat | m < reach ensures Ranked(2, m, reach, X, Y) { RankZ(m, X, Y); }
    forall v: nat, r: nat | v < X && r < reach / X ensures Numbered(2, v, r, reach, X, Y) { NumberZ(v, r, X, Y); }
  }

  lemma DigitsOfZ(l: nat, e: nat, v: nat, X: nat, Y: nat)
    requires l < X && e < Y
    ensures var m, r := X * (Y * v + e) + l, X * e + l;
            && Digit(2, m, X, Y) == v && RankOf(2, m, X, Y) == l + X * e
            && r / X == e && r % X == l && NumberOf(2, v, r, X, Y) == m
  {
    var a := Y * v + e;
    DivModUnique(X * a + l, X, a, l);
    DivModUnique(X * e + l, X, e, l);
    DivModUnique(a, Y, v, e);
  }

  lemma RankZ(m: nat, X: nat, Y: nat)
    requires X >= 1 && Y >= 1 && m < X * (Y * X)
    ensures Digit(2, m, X, Y) < X && RankOf(2, m, X, Y) < Y * X
    ensures NumberOf(2, Digit(2, m, X, Y), RankOf(2, m, X, Y), X, Y) == m
  {
    hide Digit, RankOf, NumberOf;
    var l, e, v := Digits(m, X, Y);
    DigitsBelow(l, Y * v + e, Y * X, X);
    DigitsBelow(e, v, X, Y);
    DigitsOfZ(l, e, v, X, Y);
    DigitsBelow(l, e, Y, X);
  }

  lemma NumberZ(v: nat, r: nat, X: nat, Y: nat)
    requires X >= 1 && Y >= 1 && v < X && r < Y * X
    ensures var m := NumberOf(2, v, r, X, Y);
            m < X * (Y * X) && Digit(2, m, X, Y) == v && RankOf(2, m, X, Y) == r
  {
    hide Digit, RankOf, NumberOf;
    var e, l := Split(r, X);
    DigitsBelow(l, e, Y, X);
    DigitsBelow(e, v, X, Y);
    DigitsBelow(l, Y * v + e, Y * X, X);
    DigitsOfZ(l, e, v, X, Y);
  }

  lemma RanksOfBalanced(n: nat, simdSize: nat, X: nat, Y: nat, values: nat, d: nat)
    requires simdSize >= 1 && X >= 1 && Y >= 1 && d < 3 && Balanced(n, simdSize, X, Y, values)
    ensures Ranks(d, Reach(n, simdSize, d), X, Y)
  {
    hide Reach, Ranks, RowsOf;
    var reach := Reach(n, simdSize, d);
    if d == 0 {
      RanksX(reach, X, Y);
    } else if d == 1 {
      var cycles := if Y == X then reach / (X * X) else 1;
      assert reach == X * X * cycles == X * (X * cycles);
      RanksY(cycles, X, Y);
    } else if reach > 0 {
      assert reach == X * (X * Y) == X * (Y * X);
      RanksZ(X, Y);
    } else {
      NoRanks(d, X, Y);
    }
  }

  lemma NoRanks(d: nat, X: nat, Y: nat)
    requires X >= 1 && Y >= 1
    ensures Ranks(d, 0, X, Y)
  {
  }

  /** Occurrences are counted through the x rows, the y rows and the z rows. */
  function Offset(n: nat, simdSize: nat, d: nat, X: nat): nat
    requires simdSize >= 1 && X >= 1
  {
    if d == 0 then 0
    else if d == 1 then Each(Reach(n, simdSize, 0), X)
    else Each(Reach(n, simdSize, 0), X) + Each(Reach(n, simdSize, 1), X)
  }

  function Each(reach: nat, X: nat): nat
    requires X >= 1
  {
    reach / X
  }

  function LaneRank(i: nat, n: nat, simdSize: nat, X: nat, Y: nat): nat
    requires simdSize >= 1 && X >= 1 && Y >= 1
  {
    Offset(n, simdSize, Kind(i, simdSize), X) + RankOf(Kind(i, simdSize), Number(i, simdSize), X, Y)
  }

  function KindOfRank(r: nat, n: nat, simdSize: nat, X: nat): (d: nat)
    requires simdSize >= 1 && X >= 1
    ensures d < 3 && Offset(n, simdSize, d, X) <= r
  {
    if r < Offset(n, simdSize, 1, X) then 0 else if r < Offset(n, simdSize, 2, X) then 1 else 2
  }

  function LaneOfRank(v: nat, r: nat, n: nat, simdSize: nat, X: nat, Y: nat): nat
    requires simdSize >= 1 && X >= 1
  {
    var d := KindOfRank(r, n, simdSize, X);
    LaneFor(d, NumberOf(d, v, r - Offset(n, simdSize, d, X), X, Y), simdSize)
  }

  /** All occurrences together are as many as there are items with one value. */
  lemma RanksAddUp(n: nat, simdSize: nat, X: nat, Y: nat, values: nat, each: nat)
    requires simdSize >= 1 && X >= 1 && Y >= 1 && Balanced(n, simdSize, X, Y, values) && n == X * each
    ensures Offset(n, simdSize, 2, X) + Reach(n, simdSize, 2) / X == each
  {
    hide Reach, RowsOf, Balanced, Ranked, Numbered;
    ReachesAddUp(n, simdSize);
    RanksOfBalanced(n, simdSize, X, Y, values, 0);
    RanksOfBalanced(n, simdSize, X, Y, values, 1);
    RanksOfBalanced(n, simdSize, X, Y, values, 2);
    Quotients(Reach(n, simdSize, 0), Reach(n, simdSize, 1), Reach(n, simdSize, 2), X, each);
  }

  lemma Quotients(a: nat, b: nat, c: nat, X: nat, each: nat)
    requires X >= 1 && a + b + c == X * each && a % X == 0 && b % X == 0 && c % X == 0
    ensures a / X + b / X + c / X == each
  {
    var p, q, r := a / X, b / X, c / X;
    assert a == X * p && b == X * q && c == X * r;
    Distribute(X, p, q);
    Distribute(X, p + q, r);
    SameProduct(X, p + q + r, each);
  }

  lemma RankOfLane(i: nat, n: nat, simdSize: nat, X: nat, Y: nat, each: nat)
    requires IsSimd(simdSize) && 4 <= X <= 1024 && Y >= 1 && X % 4 == 0 && i < n && n == X * each
    requires Balanced(n, simdSize, X, Y, X)
    ensures var v, r := Loaded(1, simdSize, X, Y)(i, 0), LaneRank(i, n, simdSize, X, Y);
            v < X && r < each && LaneOfRank(v, r, n, simdSize, X, Y) == i
  {
    hide Digit, RankOf, NumberOf, LaneFor, Kind, Number, Reach, Loaded, Balanced, RowsOf, IsSimd, KindOfRank, Offset;
    SimdPositive(simdSize);
    var d, m := Kind(i, simdSize), Number(i, simdSize);
    LaneForInverse(i, simdSize);
    LoadedDigit(i, simdSize, X, Y);
    ReachIff(n, simdSize, d, m);
    RanksOfBalanced(n, simdSize, X, Y, X, d);
    assert Ranked(d, m, Reach(n, simdSize, d), X, Y);
    RanksAddUp(n, simdSize, X, Y, X, each);
    KindOfOccurrence(d, RankOf(d, m, X, Y), n, simdSize, X, each);
  }

  lemma KindOfOccurrence(d: nat, k: nat, n: nat, simdSize: nat, X: nat, each: nat)
    requires simdSize >= 1 && X >= 1 && d < 3 && k < Each(Reach(n, simdSize, d), X)
    requires Offset(n, simdSize, 2, X) + Each(Reach(n, simdSize, 2), X) == each
    ensures Offset(n, simdSize, d, X) + k < each && KindOfRank(Offset(n, simdSize, d, X) + k, n, simdSize, X) == d
  {
    hide Reach, Each;
  }

  lemma LaneHasRank(v: nat, r: nat, n: nat, simdSize: nat, X: nat, Y: nat, each: nat)
    requires IsSimd(simdSize) && 4 <= X <= 1024 && Y >= 1 && X % 4 == 0 && n == X * each && v < X && r < each
    requires Balanced(n, simdSize, X, Y, X)
    ensures var i := LaneOfRank(v, r, n, simdSize, X, Y);
            i < n && Loaded(1, simdSize, X, Y)(i, 0) == v && LaneRank(i, n, simdSize, X, Y) == r
  {
    hide Digit, RankOf, NumberOf, LaneFor, Kind, Number, Reach, Loaded, Balanced, RowsOf, IsSimd;
    SimdPositive(simdSize);
    var d := KindOfRank(r, n, simdSize, X);
    var k := r - Offset(n, simdSize, d, X);
    var m := NumberOf(d, v, k, X, Y);
    RanksAddUp(n, simdSize, X, Y, X, each);
    RanksOfBalanced(n, simdSize, X, Y, X, d);
    assert Numbered(d, v, k, Reach(n, simdSize, d), X, Y);
    LaneForKind(d, m, simdSize);
    ReachIff(n, simdSize, d, m);
    LoadedDigit(LaneFor(d, m, simdSize), simdSize, X, Y);
  }

  /** A balanced group is served. */
  lemma BalancedIsServed(simdSize: nat, group: Id, size: Id)
    requires IsSimd(simdSize) && 4 <= group.x <= 1024 && group.y >= 1 && group.z >= 1 && group.x % 4 == 0
    requires FirstOf(size, group) && Balanced(Items(group), simdSize, group.x, group.y, size.x)
    ensures Served(Loaded(1, simdSize, group.x, group.y), 1, size)
  {
    hide LaneRank, LaneOfRank, Loaded, Served, Reach, RowsOf;
    var n, X, Y, each := Items(group), group.x, group.y, size.y * size.z;
    SimdPositive(simdSize);
    EachOf(size);
    var rank := (i: nat) requires simdSize >= 1 && X >= 1 && Y >= 1 => LaneRank(i, n, simdSize, X, Y);
    var back := (v: nat, r: nat) requires simdSize >= 1 && X >= 1 => LaneOfRank(v, r, n, simdSize, X, Y);
    forall i: nat | i < Items(size)
      ensures Loaded(1, simdSize, X, Y)(i, 0) < size.x && rank(i) < each && back(Loaded(1, simdSize, X, Y)(i, 0), rank(i)) == i
    {
      RankOfLane(i, n, simdSize, X, Y, each);
    }
    forall v: nat, r: nat | v < size.x && r < each
      ensures back(v, r) < Items(size) && Loaded(1, simdSize, X, Y)(back(v, r), 0) == v && rank(back(v, r)) == r
    {
      LaneHasRank(v, r, n, simdSize, X, Y, each);
    }
    ServedByRank(Loaded(1, simdSize, X, Y), rank, back, size);
  }

  lemma EachOf(size: Id)
    ensures Items(size) == size.x * (size.y * size.z)
  {
  }

  // ---------- sizes that do not suit the generator ----------

  lemma XOfLane(h: nat, simdSize: nat, X: nat, Y: nat)
    requires simdSize >= 1 && X >= 1
    ensures Loaded(1, simdSize, X, Y)(LaneFor(0, h, simdSize), 0) == StoredLane(h / simdSize, h % simdSize, simdSize, X, Y).x
  {
    hide StoredLane, Loaded, Row;
    LoadedRow(1, 3 * (h / simdSize), h % simdSize, 0, simdSize, X, Y);
    RowsOfThread(h / simdSize, h % simdSize, simdSize, X, Y);
  }

  lemma LaneForBelow(h: nat, simdSize: nat)
    requires simdSize >= 1
    ensures LaneFor(0, h, simdSize) <= 3 * h && (h < simdSize ==> LaneFor(0, h, simdSize) == h)
  {
    var g, l := h / simdSize, h % simdSize;
    assert h == g * simdSize + l;
    assert 3 * g * simdSize == 3 * (g * simdSize);
    if h < simdSize { DivModUnique(h, simdSize, 0, h); }
  }

  lemma YOfLane(l: nat, simdSize: nat, X: nat, Y: nat)
    requires l < simdSize && X >= 1
    ensures Loaded(1, simdSize, X, Y)(simdSize + l, 0) == StoredLane(0, l, simdSize, X, Y).y
  {
    hide StoredLane, Loaded, Row;
    LoadedRow(1, 1, l, 0, simdSize, X, Y);
    RowsOfThread(0, l, simdSize, X, Y);
  }

  /** Then several threads are never loaded evenly. */
  lemma UnsuitedIsNotServed(simdSize: nat, group: Id, size: Id)
    requires IsSimd(simdSize) && 1 <= group.x <= 1024 && group.y >= 1 && group.z >= 1 && group.x % 4 != 0
    requires FirstOf(size, group) && simdSize < Items(group) && size.x <= 1024
    ensures !Served(Loaded(1, simdSize, group.x, group.y), 1, size)
  {
    hide Served, Loaded, Assigns, Items, StoredLane, FirstOf;
    var X, rows := group.x, group.y * group.z;
    if Served(Loaded(1, simdSize, group.x, group.y), 1, size) {
      var item := ServedBy(Loaded(1, simdSize, group.x, group.y), 1, size);
      EachOf(group);
      if X > simdSize && rows <= 5 {
        WideRows(item, simdSize, group, size);
      } else {
        RowsOfGroup(group, simdSize);
        HugeIsLoaded(item, simdSize, group, size);
      }
    }
  }

  /** With few lanes of few rows, or with many rows, an x that is none is loaded. */
  lemma HugeIsLoaded(item: nat -> Id, simdSize: nat, group: Id, size: Id)
    requires IsSimd(simdSize) && 1 <= group.x <= 1024 && group.y >= 1 && group.z >= 1
    requires !Divisible(group.x, group.y, group.z) && (group.y * group.z >= 6 || group.x < simdSize)
    requires FirstOf(size, group) && simdSize < Items(group) && size.x <= 1024
    ensures !Assigns(item, Loaded(1, simdSize, group.x, group.y), 1, size)
  {
    hide Loaded, Assigns, Items, StoredLane, LaneFor;
    var X, Y, load := group.x, group.y, Loaded(1, simdSize, group.x, group.y);
    EachOf(group);
    var h := HugeLane(simdSize, X, Y, group.z);
    NumbersBelow(group, h);
    XOfLane(h, simdSize, X, Y);
    LaneForBelow(h, simdSize);
    if !Assigns(item, load, 1, size) {
    } else if LaneFor(0, h, simdSize) < Items(group) {
      LoadsInside(item, load, 1, size, LaneFor(0, h, simdSize));
    } else {
      MulMonotone(X, if group.y * group.z >= 6 then 6 else 0, group.y * group.z);
      LaneOnePastRow(0, X, simdSize, X, Y);
      XOfLane(X, simdSize, X, Y);
      LaneForBelow(X, simdSize);
      LoadsInside(item, load, 1, size, X);
      SidesBelow(group);
    }
  }

  lemma SidesBelow(group: Id)
    requires group.y >= 1 && group.z >= 1
    ensures group.y <= group.y * group.z && group.z <= group.y * group.z
  {
    MulMonotone(group.y, 1, group.z);
    MulMonotone(group.z, 1, group.y);
  }

  lemma RowsOfGroup(group: Id, simdSize: nat)
    requires IsSimd(simdSize) && group.x >= 1 && group.y >= 1 && group.z >= 1 && simdSize < Items(group)
    requires group.x % 4 != 0 && (group.x <= simdSize || group.y * group.z >= 6)
    ensures !Divisible(group.x, group.y, group.z) && (group.y * group.z >= 6 || group.x < simdSize)
  {
  }

  /** Rows of x longer than a thread, and few of them: thread 0 is loaded with too many values, or thread 1 with too
      many zeros. */
  lemma WideRows(item: nat -> Id, simdSize: nat, group: Id, size: Id)
    requires IsSimd(simdSize) && simdSize < group.x <= 1024 && group.y >= 1 && group.z >= 1 && group.y * group.z <= 5
    requires FirstOf(size, group)
    ensures !Assigns(item, Loaded(1, simdSize, group.x, group.y), 1, size)
  {
    hide Loaded, Assigns, Items, StoredLane, LaneFor;
    var X, Y, load, rows := group.x, group.y, Loaded(1, simdSize, group.x, group.y), group.y * group.z;
    EachOf(group);
    EachOf(size);
    SidesBelow(group);
    MulMonotone(X, 1, rows);
    if !Assigns(item, load, 1, size) {
    } else if size.x != X {
      WithinFirstRow(5, simdSize, X, Y);
      XOfLane(5, simdSize, X, Y);
      LaneForBelow(5, simdSize);
      LoadsInside(item, load, 1, size, 5);
    } else {
      MulMonotone(X, if rows > 1 then 2 else 1, rows);
      SameProduct(X, rows, size.y * size.z);
      var lanes := [0] + seq(rows, k requires 0 <= k < rows => simdSize + k);
      forall k | 0 <= k < |lanes| ensures lanes[k] < Items(size) && load(lanes[k], 0) == 0
      {
        if k == 0 {
          WithinFirstRow(0, simdSize, X, Y);
          XOfLane(0, simdSize, X, Y);
          LaneForBelow(0, simdSize);
        } else {
          WithinFirstRow(k - 1, simdSize, X, Y);
          YOfLane(k - 1, simdSize, X, Y);
        }
      }
      SameFirst(item, load, 1, size, lanes, 0);
    }
  }

  lemma SameProduct(a: nat, b: nat, c: nat)
    requires a >= 1 && a * b == a * c
    ensures b == c
  {
    if b < c { MulMonotone(a, b + 1, c); } else if c < b { MulMonotone(a, c + 1, b); }
  }

  /** In a row longer than a thread, lane l of thread 0 was written (l, 0, 0). */
  lemma WithinFirstRow(l: nat, simdSize: nat, X: nat, Y: nat)
    requires IsSimd(simdSize) && l < simdSize < X <= 1024 && Y >= 1
    ensures StoredLane(l / simdSize, l % simdSize, simdSize, X, Y) == StoredLane(0, l, simdSize, X, Y) == Id(l, 0, 0)
  {
    hide StoredLane;
    var n := l - l % 4;
    FirstGroups(l, simdSize, X);
    WrittenWithinRow(0, l, n, simdSize, X, Y);
    DivModUnique(n, X, 0, n);
    DivModUnique(l, simdSize, 0, l);
  }

  lemma FirstGroups(l: nat, simdSize: nat, X: nat)
    requires IsSimd(simdSize) && l < simdSize < X
    ensures var n := l - l % 4; n % X == n && n + 3 <= X && n + l % 4 == l
  {
    DivModUnique(l - l % 4, X, 0, l - l % 4);
  }

  /** The theorem.  A group of several threads whose kernel reads one ID is served exactly if X is a multiple of 4 and
      the rows its threads are loaded with are balanced. */
  lemma OneChannelIff(simdSize: nat, group: Id, size: Id)
    requires IsSimd(simdSize) && 1 <= group.x <= 1024 && group.y >= 1 && group.z >= 1
    requires FirstOf(size, group) && simdSize < Items(group) && size.x <= 1024
    ensures Served(Loaded(1, simdSize, group.x, group.y), 1, size)
            <==> group.x % 4 == 0 && Balanced(Items(group), simdSize, group.x, group.y, size.x)
  {
    hide Served, Loaded, Balanced, Items, FirstOf;
    if group.x % 4 != 0 {
      UnsuitedIsNotServed(simdSize, group, size);
    } else if Balanced(Items(group), simdSize, group.x, group.y, size.x) {
      BalancedIsServed(simdSize, group, size);
    } else if Served(Loaded(1, simdSize, group.x, group.y), 1, size) {
      ServedIsBalanced(simdSize, group, size);
    }
  }
}
