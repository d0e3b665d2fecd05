/** `generateLocalIDsForSimdOne`: one work-item per hardware thread, written by three nested loops.

    The outermost loop runs over the x size but its counter goes to the third slot, so thread n receives the
    digits of n in the radices Z and Y.
 */
module SimdOneIds {
  import opened Bits
  import opened Words
  import opened LocalIds
  import opened WorkGroup

  const GRF_SIZE: nat := 32

  /** The three 16-bit slots of thread n. */
  ghost function ThreadId(buf: array<byte>, ioh: nat, n: nat): Id
    requires ioh + GRF_SIZE * n + 6 <= buf.Length
    reads buf
  {
    var p := ioh + GRF_SIZE * n;
    Id(Word16(buf, p), Word16(buf, p + 2), Word16(buf, p + 4))
  }

  ghost predicate Filled(buf: array<byte>, ioh: nat, n: nat, Y: nat, Z: nat)
    requires Y >= 1 && Z >= 1
    reads buf
  {
    ioh + GRF_SIZE * n <= buf.Length &&
    forall m: nat | m < n :: ioh + GRF_SIZE * m + 6 <= buf.Length && ThreadId(buf, ioh, m) == IdOf(m, Z, Y)
  }

  /** One iteration of the innermost loop. */
  method StoreThread(buf: array<byte>, ioh: nat, n: nat, i: nat, j: nat, k: nat, Y: nat, Z: nat)
    requires Y >= 1 && Z >= 1 && k < Z <= 1024 && j < Y <= 1024 && i < 1024
    requires n == Value(Id(k, j, i), Z, Y) && Filled(buf, ioh, n, Y, Z)
    requires ioh + GRF_SIZE * (n + 1) <= buf.Length
    modifies buf
    ensures Filled(buf, ioh, n + 1, Y, Z)
    ensures forall b | 0 <= b < buf.Length && (b < ioh + GRF_SIZE * n || ioh + GRF_SIZE * (n + 1) <= b) ::
              buf[b] == old(buf[b])
  {
    hide IdOf, Value;
    var p := ioh + GRF_SIZE * n;
    buf[p], buf[p + 1] := k % 0x100, k / 0x100;
    buf[p + 2], buf[p + 3] := j % 0x100, j / 0x100;
    buf[p + 4], buf[p + 5] := i % 0x100, i / 0x100;
    DigitsAreUnique(Id(k, j, i), Z, Y);
    assert ThreadId(buf, ioh, n) == Id(k, j, i);
    forall m: nat | m < n
      ensures ThreadId(buf, ioh, m) == IdOf(m, Z, Y)
    {
      assert ThreadId(buf, ioh, m) == old(ThreadId(buf, ioh, m));
    }
  }

  /** The innermost loop. */
  method StoreRow(buf: array<byte>, ioh: nat, n0: nat, i: nat, j: nat, Y: nat, Z: nat)
    requires Y >= 1 && 1 <= Z <= 1024 && j < Y <= 1024 && i < 1024
    requires n0 == Value(Id(0, j, i), Z, Y) && Filled(buf, ioh, n0, Y, Z)
    requires ioh + GRF_SIZE * (n0 + Z) <= buf.Length
    modifies buf
    ensures Filled(buf, ioh, n0 + Z, Y, Z)
    ensures forall b | 0 <= b < buf.Length && (b < ioh + GRF_SIZE * n0 || ioh + GRF_SIZE * (n0 + Z) <= b) ::
              buf[b] == old(buf[b])
  {
    hide Filled;
    for k := 0 to Z
      invariant Filled(buf, ioh, n0 + k, Y, Z)
      invariant forall b | 0 <= b < buf.Length && (b < ioh + GRF_SIZE * n0 || ioh + GRF_SIZE * (n0 + Z) <= b) ::
                  buf[b] == old(buf[b])
    {
      StoreThread(buf, ioh, n0 + k, i, j, k, Y, Z);
    }
  }

  /** All three loops: thread n holds (n mod Z, n / Z mod Y, n / (Z * Y)). */
  method GenerateLocalIdsForSimdOne(buf: array<byte>, ioh: nat, X: nat, Y: nat, Z: nat)
    requires 1 <= X <= 1024 && 1 <= Y <= 1024 && 1 <= Z <= 1024
    requires ioh + GRF_SIZE * (Z * (Y * X)) <= buf.Length
    modifies buf
    ensures Filled(buf, ioh, Z * (Y * X), Y, Z)
    ensures forall b | 0 <= b < buf.Length && (b < ioh || ioh + GRF_SIZE * (Z * (Y * X)) <= b) :: buf[b] == old(buf[b])
  {
    hide Filled;
    assert Filled(buf, ioh, 0, Y, Z) by { NothingFilled(buf, ioh, Y, Z); }
    for i := 0 to X
      invariant Filled(buf, ioh, Z * (Y * i), Y, Z)
      invariant forall b | 0 <= b < buf.Length && (b < ioh || ioh + GRF_SIZE * (Z * (Y * X)) <= b) :: buf[b] == old(buf[b])
    {
      StorePlane(buf, ioh, i, X, Y, Z);
    }
  }

  lemma NothingFilled(buf: array<byte>, ioh: nat, Y: nat, Z: nat)
    requires Y >= 1 && Z >= 1 && ioh <= buf.Length
    ensures Filled(buf, ioh, 0, Y, Z)
  {
  }

  /** The middle loop. */
  method StorePlane(buf: array<byte>, ioh: nat, i: nat, ghost X: nat, Y: nat, Z: nat)
    requires i < X <= 1024 && 1 <= Y <= 1024 && 1 <= Z <= 1024
    requires ioh + GRF_SIZE * (Z * (Y * X)) <= buf.Length && Filled(buf, ioh, Z * (Y * i), Y, Z)
    modifies buf
    ensures Filled(buf, ioh, Z * (Y * (i + 1)), Y, Z)
    ensures forall b | 0 <= b < buf.Length && (b < ioh || ioh + GRF_SIZE * (Z * (Y * X)) <= b) :: buf[b] == old(buf[b])
  {
    hide Filled, Value;
    ghost var limit := Z * (Y * X);
    var n := Z * (Y * i);
    EndsOfPlane(i, Y, Z);
    for j := 0 to Y
      invariant n == Value(Id(0, j, i), Z, Y) && Filled(buf, ioh, n, Y, Z)
      invariant forall b | 0 <= b < buf.Length && (b < ioh || ioh + GRF_SIZE * limit <= b) :: buf[b] == old(buf[b])
    {
      RowInGroup(i, j, X, Y, Z);
      StoreRow(buf, ioh, n, i, j, Y, Z);
      n := n + Z;
    }
  }

  lemma EndsOfPlane(i: nat, Y: nat, Z: nat)
    ensures Value(Id(0, 0, i), Z, Y) == Z * (Y * i) && Value(Id(0, Y, i), Z, Y) == Z * (Y * (i + 1))
  {
    Distribute(Y, i, 1);
  }

  lemma RowInGroup(i: nat, j: nat, X: nat, Y: nat, Z: nat)
    requires i < X && j < Y
    ensures Value(Id(0, j, i), Z, Y) + Z == Value(Id(0, j + 1, i), Z, Y) <= Z * (Y * X)
  {
    Distribute(Z, j + Y * i, 1);
    Distribute(Y, i, 1);
    MulMonotone(Y, i + 1, X);
    MulMonotone(Z, j + 1 + Y * i, Y * X);
  }

  /** Every work-item runs exactly once if and only if the group is as deep as it is wide. */
  lemma EachItemOnceIff(X: nat, Y: nat, Z: nat)
    requires X >= 1 && Y >= 1 && Z >= 1
    ensures (&& (forall n: nat | n < Z * (Y * X) :: InBox(IdOf(n, Z, Y), X, Y, Z))
             && (forall d: Id | InBox(d, X, Y, Z) :: exists n: nat :: n < Z * (Y * X) && IdOf(n, Z, Y) == d)
             && (forall m: nat, n: nat | IdOf(m, Z, Y) == IdOf(n, Z, Y) :: m == n))
            <==> X == Z
  {
    hide IdOf;
    forall m: nat, n: nat | IdOf(m, Z, Y) == IdOf(n, Z, Y)
      ensures m == n
    {
      IdOfInRange(m, Z, Y);
      IdOfInRange(n, Z, Y);
    }
    assert Z * (Y * X) == Z * Y * X;
    if X == Z {
      forall n: nat | n < Z * (Y * X) ensures InBox(IdOf(n, Z, Y), X, Y, Z) { ItemOfNumber(n, Z, Y, X); }
      forall d: Id | InBox(d, X, Y, Z) ensures exists n: nat :: n < Z * (Y * X) && IdOf(n, Z, Y) == d {
        NumberOfItem(d, Z, Y, X);
        assert IdOf(Value(d, Z, Y), Z, Y) == d;
      }
    } else if X < Z {
      var n := Z - 1;
      NumberOfItem(Id(n, 0, 0), Z, Y, X);
      assert Value(Id(n, 0, 0), Z, Y) == n;
      assert !InBox(IdOf(n, Z, Y), X, Y, Z);
    } else {
      var d := Id(X - 1, 0, 0);
      forall n: nat ensures IdOf(n, Z, Y) != d { IdOfInRange(n, Z, Y); }
      assert InBox(d, X, Y, Z);
    }
  }
}
