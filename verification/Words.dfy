/** Bytes of memory, and the little-endian numbers they hold. */
module Words {

  type byte = b: int | 0 <= b < 0x100
  type uint32 = w: int | 0 <= w < 0x1_0000_0000

  /** The 16-bit number stored at byte p. */
  function Word16(buf: array<byte>, p: nat): nat
    requires p + 2 <= buf.Length
    reads buf
  {
    var low: int, high: int := buf[p], buf[p + 1];
    low + 0x100 * high
  }

  /** The 32-bit number stored low byte first at position p. */
  function U32At(m: seq<byte>, p: nat): (v: uint32)
    requires p + 4 <= |m|
  {
    var a: int, b: int, c: int, d: int := m[p], m[p + 1], m[p + 2], m[p + 3];
    a + 0x100 * b + 0x1_0000 * c + 0x100_0000 * d
  }

  function U32Bytes(v: uint32): (b: seq<byte>)
    ensures |b| == 4
  {
    [v % 0x100, v / 0x100 % 0x100, v / 0x1_0000 % 0x100, v / 0x100_0000]
  }

  /** Byte j of a number, the low one first. */
  function ByteOf(v: nat, j: nat): byte
  {
    if j == 0 then v % 0x100 else ByteOf(v / 0x100, j - 1)
  }

  lemma BytesOfDword(v: uint32, j: nat)
    requires j < 4
    ensures U32Bytes(v)[j] == ByteOf(v, j)
  {
    var q: nat := v / 0x100;
    assert v / 0x1_0000 == q / 0x100 && v / 0x100_0000 == q / 0x100 / 0x100;
    assert ByteOf(v, 0) == v % 0x100 && ByteOf(v, 1) == q % 0x100 && ByteOf(v, 2) == q / 0x100 % 0x100;
    assert ByteOf(v, 3) == q / 0x100 / 0x100 % 0x100;
  }

  /** A dword in memory is made of its bytes. */
  lemma U32IsBytes(m: seq<byte>, p: nat, v: uint32)
    requires p + 4 <= |m| && forall j | 0 <= j < 4 :: m[p + j] == ByteOf(v, j)
    ensures U32At(m, p) == v
  {
    forall j | 0 <= j < 4 ensures m[p + j] == U32Bytes(v)[j] { BytesOfDword(v, j); }
    assert m[p + 0] == U32Bytes(v)[0] && m[p + 1] == U32Bytes(v)[1];
    assert m[p + 2] == U32Bytes(v)[2] && m[p + 3] == U32Bytes(v)[3];
    BytesOfWord(v);
  }

  /** The bytes of a 64-bit number are those of its low and then those of its high half. */
  lemma BytesOfHalves(v: nat, j: nat)
    ensures ByteOf(v, j) == if j < 4 then ByteOf(v % 0x1_0000_0000, j) else ByteOf(v / 0x1_0000_0000, j - 4)
  {
    assert Pow256(0) == 1 && Pow256(1) == 0x100 && Pow256(2) == 0x1_0000 && Pow256(3) == 0x100_0000;
    JoinedBytes(v % 0x1_0000_0000, 4, v / 0x1_0000_0000, j);
  }

  function Pow256(n: nat): nat { if n == 0 then 1 else 0x100 * Pow256(n - 1) }

  lemma {:induction false} JoinedBytes(low: nat, n: nat, high: nat, j: nat)
    requires low < Pow256(n)
    ensures ByteOf(low + Pow256(n) * high, j) == if j < n then ByteOf(low, j) else ByteOf(high, j - n)
  {
    if n > 0 {
      ByteStep(low, Pow256(n - 1), high);
      if j > 0 { JoinedBytes(low / 0x100, n - 1, high, j - 1); }
    }
  }

  lemma ByteStep(low: nat, m: nat, high: nat)
    ensures (low + 0x100 * m * high) % 0x100 == low % 0x100 && (low + 0x100 * m * high) / 0x100 == low / 0x100 + m * high
  {
    assert low + 0x100 * m * high == 0x100 * (low / 0x100 + m * high) + low % 0x100 by { Regroup(low, m, high); }
    var n, q, r := low + 0x100 * m * high, low / 0x100 + m * high, low % 0x100;
    assert n / 0x100 == q && n % 0x100 == r;
  }

  lemma Regroup(low: nat, m: nat, high: nat)
    ensures 0x100 * m * high == 0x100 * (m * high)
  {
  }

  lemma U32RoundTrip(before: seq<byte>, v: uint32, after: seq<byte>)
    ensures U32At(before + U32Bytes(v) + after, |before|) == v
  {
    var m, p := before + U32Bytes(v) + after, |before|;
    assert m[p] == U32Bytes(v)[0] && m[p + 1] == U32Bytes(v)[1];
    assert m[p + 2] == U32Bytes(v)[2] && m[p + 3] == U32Bytes(v)[3];
    BytesOfWord(v);
  }

  lemma BytesOfWord(v: uint32)
    ensures v == v % 0x100 + 0x100 * (v / 0x100 % 0x100) + 0x1_0000 * (v / 0x1_0000 % 0x100)
                 + 0x100_0000 * (v / 0x100_0000)
  {
    var q := v / 0x100;
    assert v / 0x1_0000 == q / 0x100 && v / 0x100_0000 == q / 0x100 / 0x100;
  }

  /** A number in memory depends only on its four bytes. */
  lemma U32Local(m: seq<byte>, p: nat, n: seq<byte>, q: nat)
    requires p + 4 <= |m| && q + 4 <= |n| && m[p..p + 4] == n[q..q + 4]
    ensures U32At(m, p) == U32At(n, q)
  {
    var a, b := m[p..p + 4], n[q..q + 4];
    assert a[0] == m[p] && a[1] == m[p + 1] && a[2] == m[p + 2] && a[3] == m[p + 3];
    assert b[0] == n[q] && b[1] == n[q + 1] && b[2] == n[q + 2] && b[3] == n[q + 3];
  }

  /** Memory with the bytes from `at` on replaced. */
  function Patch(m: seq<byte>, at: nat, bytes: seq<byte>): (r: seq<byte>)
    requires at + |bytes| <= |m|
    ensures |r| == |m|
    ensures forall i | 0 <= i < |m| :: r[i] == if at <= i < at + |bytes| then bytes[i - at] else m[i]
  {
    m[..at] + bytes + m[at + |bytes|..]
  }

  /** `memcpy` into an array. */
  method CopyInto(buf: array<byte>, at: nat, bytes: seq<byte>)
    requires at + |bytes| <= buf.Length
    modifies buf
    ensures buf[..] == Patch(old(buf[..]), at, bytes)
  {
    forall i | 0 <= i < |bytes| {
      buf[at + i] := bytes[i];
    }
  }

  function DwordBytes(ds: seq<uint32>): (b: seq<byte>)
    ensures |b| == 4 * |ds|
  {
    if ds == [] then [] else U32Bytes(ds[0]) + DwordBytes(ds[1..])
  }

  lemma {:induction false} DwordBytesAppend(xs: seq<uint32>, ys: seq<uint32>)
    ensures DwordBytes(xs + ys) == DwordBytes(xs) + DwordBytes(ys)
  {
    if xs == [] {
      assert xs + ys == ys;
    } else {
      DwordBytesAppend(xs[1..], ys);
      assert (xs + ys)[1..] == xs[1..] + ys && (xs + ys)[0] == xs[0];
    }
  }

  /** The i-th dword of memory that holds dwords. */
  lemma {:induction false} DwordRoundTrip(before: seq<byte>, ds: seq<uint32>, after: seq<byte>, i: nat)
    requires i < |ds|
    ensures U32At(before + DwordBytes(ds) + after, |before| + 4 * i) == ds[i]
    decreases i
  {
    var m := before + DwordBytes(ds) + after;
    if i == 0 {
      assert m == before + U32Bytes(ds[0]) + (DwordBytes(ds[1..]) + after);
      U32RoundTrip(before, ds[0], DwordBytes(ds[1..]) + after);
    } else {
      assert m == (before + U32Bytes(ds[0])) + DwordBytes(ds[1..]) + after;
      DwordRoundTrip(before + U32Bytes(ds[0]), ds[1..], after, i - 1);
    }
  }

  /** The n dwords from position p on. */
  function DwordsAt(m: seq<byte>, p: nat, n: nat): (ds: seq<uint32>)
    requires p + 4 * n <= |m|
    ensures |ds| == n
  {
    seq(n, i requires 0 <= i < n => U32At(m, p + 4 * i))
  }

  lemma DwordsReadBack(m: seq<byte>, p: nat, ds: seq<uint32>)
    requires p + 4 * |ds| <= |m| && m[p..p + 4 * |ds|] == DwordBytes(ds)
    ensures DwordsAt(m, p, |ds|) == ds
  {
    hide U32At, DwordBytes;
    assert m == m[..p] + DwordBytes(ds) + m[p + 4 * |ds|..];
    forall i | 0 <= i < |ds| ensures DwordsAt(m, p, |ds|)[i] == ds[i]
    {
      DwordRoundTrip(m[..p], ds, m[p + 4 * |ds|..], i);
    }
  }

  /** Patching inside a patch. */
  lemma PatchInside(m: seq<byte>, at: nat, x: seq<byte>, k: nat, y: seq<byte>)
    requires at + |x| <= |m| && k + |y| <= |x|
    ensures Patch(Patch(m, at, x), at + k, y) == Patch(m, at, Patch(x, k, y))
  {
  }
}
