/** `BufferObject`: pinned memory with a bump offset, as the launch heaps and command streams use it. */
module BufferObjects {
  import opened Options
  import opened Bits
  import opened Words
  import opened DriverUtils
  import opened Commands

  function Zeros(n: nat): seq<byte> { seq(n, _ => 0) }

  /** Padding is no-op commands. */
  lemma PaddingDoesNothing(n: nat, i: nat)
    requires 4 * i + 4 <= n
    ensures Classify(U32At(Zeros(n), 4 * i)) == Some((Noop, 1))
  {
    var m := Zeros(n);
    assert m[4 * i] == m[4 * i + 1] == m[4 * i + 2] == m[4 * i + 3] == 0;
  }

  /** A stream once the first k commands of a list have been written behind `before`. */
  function Written(before: seq<byte>, cs: seq<Command>, k: nat): seq<byte>
    requires k <= |cs|
  {
    before + DwordBytes(Flatten(cs[..k]))
  }

  class BufferObject {
    const cpuAddress: array<byte>
    const gpuAddress: nat
    var offset: nat
    var currentTaskOffset: nat

    ghost predicate Valid()
      reads this
    {
      currentTaskOffset <= offset <= cpuAddress.Length
    }

    /** What has been appended so far. */
    ghost function Used(): seq<byte>
      requires Valid()
      reads this, cpuAddress
    {
      cpuAddress[..offset]
    }

    constructor (size: nat, gpuAddress: nat)
      ensures Valid() && fresh(cpuAddress) && cpuAddress.Length == size && this.gpuAddress == gpuAddress
      ensures offset == 0 && currentTaskOffset == 0
    {
      cpuAddress := new byte[size](_ => 0);
      this.gpuAddress := gpuAddress;
      offset, currentTaskOffset := 0, 0;
    }

    /** `ptrOffset`: hands out the current position and advances past n bytes. */
    method PtrOffset(n: nat) returns (position: nat)
      requires Valid() && offset + n <= cpuAddress.Length
      modifies this`offset, this`currentTaskOffset
      ensures Valid() && position == old(offset)
      ensures offset == old(offset) + n && currentTaskOffset == old(currentTaskOffset) + n
    {
      position := offset;
      offset := offset + n;
      currentTaskOffset := currentTaskOffset + n;
    }

    /** A command is placed at the end: what was there before stays as it was. */
    method Append(c: Command)
      requires Valid() && offset + 4 * |c| <= cpuAddress.Length
      modifies this`offset, this`currentTaskOffset, cpuAddress
      ensures Valid() && Used() == old(Used()) + DwordBytes(c)
      ensures offset == old(offset) + 4 * |c| && currentTaskOffset == old(currentTaskOffset) + 4 * |c|
    {
      var position := PtrOffset(4 * |c|);
      CopyInto(cpuAddress, position, DwordBytes(c));
    }

    /** `alignToCacheLine`: zeros (no-op commands) up to the next cache line. */
    method AlignToCacheLine()
      requires Valid() && Ceil(offset, CACHE_LINE_SIZE) <= cpuAddress.Length
      modifies this`offset, this`currentTaskOffset, cpuAddress
      ensures Valid() && Used() == old(Used()) + Zeros(Ceil(old(offset), CACHE_LINE_SIZE) - old(offset))
      ensures offset == Ceil(old(offset), CACHE_LINE_SIZE)
      ensures currentTaskOffset == old(currentTaskOffset) + (offset - old(offset))
    {
      var partialCacheLine := And(offset, CACHE_LINE_SIZE - 1);
      PartialLine(offset);
      if partialCacheLine != 0 {
        var amountToPad := CACHE_LINE_SIZE - partialCacheLine;
        CopyInto(cpuAddress, offset, Zeros(amountToPad));
        offset := offset + amountToPad;
        currentTaskOffset := currentTaskOffset + amountToPad;
      }
    }

    /** The first k commands of a list have been appended behind `before`, and nothing else for this task. */
    ghost predicate HasWritten(before: seq<byte>, cs: seq<Command>, k: nat)
      requires k <= |cs|
      reads this, cpuAddress
    {
      Valid() && Used() == Written(before, cs, k) && currentTaskOffset == |Written(before, cs, k)| - |before|
    }

    /** One more command of the list. */
    method AppendNext(ghost before: seq<byte>, ghost cs: seq<Command>, ghost k: nat, c: Command)
      requires k < |cs| && c == cs[k] && |Written(before, cs, |cs|)| <= cpuAddress.Length
      requires HasWritten(before, cs, k)
      modifies this`offset, this`currentTaskOffset, cpuAddress
      ensures HasWritten(before, cs, k + 1)
    {
      FlattenNext(cs, k);
      LengthSplit(cs[..k + 1], cs[k + 1..]);
      assert cs == cs[..k + 1] + cs[k + 1..] && cs[..|cs|] == cs;
      Append(c);
      DwordBytesAppend(Flatten(cs[..k]), c);
    }
  }

  lemma {:induction false} LengthSplit(xs: seq<Command>, ys: seq<Command>)
    ensures |Flatten(xs + ys)| == |Flatten(xs)| + |Flatten(ys)|
  {
    if xs == [] {
      assert xs + ys == ys;
    } else {
      LengthSplit(xs[1..], ys);
      assert (xs + ys)[1..] == xs[1..] + ys;
    }
  }

  lemma PartialLine(n: nat)
    ensures And(n, CACHE_LINE_SIZE - 1) == n % 64
    ensures Ceil(n, CACHE_LINE_SIZE) == if n % 64 == 0 then n else n + (64 - n % 64)
  {
    hide And, Pow2;
    Pow2Constants();
    AndLowMask(n, 6);
  }

  lemma {:induction false} FlattenAppend(xs: seq<Command>, c: Command)
    ensures Flatten(xs + [c]) == Flatten(xs) + c
  {
    if xs == [] {
      assert [] + [c] == [c] && c + [] == c;
    } else {
      FlattenAppend(xs[1..], c);
      assert (xs + [c])[1..] == xs[1..] + [c];
    }
  }

  lemma FlattenNext(cs: seq<Command>, k: nat)
    requires k < |cs|
    ensures Flatten(cs[..k + 1]) == Flatten(cs[..k]) + cs[k]
  {
    FlattenAppend(cs[..k], cs[k]);
    assert cs[..k + 1] == cs[..k] + [cs[k]];
  }

  predicate Disjoint(m: Memory)
  {
    m.csr.base + |m.csr.bytes| <= m.task.base || m.task.base + |m.task.bytes| <= m.csr.base
  }

  /** A stream that holds commands after `before` bytes holds them for the command streamer as well, whatever
      has been appended since. */
  lemma TaskHolds(m: Memory, before: seq<byte>, ds: seq<uint32>)
    requires before + DwordBytes(ds) <= m.task.bytes
    ensures Holds(m, m.task.base + |before|, ds)
  {
    hide U32At, DwordBytes;
    forall i | 0 <= i < |ds|
      ensures Fetch(m, m.task.base + |before| + 4 * i) == Some(ds[i])
    {
      DwordInside(m.task.bytes, before, ds, i);
    }
  }

  lemma ReceiverHolds(m: Memory, before: seq<byte>, ds: seq<uint32>)
    requires before + DwordBytes(ds) <= m.csr.bytes && Disjoint(m)
    ensures Holds(m, m.csr.base + |before|, ds)
  {
    hide U32At, DwordBytes;
    forall i | 0 <= i < |ds|
      ensures Fetch(m, m.csr.base + |before| + 4 * i) == Some(ds[i])
    {
      DwordInside(m.csr.bytes, before, ds, i);
    }
  }

  lemma DwordInside(bytes: seq<byte>, before: seq<byte>, ds: seq<uint32>, i: nat)
    requires before + DwordBytes(ds) <= bytes && i < |ds|
    ensures |before| + 4 * i + 4 <= |bytes| && U32At(bytes, |before| + 4 * i) == ds[i]
  {
    hide U32At, DwordBytes;
    var front := before + DwordBytes(ds);
    PrefixAndRest(front, bytes);
    DwordRoundTrip(before, ds, bytes[|front|..], i);
  }

  lemma PrefixAndRest(front: seq<byte>, bytes: seq<byte>)
    requires front <= bytes
    ensures bytes == front + bytes[|front|..]
  {
  }
}
