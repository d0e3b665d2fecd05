/** `createIndirectObjectHeap`: the cross-thread data and the local IDs of a launch are appended to the
    indirect-object heap, and the walker is pointed at them.
 */
module IndirectHeap {
  import opened Bits
  import opened Words
  import opened DriverUtils
  import opened LocalIds
  import opened PackedIds
  import opened WorkGroup
  import opened SimdOneIds
  import opened BufferObjects
  import HeapAllocator

  const GRF: nat := 32

  /** What a launch brings: its cross-thread data (with the kernel constants patched in), the work-group, the
      SIMD size the kernel was compiled for, and which local-ID channels the kernel reads. */
  datatype Indirect = Indirect(crossThreadData: seq<byte>, X: nat, Y: nat, Z: nat, simdSize: nat, present: Channels)
  {
    predicate Valid()
    {
      && 1 <= X <= 1024 && 1 <= Y <= 1024 && 1 <= Z <= 1024 && LocalSize() <= 1024
      && (IsSimd(simdSize) || simdSize == 1)
    }

    function LocalSize(): nat { Z * (Y * X) }

    function Threads(): nat
      requires simdSize >= 1
    {
      HwThreads(LocalSize(), simdSize)
    }
  }

  /** Bytes of local IDs per thread that the driver reserves (and, at least one register, reports). */
  function ReservedPerThread(simdSize: nat, channels: nat): nat
  {
    (if simdSize == 32 then 2 else 1) * GRF * (if simdSize == 1 then 1 else channels)
  }

  function PerThreadDataSize(k: Indirect): nat
    requires k.simdSize >= 1
  {
    k.Threads() * ReservedPerThread(k.simdSize, k.present.Count())
  }

  /** Bytes the generator may touch. */
  function GeneratedSize(k: Indirect): nat
    requires k.simdSize >= 1
  {
    if k.simdSize == 1 then GRF_SIZE * k.LocalSize() else Footprint(k.Threads(), k.simdSize)
  }

  function NextOffset(offset: nat, k: Indirect): nat
    requires k.simdSize >= 1
  {
    Ceil(offset + |k.crossThreadData| + PerThreadDataSize(k), CACHE_LINE_SIZE)
  }

  /** The heap has room for what the driver reserves and for what the generator writes. */
  predicate Room(offset: nat, k: Indirect, length: nat)
    requires k.simdSize >= 1
  {
    && NextOffset(offset, k) <= length <= TWO_32
    && offset + |k.crossThreadData| + GeneratedSize(k) <= length
  }

  /** The local IDs from byte `at` on are those of the launch. */
  ghost predicate HoldsIds(heap: array<byte>, at: nat, k: Indirect)
    requires k.Valid()
    reads heap
  {
    if k.simdSize == 1 then Filled(heap, at, k.LocalSize(), k.Y, k.Z)
    else forall t, l | 0 <= t < k.Threads() && 0 <= l < k.simdSize ::
           ReadId(heap, at, Skip(k.simdSize), t, l) == StoredLane(t, l, k.simdSize, k.X, k.Y)
  }

  /** `createIndirectObjectHeap` on an allocated heap. */
  method AppendIndirect(bo: BufferObject, k: Indirect) returns (hwThreads: nat, perThreadDataSize: nat)
    requires bo.Valid() && k.Valid() && Room(bo.offset, k, bo.cpuAddress.Length)
    modifies bo`offset, bo.cpuAddress
    ensures bo.Valid() && bo.offset == NextOffset(old(bo.offset), k)
    ensures hwThreads == k.Threads() && perThreadDataSize == PerThreadDataSize(k)
    ensures bo.cpuAddress[old(bo.offset)..old(bo.offset) + |k.crossThreadData|] == k.crossThreadData
    ensures HoldsIds(bo.cpuAddress, old(bo.offset) + |k.crossThreadData|, k)
    ensures forall b | 0 <= b < old(bo.offset) :: bo.cpuAddress[b] == old(bo.cpuAddress[b])
  {
    hide HwThreads, AlignUp, Ceil, HoldsIds, GeneratedSize;
    var start := bo.offset;
    RoomArithmetic(start, k);
    WriteData(bo.cpuAddress, start, k);
    bo.offset := bo.offset + |k.crossThreadData|;
    hwThreads := HwThreads(k.LocalSize(), k.simdSize);
    perThreadDataSize := hwThreads * ReservedPerThread(k.simdSize, k.present.Count());
    bo.offset := bo.offset + perThreadDataSize;
    AlignUpTo64(bo.offset);
    bo.offset := AlignUp(bo.offset, CACHE_LINE_SIZE);
  }

  /** The two copies into the heap: the cross-thread data, then the local IDs right behind it. */
  method WriteData(heap: array<byte>, start: nat, k: Indirect)
    requires k.Valid() && start + |k.crossThreadData| + GeneratedSize(k) <= heap.Length
    modifies heap
    ensures heap[start..start + |k.crossThreadData|] == k.crossThreadData
    ensures HoldsIds(heap, start + |k.crossThreadData|, k)
    ensures forall b | 0 <= b < start :: heap[b] == old(heap[b])
  {
    hide HwThreads, HoldsIds, GeneratedSize, Patch;
    RoomArithmetic(start, k);
    CopyInto(heap, start, k.crossThreadData);
    assert heap[start..start + |k.crossThreadData|] == k.crossThreadData by {
      assert forall i | 0 <= i < |k.crossThreadData| :: heap[..][start + i] == k.crossThreadData[i];
    }
    assert forall b | 0 <= b < start :: heap[..][b] == old(heap[..])[b];
    WriteIds(heap, start + |k.crossThreadData|, k);
  }

  lemma RoomArithmetic(start: nat, k: Indirect)
    requires k.Valid()
    ensures start + |k.crossThreadData| + PerThreadDataSize(k) <= NextOffset(start, k)
    ensures IsSimd(k.simdSize) ==> k.Threads() * k.simdSize <= 2048
  {
    hide PerThreadDataSize, Ceil, HwThreads;
    CeilIsLeastMultiple(start + |k.crossThreadData| + PerThreadDataSize(k), CACHE_LINE_SIZE, 0);
    if IsSimd(k.simdSize) {
      MulMonotone(k.Z, 1, k.Y * k.X);
      MulMonotone(k.Y, 1, k.X);
      ThreadsCoverGroup(k.LocalSize(), k.simdSize);
      Distribute(k.simdSize, k.Threads() - 1, 1);
    }
  }

  /** The choice of generator by SIMD size. */
  method WriteIds(heap: array<byte>, at: nat, k: Indirect)
    requires k.Valid() && at + GeneratedSize(k) <= heap.Length && (IsSimd(k.simdSize) ==> k.Threads() * k.simdSize <= 2048)
    modifies heap
    ensures HoldsIds(heap, at, k)
    ensures forall b | 0 <= b < at :: heap[b] == old(heap[b])
  {
    hide HwThreads, StoredLane, Filled, ReadId;
    if k.simdSize == 16 || k.simdSize == 32 {
      GenerateLocalIdsSimd(heap, at, k.X, k.Y, k.Threads(), k.simdSize, 16);
    } else if k.simdSize == 8 {
      GenerateLocalIdsSimd(heap, at, k.X, k.Y, k.Threads(), k.simdSize, 8);
    } else {
      GenerateLocalIdsForSimdOne(heap, at, k.X, k.Y, k.Z);
    }
  }

  /** Judged by the IDs in memory, the enabled lanes run every work-item of the group exactly once. */
  ghost predicate MemoryRunsEachItemOnce(heap: array<byte>, at: nat, k: Indirect)
    requires k.Valid() && IsSimd(k.simdSize)
    reads heap
  {
    var local, skip := k.LocalSize(), Skip(k.simdSize);
    && (forall t: nat, l: nat | Enabled(t, l, local, k.simdSize) :: InBox(ReadId(heap, at, skip, t, l), k.X, k.Y, k.Z))
    && (forall d: Id | InBox(d, k.X, k.Y, k.Z) ::
          exists t: nat, l: nat :: Enabled(t, l, local, k.simdSize) && ReadId(heap, at, skip, t, l) == d)
    && (forall t: nat, l: nat, t': nat, l': nat
          | Enabled(t, l, local, k.simdSize) && Enabled(t', l', local, k.simdSize) &&
            ReadId(heap, at, skip, t, l) == ReadId(heap, at, skip, t', l') :: t == t' && l == l')
  }

  /** The IDs a launch leaves in the heap are right for exactly the groups the packed generator can handle. */
  lemma HeapIdsAreRightIff(heap: array<byte>, at: nat, k: Indirect)
    requires k.Valid() && IsSimd(k.simdSize) && HoldsIds(heap, at, k)
    ensures MemoryRunsEachItemOnce(heap, at, k) <==> Divisible(k.X, k.Y, k.Z)
  {
    hide ReadId, StoredLane, Enabled, InBox, Divisible;
    SizeOfGroup(k);
    WorkGroup.EachItemOnceIff(k.simdSize, k.X, k.Y, k.Z);
    forall t: nat, l: nat | Enabled(t, l, k.LocalSize(), k.simdSize)
      ensures ReadId(heap, at, Skip(k.simdSize), t, l) == StoredLane(t, l, k.simdSize, k.X, k.Y)
    {
      EnabledIsWithin(t, l, k.LocalSize(), k.simdSize);
    }
    assert MemoryRunsEachItemOnce(heap, at, k) <==> RunsEachItemOnce(k.simdSize, k.X, k.Y, k.Z);
  }

  lemma SizeOfGroup(k: Indirect)
    requires k.Valid()
    ensures k.LocalSize() == k.X * k.Y * k.Z
  {
  }

  lemma EnabledIsWithin(t: nat, l: nat, local: nat, simdSize: nat)
    requires 1 <= simdSize <= 32 && Enabled(t, l, local, simdSize)
    ensures t < HwThreads(local, simdSize) && l < simdSize
  {
    hide HwThreads, RightExecutionMask;
  }

  // ---------- what the launch relies on ----------

  /** The generator stays inside the bytes reserved for it exactly when the kernel reads all three channels. */
  lemma StoresInsideReservedIff(threads: nat, simdSize: nat, channels: nat)
    requires IsSimd(simdSize) && threads >= 1 && channels <= 3
    ensures Footprint(threads, simdSize) <= threads * ReservedPerThread(simdSize, channels) <==> channels == 3
  {
    if channels == 0 {
    } else if channels == 1 {
    } else if channels == 2 {
    }
    if simdSize == 8 {
    } else if simdSize == 16 {
    }
  }

  /** The walker's IndirectDataStartAddress before it is shifted: the distance of the heap from the base, plus
      its end, minus the aligned length of what the launch appended. */
  function IndirectStart(distance: nat, end: nat, k: Indirect): int
    requires k.simdSize >= 1
  {
    distance + end - AlignUp((|k.crossThreadData| + PerThreadDataSize(k)) % TWO_32, 64)
  }

  /** On a 64-aligned heap the backwards computation arrives exactly where the cross-thread data was copied,
      and the heap stays 64-aligned and grows past everything reserved. */
  lemma IndirectStartIsStart(distance: nat, start: nat, k: Indirect)
    requires k.Valid() && start % 64 == 0 && NextOffset(start, k) < TWO_32
    ensures IndirectStart(distance, NextOffset(start, k), k) == distance + start
    ensures NextOffset(start, k) % 64 == 0
    ensures start + |k.crossThreadData| + PerThreadDataSize(k) <= NextOffset(start, k)
  {
    hide PerThreadDataSize, AlignUp, Ceil;
    var n := |k.crossThreadData| + PerThreadDataSize(k);
    CeilIsLeastMultiple(start + n, 64, 0);
    CeilShift(start, n);
    AlignUpTo64(n);
  }

  /** Seen from the hardware: the base and the walker's address field (bits 6 up, 26 wide) rebuild the GPU
      address of this launch's cross-thread data, for every heap the allocator can hand out. */
  lemma HardwareFindsCrossThreadData(address: nat, start: nat, k: Indirect)
    requires k.Valid() && start % 64 == 0 && HeapAllocator.HeapAddress(address)
    requires address + NextOffset(start, k) <= HeapAllocator.HEAP_BASE + HeapAllocator.HEAP_SIZE
    requires |k.crossThreadData| > 0 && NextOffset(start, k) < TWO_32
    ensures IndirectStart(HeapAllocator.BaseDistance(address), NextOffset(start, k), k) >= 0
    ensures HeapAllocator.Field(Canonize(HeapAllocator.HEAP_BASE), 12, 52) * 0x1000
            + HeapAllocator.Field(IndirectStart(HeapAllocator.BaseDistance(address), NextOffset(start, k), k), 6, 26) * 0x40
            == Canonize(address) + start
  {
    hide PerThreadDataSize, IndirectStart, NextOffset, Canonize, HeapAllocator.Field, HeapAllocator.BaseDistance;
    IndirectStartIsStart(HeapAllocator.BaseDistance(address), start, k);
    HeapAllocator.IndirectDataRebuilds(address, start);
  }

  // ---------- every run of launches ----------

  /** The heap offset before each launch of a run, and after the last. */
  function Offsets(first: nat, ks: seq<Indirect>, i: nat): nat
    requires i <= |ks| && forall j | 0 <= j < |ks| :: ks[j].Valid()
  {
    if i == 0 then first else NextOffset(Offsets(first, ks, i - 1), ks[i - 1])
  }

  /** Over any run, every launch starts 64-aligned, and what it reserves lies below everything later launches
      reserve. */
  lemma {:induction false} RegionsAreDisjoint(first: nat, ks: seq<Indirect>, i: nat, j: nat)
    requires first % 64 == 0 && i < j <= |ks| && forall n | 0 <= n < |ks| :: ks[n].Valid()
    ensures Offsets(first, ks, i) % 64 == 0 && Offsets(first, ks, j) % 64 == 0
    ensures Offsets(first, ks, i) + |ks[i].crossThreadData| + PerThreadDataSize(ks[i]) <= Offsets(first, ks, j)
    decreases j
  {
    hide NextOffset, PerThreadDataSize;
    AlignedOffsets(first, ks, i);
    var last := Offsets(first, ks, j - 1);
    NextIsAligned(last, ks[j - 1]);
    if i < j - 1 { RegionsAreDisjoint(first, ks, i, j - 1); }
  }

  lemma {:induction false} AlignedOffsets(first: nat, ks: seq<Indirect>, i: nat)
    requires first % 64 == 0 && i <= |ks| && forall n | 0 <= n < |ks| :: ks[n].Valid()
    ensures Offsets(first, ks, i) % 64 == 0
  {
    hide NextOffset;
    if i > 0 { NextIsAligned(Offsets(first, ks, i - 1), ks[i - 1]); }
  }

  lemma NextIsAligned(offset: nat, k: Indirect)
    requires k.Valid()
    ensures NextOffset(offset, k) % 64 == 0
    ensures offset + |k.crossThreadData| + PerThreadDataSize(k) <= NextOffset(offset, k)
  {
    hide PerThreadDataSize, Ceil;
    CeilIsLeastMultiple(offset + |k.crossThreadData| + PerThreadDataSize(k), CACHE_LINE_SIZE, 0);
  }
}
