/** `createDynamicStateHeap`: the interface descriptor of a launch. */
module DynamicHeap {
  import opened Bits
  import opened Words
  import opened DriverUtils
  import opened Commands
  import opened BufferObjects
  import SurfaceHeap

  /** What the descriptor is told: the kernel's distance from the heap base, the binding table, shared local
      memory in bytes, the threads of a group, the registers of cross-thread and per-thread data, and whether
      the kernel uses barriers. */
  datatype Interface = Interface(kernelDistance: nat, bindings: nat, surfaceHeapEnd: nat, sharedLocalMemory: nat,
                                 threads: nat, crossThreadDataSize: nat, localIdSizePerThread: nat, hasBarriers: nat)

  /** `computeSharedLocalMemoryValue`: 1 for up to 1 KiB, and one more for each doubling up to 64 KiB. */
  function SharedLocalMemoryValue(size: nat): nat
  {
    if size <= 0x400 then 1 else if size <= 0x800 then 2 else if size <= 0x1000 then 3 else if size <= 0x2000 then 4
    else if size <= 0x4000 then 5 else if size <= 0x8000 then 6 else 7
  }

  /** The encoding is the least one that covers the request, for every request up to 64 KiB. */
  lemma SharedLocalMemoryCovers(size: nat, v: nat)
    requires 1 <= size <= 0x1_0000 && 1 <= v <= 7
    ensures size <= 0x200 * Pow2(v) <==> SharedLocalMemoryValue(size) <= v
  {
    assert Pow2(1) == 2 && Pow2(2) == 4 && Pow2(3) == 8 && Pow2(4) == 16;
    assert Pow2(5) == 32 && Pow2(6) == 64 && Pow2(7) == 128;
  }

  function Min(a: nat, b: nat): nat { if a < b then a else b }
  function Max(a: nat, b: nat): nat { if a < b then b else a }

  /** The eight dwords of INTERFACE_DESCRIPTOR_DATA. */
  function Descriptor(i: Interface): (d: Command)
    requires i.surfaceHeapEnd >= CACHE_LINE_SIZE
    ensures |d| == 8
  {
    [ FieldAt(i.kernelDistance % TWO_32 / 0x40, 0x40, 0x400_0000),
      FieldAt(i.kernelDistance / TWO_32, 1, 0x1_0000),
      0x8_0000,
      0,
      Min(i.bindings, 31) + SurfaceHeap.BindingTablePointer(i.surfaceHeapEnd) * 0x20,
      FieldAt(Max(i.localIdSizePerThread / 0x20, 1), 0x1_0000, 0x1_0000),
      FieldAt(i.threads, 1, 0x400)
      + (if i.sharedLocalMemory == 0 then 0 else FieldAt(SharedLocalMemoryValue(i.sharedLocalMemory), 0x1_0000, 0x20))
      + FieldAt(i.hasBarriers, 0x20_0000, 2),
      FieldAt(i.crossThreadDataSize / 0x20, 1, 0x100) ]
  }

  /** What the hardware reads from a descriptor: where the kernel starts relative to the instruction base, and
      where the binding table lies relative to the surface base. */
  function KernelStart(d: Command): nat
    requires |d| == 8
  {
    var low: int, high: int := d[0], d[1];
    low / 0x40 * 0x40 + high % 0x1_0000 * TWO_32
  }

  function TablePlace(d: Command): nat
    requires |d| == 8
  {
    d[4] / 0x20 % 0x800 * 0x20
  }

  /** The descriptor leads the hardware to the kernel and to the place the driver computed for the table. */
  lemma DescriptorLeadsToKernelAndTable(i: Interface)
    requires i.surfaceHeapEnd >= CACHE_LINE_SIZE && i.kernelDistance < TWO_32 && i.kernelDistance % 0x40 == 0
    ensures KernelStart(Descriptor(i)) == i.kernelDistance
    ensures TablePlace(Descriptor(i)) == SurfaceHeap.BindingTablePlace(i.surfaceHeapEnd)
    ensures Descriptor(i)[4] % 0x20 == Min(i.bindings, 31)
  {
    var q := i.kernelDistance / 0x40;
    assert i.kernelDistance == 0x40 * q && q % 0x400_0000 == q;
    var b, p := Min(i.bindings, 31), SurfaceHeap.BindingTablePointer(i.surfaceHeapEnd);
    hide SurfaceHeap.BindingTablePointer;
    assert p < 0x800 by { PointerBelow(i.surfaceHeapEnd); }
    DivModUnique(b + p * 0x20, 0x20, p, b);
    assert p % 0x800 == p;
  }

  /** The counts the hardware reads from a descriptor. */
  function GroupThreads(d: Command): nat
    requires |d| == 8
  {
    d[6] % 0x400
  }

  function LocalMemoryCode(d: Command): nat
    requires |d| == 8
  {
    d[6] / 0x1_0000 % 0x20
  }

  /** Shared local memory that the hardware sets aside for a group. */
  function LocalMemoryBytes(d: Command): nat
    requires |d| == 8
  {
    if LocalMemoryCode(d) == 0 then 0 else 0x200 * Pow2(LocalMemoryCode(d))
  }

  predicate UsesBarriers(d: Command)
    requires |d| == 8
  {
    d[6] / 0x20_0000 % 2 == 1
  }

  /** Denormal numbers are the kernel's affair, and every bit outside the fields above is clear. */
  predicate NothingElse(d: Command)
    requires |d| == 8
  {
    && d[2] == 0x8_0000 && d[3] == 0 && d[0] % 0x40 == 0 && d[1] < 0x1_0000 && d[4] < 0x1_0000 && d[5] % 0x1_0000 == 0
    && d[6] / 0x400 % 0x40 == 0 && d[6] < 0x40_0000 && d[7] < 0x100
  }

  /** Bytes of per-thread and of cross-thread data that a thread is loaded with. */
  function PerThreadBytes(d: Command): nat
    requires |d| == 8
  {
    d[5] / 0x1_0000 * 0x20
  }

  function CrossThreadBytes(d: Command): nat
    requires |d| == 8
  {
    d[7] % 0x100 * 0x20
  }

  /** Shared local memory, barriers and per-thread data arrive as they were meant.  The thread count does exactly
      below 1024, and cross-thread data is loaded completely exactly when it is whole registers, fewer than 256
      of them; otherwise less of it is loaded. */
  lemma DescriptorCounts(i: Interface)
    requires i.surfaceHeapEnd >= CACHE_LINE_SIZE
    requires 0x20 <= i.localIdSizePerThread < 0x20_0000 && i.localIdSizePerThread % 0x20 == 0
    ensures var d := Descriptor(i);
            && GroupThreads(d) == i.threads % 0x400
            && (GroupThreads(d) == i.threads <==> i.threads < 0x400)
            && LocalMemoryCode(d) == (if i.sharedLocalMemory == 0 then 0 else SharedLocalMemoryValue(i.sharedLocalMemory))
            && (UsesBarriers(d) <==> i.hasBarriers % 2 == 1)
            && PerThreadBytes(d) == i.localIdSizePerThread
            && CrossThreadBytes(d) <= i.crossThreadDataSize
            && (CrossThreadBytes(d) == i.crossThreadDataSize
                <==> i.crossThreadDataSize % 0x20 == 0 && i.crossThreadDataSize < 0x2000)
  {
    var code := if i.sharedLocalMemory == 0 then 0 else SharedLocalMemoryValue(i.sharedLocalMemory);
    SixthDword(i.threads % 0x400, code, i.hasBarriers % 2);
    var q := i.localIdSizePerThread / 0x20;
    assert i.localIdSizePerThread == 0x20 * q && 1 <= q < 0x1_0000;
    DivModUnique(q * 0x1_0000, 0x1_0000, q, 0);
    var regs := i.crossThreadDataSize / 0x20;
    DivModUnique(i.crossThreadDataSize, 0x20, regs, i.crossThreadDataSize % 0x20);
    hide SurfaceHeap.BindingTablePointer, SharedLocalMemoryValue;
  }

  lemma SixthDword(threads: nat, code: nat, barriers: nat)
    requires threads < 0x400 && code < 0x20 && barriers < 2
    ensures var d := threads + code * 0x1_0000 + barriers * 0x20_0000;
            d % 0x400 == threads && d / 0x1_0000 % 0x20 == code && d / 0x20_0000 % 2 == barriers
  {
    var d := threads + code * 0x1_0000 + barriers * 0x20_0000;
    DivModUnique(d, 0x400, code * 0x40 + barriers * 0x800, threads);
    DivModUnique(d, 0x1_0000, code + 0x20 * barriers, threads);
    DivModUnique(code + 0x20 * barriers, 0x20, barriers, code);
    DivModUnique(d, 0x20_0000, barriers, threads + code * 0x1_0000);
  }

  /** Nothing but these fields is set. */
  lemma OtherBitsClear(i: Interface)
    requires i.surfaceHeapEnd >= CACHE_LINE_SIZE
    ensures NothingElse(Descriptor(i))
  {
    hide SurfaceHeap.BindingTablePointer;
    PointerBelow(i.surfaceHeapEnd);
    SixthGaps(i.threads % 0x400, if i.sharedLocalMemory == 0 then 0 else SharedLocalMemoryValue(i.sharedLocalMemory),
              i.hasBarriers % 2);
    LowBitsClear(i.kernelDistance % TWO_32 / 0x40 % 0x400_0000, Max(i.localIdSizePerThread / 0x20, 1) % 0x1_0000);
    hide SharedLocalMemoryValue, Max;
  }

  lemma SixthGaps(threads: nat, code: nat, barriers: nat)
    requires threads < 0x400 && code < 0x20 && barriers < 2
    ensures var d := threads + code * 0x1_0000 + barriers * 0x20_0000; d / 0x400 % 0x40 == 0 && d < 0x40_0000
  {
    DivModUnique(threads + code * 0x1_0000 + barriers * 0x20_0000, 0x400, code * 0x40 + barriers * 0x800, threads);
    DivModUnique(code * 0x40 + barriers * 0x800, 0x40, code + barriers * 0x20, 0);
  }

  lemma LowBitsClear(a: nat, b: nat)
    ensures a * 0x40 % 0x40 == 0 && b * 0x1_0000 % 0x1_0000 == 0
  {
    DivModUnique(0x40 * a, 0x40, a, 0);
    DivModUnique(0x1_0000 * b, 0x1_0000, b, 0);
  }

  /** With the code for `bytes`, the request rounded up to kilobytes, at most 64 KiB are set aside, enough for every request
      up to that and no more than twice as much. */
  lemma LocalMemoryOf(d: Command, bytes: nat, request: nat)
    requires |d| == 8 && LocalMemoryCode(d) == if bytes == 0 then 0 else SharedLocalMemoryValue(bytes)
    requires bytes != 0 ==> request <= bytes < request + KILO_BYTE && bytes % KILO_BYTE == 0
    requires bytes == 0 ==> request == 0 || request > 0x1_0000
    ensures LocalMemoryCode(d) != 0 <==> bytes != 0
    ensures request <= LocalMemoryBytes(d) <==> request <= 0x1_0000
    ensures LocalMemoryBytes(d) <= 0x1_0000 && (LocalMemoryBytes(d) <= 0x400 || LocalMemoryBytes(d) < 2 * request)
  {
    assert Pow2(1) == 2 && Pow2(2) == 4 && Pow2(3) == 8 && Pow2(4) == 16;
    assert Pow2(5) == 32 && Pow2(6) == 64 && Pow2(7) == 128;
    hide Pow2, LocalMemoryCode;
    if 0 < bytes <= 0x1_0000 {
      var q := bytes / KILO_BYTE;
      assert bytes == KILO_BYTE * q;
    }
  }

  lemma PointerBelow(end: nat)
    requires end >= CACHE_LINE_SIZE
    ensures SurfaceHeap.BindingTablePointer(end) < 0x800
  {
  }

  /** `createDynamicStateHeap` on an allocated heap: the descriptor goes to the end, and the offset (not the
      task offset) is rounded up. */
  method AppendDescriptor(bo: BufferObject, d: Command)
    requires bo.Valid() && |d| == 8 && bo.offset % 64 == 0 && bo.offset + 64 <= bo.cpuAddress.Length <= TWO_32
    modifies bo`offset, bo`currentTaskOffset, bo.cpuAddress
    ensures bo.Valid() && bo.offset == old(bo.offset) + 64
    ensures bo.cpuAddress[..old(bo.offset) + 32] == old(bo.Used()) + DwordBytes(d)
    ensures DescriptorStart(bo.offset) == old(bo.offset)
  {
    hide AlignUp, DwordBytes;
    var start := bo.offset;
    bo.Append(d);
    AlignedEnd(start);
    bo.offset := AlignUp(bo.offset, CACHE_LINE_SIZE);
  }

  /** The descriptor's place, computed backwards from the heap's end. */
  function DescriptorStart(end: nat): int { end - AlignUp(32, 64) }

  lemma AlignedEnd(start: nat)
    requires start % 64 == 0 && start + 64 <= TWO_32
    ensures AlignUp(start + 32, 64) == start + 64 && AlignUp(32, 64) == 64
  {
    hide AlignUp;
    AlignUpTo64(start + 32);
    AlignUpTo64(32);
  }
}
