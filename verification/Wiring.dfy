/** What the hardware makes of a launch: the state its walk finds, the walk itself and its interface descriptor, taken
    apart by their bit positions, say of the launch what the driver meant.
 */
module Wiring {
  import opened Options
  import opened Bits
  import opened Words
  import opened DriverUtils
  import opened Commands
  import opened LaunchStream
  import opened GpuState
  import opened LaunchState
  import opened Runs
  import opened Launches
  import HeapAllocator
  import SurfaceHeap
  import IndirectHeap
  import DynamicHeap
  import WorkGroup
  import KernelArgs

  // ---------- what is meant ----------

  /** Rounded up to whole kilobytes in 32 bits, what the kernel asks for is not zero. */
  predicate UsesLocalMemory(k: Launch) { 0 < k.sharedLocalMemory <= TWO_32 - KILO_BYTE }

  predicate Register(g: Gpu, register: nat, value: uint32) { register in g.registers && g.registers[register] == value }

  /** General-purpose computing, with part of the L3 cache as shared local memory if the kernel uses any; threads take
      turns, walks are preempted between threads at most, and a preempted one is saved in the context's buffer. */
  predicate Configured(g: Gpu, p: Places, k: Launch)
  {
    && g.pipeline == 2 && g.samplerGated && g.preemption == p.preemption
    && (Register(g, 0x7034, 0x6000_0321) || Register(g, 0x7034, 0x8000_0340))
    && (g.registers[0x7034] % 2 == 1 <==> UsesLocalMemory(k))
    && Register(g, 0xe404, 0x100) && Register(g, 0x2580, 0x6_0000)
  }

  /** As many threads as the device has, exactly for 1 to 65536 of them, and as much scratch memory for each as the kernel
      needs, exactly if its code fits four bits. */
  predicate Staffed(f: FrontEnd, k: Launch)
  {
    && 1 <= f.maxThreads <= 0x1_0000
    && (f.maxThreads == k.maxVfeThreads <==> 1 <= k.maxVfeThreads <= 0x1_0000)
    && f.scratchSize == f.stackSize < 0x10 && (f.scratchSize == k.scratchPerThread <==> k.scratchPerThread < 0x10)
    && f.urbEntries == 1 && f.urbSize == 0x782
  }

  /** The launch's scratch memory, exactly if it starts less than a page above 2^48, at a pointer that is not zero. */
  predicate FindsScratch(g: Gpu, k: Launch)
  {
    match k.scratch
    case None => g.bases.general.address == 0 && g.frontEnd.scratch == 0
    case Some(at) =>
      && g.frontEnd.scratch > 0
      && (g.bases.general.address + g.frontEnd.scratch == at <==> at < TWO_48 + PAGE_SIZE)
  }

  /** Each heap from its own start on; the two that share the soft-pin heap, and general state, to its last page. */
  predicate Based(b: Bases6, p: Places)
  {
    && b.surface == Base(p.surfaces, 0) && b.bindless == Base(p.surfaces, 0) && b.dynamicState == Base(p.dynamicState, 0)
    && b.indirect == Base(Canonize(HeapAllocator.HEAP_BASE), 0) && b.instruction == Base(HeapAllocator.HEAP_BASE, 2)
    && b.general.caching == 0 && b.statelessCaching == 2 && b.dynamicPages * PAGE_SIZE == STREAM_SIZE
    && (b.bindlessStates + 1) * SurfaceHeap.SURFACE_STATE_SIZE + PAGE_SIZE == STREAM_SIZE
    && (b.indirectPages + 1) * PAGE_SIZE == HeapAllocator.HEAP_SIZE && b.instructionPages == b.indirectPages
    && b.generalPages == b.indirectPages
  }

  predicate FindsRoutine(g: Gpu, p: Places) { g.bases.instruction.address + g.systemRoutine == p.sip }

  /** All that the launch needs has been set up. */
  predicate IsSetUpFor(g: Gpu, p: Places, k: Launch)
  {
    Configured(g, p, k) && Staffed(g.frontEnd, k) && FindsScratch(g, k) && Based(g.bases, p) && FindsRoutine(g, p)
  }

  /** Every group of the launch is walked, and no other. */
  ghost predicate WalksEveryGroup(c: Command, k: Launch)
    requires |c| == 15
  {
    forall x: nat, y: nat, z: nat :: WalksGroup(c, x, y, z) <==> x < k.groupsX && y < k.groupsY && z < k.groupsZ
  }

  /** The counts of groups fit their dwords, or there is nothing to walk. */
  predicate Countable(k: Launch)
  {
    || (k.groupsX < TWO_32 && k.groupsY < TWO_32 && k.groupsZ < TWO_32)
    || k.groupsX == 0 || k.groupsY == 0 || k.groupsZ == 0
  }

  /** Bytes of cross-thread data and local IDs of a launch. */
  function DataSize(k: Launch): nat
    requires k.Valid()
  {
    |k.indirect.crossThreadData| + IndirectHeap.PerThreadDataSize(k.indirect)
  }

  /** The walk is the launch's: its groups, exactly if they can be counted; its threads, exactly up to 64, else what is
      left above a multiple of 64; its data, to a cache line, exactly below 128 KiB; its lanes, all of them in rows that
      are not the last. */
  ghost predicate WalkIsMeant(c: Command, k: Launch)
    requires k.Valid()
  {
    && |c| == 15 && (WalksEveryGroup(c, k) <==> Countable(k))
    && (ThreadsOfGroup(c) == k.indirect.Threads() <==> k.indirect.Threads() <= 0x40)
    && (ThreadsOfGroup(c) - k.indirect.Threads()) % 0x40 == 0 && 1 <= ThreadsOfGroup(c) <= 0x40
    && LanesOfThread(c) == (if k.indirect.simdSize == 1 then 32 else k.indirect.simdSize)
    && c[13] == WorkGroup.RightExecutionMask(k.indirect.LocalSize(), k.indirect.simdSize) && c[14] == 0xffff_ffff
    && (DataSize(k) <= c[2] < DataSize(k) + 0x40 <==> DataSize(k) <= 0x1_ffc0)
  }

  /** A walk of the launch whose data starts at this place of the indirect heap and whose descriptor at that of the
      dynamic-state heap. */
  ghost predicate IsWalkOf(w: Walked, p: Places, k: Launch, dataAt: nat, descriptorAt: nat)
    requires p.Valid() && k.Valid()
  {
    && WalkIsMeant(w.command, k) && IsSetUpFor(w.gpu, p, k)
    && DataOf(w) == Canonize(p.indirect) + dataAt && DescriptorOf(w) == p.dynamicState + descriptorAt
    && w.gpu.descriptorBytes == 32
  }

  /** The descriptor is the launch's: its kernel; its threads, exactly below 1024; barriers if the kernel uses them; enough
      local memory, exactly up to 64 KiB, and no more than twice as much as needed; its data in whole registers, fewer than
      256 of them, and its IDs; its bindings, up to 31; nothing else. */
  predicate IsDescriptorOf(d: Command, k: Launch)
    requires k.Valid()
  {
    var slm, data := k.sharedLocalMemory, |k.indirect.crossThreadData|;
    && |d| == 8 && HeapAllocator.HEAP_BASE + DynamicHeap.KernelStart(d) == k.kernelAddress
    && (DynamicHeap.GroupThreads(d) == k.indirect.Threads() <==> k.indirect.Threads() < 0x400)
    && (DynamicHeap.UsesBarriers(d) <==> k.hasBarriers % 2 == 1)
    && (DynamicHeap.LocalMemoryCode(d) != 0 <==> UsesLocalMemory(k))
    && (slm <= DynamicHeap.LocalMemoryBytes(d) <==> slm <= 0x1_0000) && DynamicHeap.LocalMemoryBytes(d) <= 0x1_0000
    && (DynamicHeap.LocalMemoryBytes(d) <= 0x400 || DynamicHeap.LocalMemoryBytes(d) < 2 * slm)
    && DynamicHeap.PerThreadBytes(d) == LocalIdSizePerThread(k)
    && DynamicHeap.CrossThreadBytes(d) <= data
    && (DynamicHeap.CrossThreadBytes(d) == data <==> data % 0x20 == 0 && data < 0x2000)
    && d[4] % 0x20 == (if k.surfaces.count < 31 then k.surfaces.count else 31) && DynamicHeap.NothingElse(d)
  }

  /** Walk and descriptor together say what the threads of the launch are loaded with, from this address on. */
  ghost predicate Carries(w: Walked, d: Command, k: Launch, data: nat)
    requires k.Valid()
  {
    WalkIsMeant(w.command, k) && IsDescriptorOf(d, k) && DataOf(w) == data
  }

  // ---------- the walk ----------

  /** The walker's six-bit counter holds the thread count exactly for groups of 1 to 64 threads; larger groups are
      cut to what is left above a multiple of 64. */
  lemma GroupThreadsIff(w: Walk)
    requires WorkGroup.IsSimd(w.simdSize) || w.simdSize == 1
    ensures ThreadsOfGroup(GpgpuWalker(w)) == w.threads <==> 1 <= w.threads <= 0x40
    ensures w.threads >= 1 ==> ThreadsOfGroup(GpgpuWalker(w)) == (w.threads - 1) % 0x40 + 1
  {
    WalkerSays(w, 0, 0, 0);
    hide GpgpuWalker, ThreadsOfGroup;
    if w.threads >= 1 {
      var q, r := (w.threads - 1) / 0x40, (w.threads - 1) % 0x40;
      var n := w.threads + TWO_32 - 1;
      DivModUnique(n, 0x40, q + 0x400_0000, r);
      DivModUnique(n, 0x40, n / TWO_32 * 0x400_0000 + n % TWO_32 / 0x40, n % TWO_32 % 0x40);
    }
  }

  /** Group counts modulo 2^32 are the launch's exactly if they can be counted. */
  lemma GroupsIff(c: Command, k: Launch)
    requires |c| == 15
    requires forall x: nat, y: nat, z: nat ::
               WalksGroup(c, x, y, z) <==> x < k.groupsX % TWO_32 && y < k.groupsY % TWO_32 && z < k.groupsZ % TWO_32
    ensures WalksEveryGroup(c, k) <==> Countable(k)
  {
    hide WalksGroup;
    Remainders(k.groupsX);
    Remainders(k.groupsY);
    Remainders(k.groupsZ);
    if !Countable(k) {
      var x, y, z := k.groupsX - 1, k.groupsY - 1, k.groupsZ - 1;
      assert !WalksGroup(c, x, y, z);
    }
  }

  lemma Remainders(n: nat)
    ensures n % TWO_32 <= n && (n % TWO_32 == n <==> n < TWO_32)
  {
    if n < TWO_32 { DivModUnique(n, TWO_32, 0, n); }
  }

  lemma WalkReadsBack(p: Places, k: Launch, start: nat)
    requires p.Valid() && k.Valid()
    ensures WalkIsMeant(GpgpuWalker(WalkOf(p, k, start)), k)
  {
    hide GpgpuWalker, WalksGroup, ThreadsOfGroup, LanesOfThread, WalksEveryGroup, Countable, WorkGroup.HwThreads,
         WorkGroup.RightExecutionMask, HeapAllocator.BaseDistance, HeapAllocator.HeapAddress, AlignUp,
         IndirectHeap.PerThreadDataSize, IndirectHeap.Indirect.LocalSize, SurfaceHeap.Surfaces.Valid, Launch.PatchesFit;
    var w := WalkOf(p, k, start);
    var c := GpgpuWalker(w);
    WalkerSays(w, 0, 0, 0);
    forall x: nat, y: nat, z: nat
      ensures WalksGroup(c, x, y, z) <==> x < k.groupsX % TWO_32 && y < k.groupsY % TWO_32 && z < k.groupsZ % TWO_32
    {
      WalkerSays(w, x, y, z);
    }
    GroupsIff(c, k);
    GroupThreadsIff(w);
    ThreadsOfLaunch(k);
    LengthIff(k, w.indirectLength, c[2]);
  }

  lemma ThreadsOfLaunch(k: Launch)
    requires k.Valid()
    ensures var t: int := k.indirect.Threads();
            1 <= t <= 0x400 && ((t - 1) % 0x40 + 1 - t) % 0x40 == 0
    ensures WorkGroup.RightExecutionMask(k.indirect.LocalSize(), k.indirect.simdSize) < TWO_32
  {
    hide WorkGroup.HwThreads, IndirectHeap.Indirect.LocalSize, SurfaceHeap.Surfaces.Valid, Launch.PatchesFit,
         HeapAllocator.HeapAddress;
    var local, simd := k.indirect.LocalSize(), k.indirect.simdSize;
    ItemsAtLeastOne(k.indirect);
    if simd == 1 {
      assert WorkGroup.HwThreads(local, 1) == local by { WorkGroup.ThreadPerItem(local); }
    } else {
      WorkGroup.ThreadsCoverGroup(local, simd);
      MulMonotone(WorkGroup.HwThreads(local, simd) - 1, 8, simd);
    }
    CountedDown(k.indirect.Threads());
  }

  lemma ItemsAtLeastOne(k: IndirectHeap.Indirect)
    requires k.Valid()
    ensures 1 <= k.LocalSize() <= 1024
  {
    MulMonotone(k.X, 1, k.Y);
    MulMonotone(k.Y * k.X, 1, k.Z);
  }

  lemma CountedDown(t: int)
    ensures ((t - 1) % 0x40 + 1 - t) % 0x40 == 0
  {
  }

  lemma LengthIff(k: Launch, length: nat, field: nat)
    requires k.Valid() && length == AlignUp(DataSize(k) % TWO_32, 64) && field == length % 0x2_0000
    ensures DataSize(k) <= field < DataSize(k) + 0x40 <==> DataSize(k) <= 0x1_ffc0
  {
    hide AlignUp, DataSize;
    var n := DataSize(k);
    AlignUpTo64(n % TWO_32);
    if n <= 0x1_ffc0 {
      DivModUnique(n, TWO_32, 0, n);
      var q := length / 64;
      assert length == 64 * q;
    } else {
      FieldBelow(length);
    }
  }

  lemma FieldBelow(length: nat)
    requires length % 64 == 0
    ensures length % 0x2_0000 <= 0x1_ffc0
  {
    var q := length / 64;
    assert length == 64 * q;
    DivModUnique(length, 0x2_0000, q / 0x800, 64 * (q % 0x800));
  }

  // ---------- the state it finds ----------

  lemma LocalMemoryUse(k: Launch)
    ensures SlmBytes(k) != 0 <==> UsesLocalMemory(k)
    ensures UsesLocalMemory(k) ==> k.sharedLocalMemory <= SlmBytes(k) < k.sharedLocalMemory + KILO_BYTE && SlmBytes(k) % KILO_BYTE == 0
  {
    hide AlignUp, Pow2, Ceil;
    assert Pow2(10) == 1024 by { TenBits(); }
    var slm: nat := k.sharedLocalMemory;
    AlignUpRoundsUp(slm, 10);
    CeilIsLeastMultiple(slm, KILO_BYTE, TWO_32);
    CeilIsLeastMultiple(slm, KILO_BYTE, 0);
    assert SlmBytes(k) == Ceil(slm, KILO_BYTE) % TWO_32;
    var q := Ceil(slm, KILO_BYTE) / KILO_BYTE;
    assert Ceil(slm, KILO_BYTE) == KILO_BYTE * q;
    Remainders(Ceil(slm, KILO_BYTE));
  }

  lemma TenBits()
    ensures Pow2(10) == 1024
  {
    Pow2Constants();
    Pow2Add(6, 4);
  }

  lemma ReceiverParts(p: Places, k: Launch)
    requires p.Valid() && k.Valid()
    ensures var r, general := ReceiverOf(p, k), if k.scratch.Some? then k.scratch.value - PAGE_SIZE else 0;
            && r.usesSharedLocalMemory == UsesLocalMemory(k) && r.preemptionAddress == p.preemption
            && r.maxVfeThreads == k.maxVfeThreads && r.scratchPerThread == k.scratchPerThread
            && r.hasScratch == k.scratch.Some? && r.sip == p.sip - HeapAllocator.HEAP_BASE && general < TWO_64
            && r.bases == Bases(general % TWO_48, p.surfaces, p.dynamicState, Canonize(HeapAllocator.HEAP_BASE),
                                HeapAllocator.HEAP_BASE, 16, 959)
  {
    hide AlignUp, Canonize, Decanonize, HeapAllocator.BaseDistance, IndirectHeap.Indirect.Valid, SurfaceHeap.Surfaces.Valid,
         Launch.PatchesFit, SlmBytes;
    LocalMemoryUse(k);
    HeapAllocator.CanonicalDifference(p.sip);
    DecanonizeIsLow48(if k.scratch.Some? then k.scratch.value - PAGE_SIZE else 0);
  }

  lemma IsProgrammable(p: Places, k: Launch)
    requires p.Valid() && k.Valid()
    ensures Programmable(ReceiverOf(p, k))
  {
    hide ReceiverOf, Canonize, IndirectHeap.Indirect.Valid, SurfaceHeap.Surfaces.Valid, Launch.PatchesFit;
    ReceiverParts(p, k);
    GeneralIsPage(if k.scratch.Some? then k.scratch.value - PAGE_SIZE else 0);
    HeapAllocator.CanonicalDifference(p.sip);
    HeapAllocator.AlignedDistance(p.sip);
  }

  lemma GeneralIsPage(general: nat)
    requires general % PAGE_SIZE == 0
    ensures PageAddress(general % TWO_48)
  {
    var n := general / PAGE_SIZE;
    assert general == PAGE_SIZE * n;
  }

  /** The state that a launch's commands set up is the launch's. */
  lemma SetUpIsMeant(g: Gpu, p: Places, k: Launch)
    requires p.Valid() && k.Valid()
    ensures IsSetUpFor(SetUp(g, ReceiverOf(p, k)), p, k)
  {
    hide ReceiverOf, Canonize, UsesLocalMemory, IndirectHeap.Indirect.Valid, SurfaceHeap.Surfaces.Valid, Launch.PatchesFit;
    ReceiverParts(p, k);
    Counter16(k.maxVfeThreads);
    LowNibble(k.scratchPerThread);
    if k.scratch.Some? { LowPart(k.scratch.value - PAGE_SIZE); }
  }

  /** So is the state after the commands that a launch appends to the receiver stream. */
  lemma ReceiverIsMeant(g: Gpu, p: Places, k: Launch, taskAddress: nat)
    requires p.Valid() && k.Valid()
    ensures IsSetUpFor(After(g, ReceiverCommands(ReceiverOf(p, k), taskAddress)), p, k)
  {
    hide IsSetUpFor, SetUp, ReceiverOf, ReceiverCommands, Programmable, After, Launch.Valid, Places.Valid;
    IsProgrammable(p, k);
    ReceiverSetsUp(g, ReceiverOf(p, k), taskAddress);
    SetUpIsMeant(g, p, k);
  }

  lemma Counter16(n: nat)
    ensures var c := (n + TWO_32 - 1) % TWO_32 % 0x1_0000 + 1; 1 <= c <= 0x1_0000 && (c == n <==> 1 <= n <= 0x1_0000)
  {
  }

  lemma LowNibble(n: nat)
    ensures n % 0x10 == n <==> n < 0x10
  {
  }

  lemma LowPart(n: nat)
    ensures n % TWO_48 == n <==> n < TWO_48
  {
    if n < TWO_48 { DivModUnique(n, TWO_48, 0, n); }
  }

  // ---------- the whole walk ----------

  /** The walker leads the hardware to this launch's cross-thread data, and the descriptor load to its descriptor. */
  lemma DataIsFound(g: Gpu, p: Places, k: Launch, start: nat)
    requires p.Valid() && k.Valid() && start % 64 == 0 && start < STREAM_SIZE && Based(g.bases, p)
    ensures DataOf(Walked(g, GpgpuWalker(WalkOf(p, k, start)))) == Canonize(p.indirect) + start
    ensures DescriptorOf(Walked(g, GpgpuWalker(WalkOf(p, k, start)))) == p.dynamicState + g.descriptors
  {
    hide GpgpuWalker, Canonize, AlignUp, IndirectHeap.PerThreadDataSize, IndirectHeap.Indirect.Valid,
         SurfaceHeap.Surfaces.Valid, HeapAllocator.BaseDistance, Launch.PatchesFit;
    var w := WalkOf(p, k, start);
    HeapAllocator.CanonicalDifference(p.indirect);
    DistancePlus(p, start);
    PlaceReadsBack(w);
  }

  lemma DistancePlus(p: Places, start: nat)
    requires p.Valid() && start % 64 == 0 && start < STREAM_SIZE
    ensures HeapAllocator.BaseDistance(p.indirect) + start < TWO_32
    ensures (HeapAllocator.BaseDistance(p.indirect) + start) % 64 == 0
    ensures HeapAllocator.BaseDistance(p.indirect) == p.indirect - HeapAllocator.HEAP_BASE
  {
    hide HeapAllocator.BaseDistance;
  }

  lemma PlaceReadsBack(w: Walk)
    requires w.indirectStart % 0x40 == 0 && w.indirectStart < TWO_32
    ensures var c := GpgpuWalker(w);
            |c| == 15 && Part(c[3], 0x40, 0x400_0000) * 0x40 == w.indirectStart && Part(c[1], 1, 0x40) == 0
  {
    hide Gfx;
    var q := w.indirectStart / 0x40;
    assert w.indirectStart == 0x40 * q && q % 0x400_0000 == q;
    DivModUnique(0x40 * q, 0x40, q, 0);
  }

  /** Whatever state the GPU was in, the walk of a launch's commands is that launch's. */
  lemma WalkOfLaunch(g: Gpu, p: Places, k: Launch, t: Task, start: nat)
    requires p.Valid() && k.Valid() && start % 64 == 0 && start < STREAM_SIZE && t.walk == WalkOf(p, k, start)
    ensures IsWalkOf(Walked(AtWalk(g, ReceiverOf(p, k), t), GpgpuWalker(t.walk)), p, k, start, t.descriptorStart)
  {
    hide GpgpuWalker, WalkIsMeant, Configured, Staffed, FindsScratch, Based, FindsRoutine, SetUp, ReceiverOf, WalkOf,
         Canonize, DataOf, DescriptorOf, IndirectHeap.Indirect.Valid, SurfaceHeap.Surfaces.Valid, Launch.PatchesFit;
    SetUpIsMeant(g, p, k);
    WalkReadsBack(p, k, start);
    SameSetUp(g, p, k, t);
    DataIsFound(AtWalk(g, ReceiverOf(p, k), t), p, k, start);
  }

  lemma SameSetUp(g: Gpu, p: Places, k: Launch, t: Task)
    requires p.Valid() && k.Valid()
    ensures var a, b := AtWalk(g, ReceiverOf(p, k), t), SetUp(g, ReceiverOf(p, k));
            && Configured(a, p, k) == Configured(b, p, k) && a.frontEnd == b.frontEnd && a.bases == b.bases
            && FindsScratch(a, k) == FindsScratch(b, k) && FindsRoutine(a, p) == FindsRoutine(b, p)
            && a.descriptors == t.descriptorStart && a.descriptorBytes == 32
  {
    hide ReceiverOf, UsesLocalMemory, SetUp;
  }

  // ---------- the descriptor ----------

  lemma InterfaceParts(k: Launch, surfaceEnd: nat)
    requires k.Valid() && surfaceEnd >= CACHE_LINE_SIZE
    ensures var i := InterfaceOf(k, surfaceEnd);
            && i.kernelDistance == k.kernelAddress - HeapAllocator.HEAP_BASE && i.kernelDistance < TWO_32
            && i.kernelDistance % 0x40 == 0 && i.bindings == k.surfaces.count && i.surfaceHeapEnd == surfaceEnd
            && i.sharedLocalMemory == SlmBytes(k) && i.threads == k.indirect.Threads() && i.hasBarriers == k.hasBarriers
            && i.crossThreadDataSize == |k.indirect.crossThreadData| && i.localIdSizePerThread == LocalIdSizePerThread(k)
            && 0x20 <= i.localIdSizePerThread < 0x20_0000 && i.localIdSizePerThread % 0x20 == 0
  {
    hide AlignUp, HeapAllocator.BaseDistance, SurfaceHeap.Surfaces.Valid, Launch.PatchesFit, SlmBytes,
         IndirectHeap.Indirect.LocalSize, WorkGroup.HwThreads;
    HeapAllocator.AlignedDistance(k.kernelAddress);
  }

  /** The descriptor that a launch puts in the heap is that launch's. */
  lemma DescriptorReadsBack(k: Launch, surfaceEnd: nat)
    requires k.Valid() && surfaceEnd >= CACHE_LINE_SIZE
    ensures var d := DynamicHeap.Descriptor(InterfaceOf(k, surfaceEnd));
            IsDescriptorOf(d, k) && DynamicHeap.TablePlace(d) == SurfaceHeap.BindingTablePlace(surfaceEnd)
  {
    hide InterfaceOf, DynamicHeap.Descriptor, DynamicHeap.KernelStart, DynamicHeap.TablePlace, DynamicHeap.GroupThreads,
         DynamicHeap.LocalMemoryCode, DynamicHeap.UsesBarriers, DynamicHeap.PerThreadBytes, DynamicHeap.CrossThreadBytes,
         DynamicHeap.LocalMemoryBytes, DynamicHeap.NothingElse, SurfaceHeap.BindingTablePlace, SlmBytes, LocalIdSizePerThread,
         UsesLocalMemory, IndirectHeap.Indirect.Valid, SurfaceHeap.Surfaces.Valid, WorkGroup.HwThreads,
         Launch.PatchesFit, HeapAllocator.HeapAddress;
    var i := InterfaceOf(k, surfaceEnd);
    InterfaceParts(k, surfaceEnd);
    DynamicHeap.DescriptorLeadsToKernelAndTable(i);
    DynamicHeap.DescriptorCounts(i);
    DynamicHeap.OtherBitsClear(i);
    LocalMemoryUse(k);
    LocalMemoryRange(k);
    DynamicHeap.LocalMemoryOf(DynamicHeap.Descriptor(i), SlmBytes(k), k.sharedLocalMemory);
  }

  lemma LocalMemoryRange(k: Launch)
    ensures k.sharedLocalMemory <= 0x1_0000 && k.sharedLocalMemory > 0 ==> UsesLocalMemory(k)
    ensures !UsesLocalMemory(k) && k.sharedLocalMemory > 0 ==> k.sharedLocalMemory > 0x1_0000
  {
  }

  /** With the binding table right behind its surface states, the hardware finds the table where it was written
      exactly for one to sixteen entries. */
  lemma TableIsFoundIff(k: Launch, surfaceStart: nat)
    requires k.Valid() && surfaceStart % 64 == 0 && surfaceStart >= 64
    requires CACHE_LINE_SIZE <= SurfaceHeap.NextOffset(surfaceStart, k.surfaces.count) <= STREAM_SIZE
    ensures DynamicHeap.TablePlace(DynamicHeap.Descriptor(
              InterfaceOf(k, SurfaceHeap.NextOffset(surfaceStart, k.surfaces.count))))
            == surfaceStart + k.surfaces.count * SurfaceHeap.SURFACE_STATE_SIZE
            <==> 1 <= k.surfaces.count <= 16
  {
    hide DynamicHeap.TablePlace, DynamicHeap.Descriptor, SurfaceHeap.BindingTablePlace, SurfaceHeap.NextOffset,
         Launch.Valid, InterfaceOf, IsDescriptorOf;
    DescriptorReadsBack(k, SurfaceHeap.NextOffset(surfaceStart, k.surfaces.count));
    SurfaceHeap.TablePointerIff(surfaceStart, k.surfaces.count);
  }

  // ---------- what has to be pinned ----------

  /** The buffers that a walk and its descriptor lead the GPU to: surfaces, descriptors, data, kernel, scratch memory and
      the place where a preempted walk is saved. */
  predicate LeadsTo(w: Walked, d: Command, dataAt: nat, descriptorAt: nat, a: nat)
    requires |w.command| == 15 && |d| == 8
  {
    var kernel := w.gpu.bases.instruction.address + DynamicHeap.KernelStart(d);
    || a == w.gpu.bases.surface.address || a + descriptorAt == DescriptorOf(w) || a + dataAt == DataOf(w)
    || (kernel < TWO_64 && a == Canonize(kernel)) || a == w.gpu.preemption
    || (w.gpu.frontEnd.scratch > 0 && a == w.gpu.bases.general.address + w.gpu.frontEnd.scratch)
  }

  /** What a submission pins is exactly what its walk leads to, what the kernel's arguments and constants point to, the
      streams and the tag, and, if walks are preempted midway, the system routine. */
  lemma PinnedIsReached(w: Walked, d: Command, p: Places, k: Launch, dataAt: nat, descriptorAt: nat,
                        execData: seq<Option<KernelArgs.Buffer>>, a: nat)
    requires p.Valid() && k.Valid() && IsWalkOf(w, p, k, dataAt, descriptorAt) && IsDescriptorOf(d, k)
    requires k.scratch.Some? ==> k.scratch.value < TWO_48
    ensures w.gpu.bases.instruction.address + w.gpu.systemRoutine < TWO_64
    ensures Needed(p, k, execData, a) <==>
              || LeadsTo(w, d, dataAt, descriptorAt, a)
              || (exists i :: 0 <= i < |execData| && execData[i].Some? && execData[i].value.gpuAddress == a)
              || k.constantSurface == Some(a) || a == p.streams.taskBase || a == p.streams.csrBase
              || a == p.streams.tagAddress
              || (k.midThread && a == Canonize(w.gpu.bases.instruction.address + w.gpu.systemRoutine))
  {
    hide Canonize, DataOf, DescriptorOf, WalkIsMeant, Configured, Staffed, DynamicHeap.KernelStart, DynamicHeap.TablePlace,
         DynamicHeap.GroupThreads, DynamicHeap.LocalMemoryBytes, DynamicHeap.LocalMemoryCode, DynamicHeap.UsesBarriers,
         DynamicHeap.PerThreadBytes, DynamicHeap.CrossThreadBytes, DynamicHeap.NothingElse, UsesLocalMemory,
         LocalIdSizePerThread, Launch.PatchesFit, IndirectHeap.Indirect.Valid, SurfaceHeap.Surfaces.Valid, WorkGroup.HwThreads,
         Layout.Valid;
    assert w.gpu.preemption == p.preemption by { PreemptionIs(w.gpu, p, k); }
    ScratchIs(w.gpu, k);
    NamesBuffer(execData, a);
    HeapPlaces(p, k);
    hide Names;
  }

  lemma PreemptionIs(g: Gpu, p: Places, k: Launch)
    requires Configured(g, p, k)
    ensures g.preemption == p.preemption
  {
  }

  lemma ScratchIs(g: Gpu, k: Launch)
    requires FindsScratch(g, k) && k.Valid() && (k.scratch.Some? ==> k.scratch.value < TWO_48)
    ensures if k.scratch.Some? then g.bases.general.address + g.frontEnd.scratch == k.scratch.value && g.frontEnd.scratch > 0
            else g.frontEnd.scratch == 0
  {
  }

  lemma NamesBuffer(execData: seq<Option<KernelArgs.Buffer>>, a: nat)
    ensures (exists i :: 0 <= i < |execData| && Names(execData[i], a))
            <==> exists i :: 0 <= i < |execData| && execData[i].Some? && execData[i].value.gpuAddress == a
  {
    forall i | 0 <= i < |execData|
      ensures Names(execData[i], a) <==> execData[i].Some? && execData[i].value.gpuAddress == a
    {
    }
  }

  lemma HeapPlaces(p: Places, k: Launch)
    requires p.Valid() && k.Valid()
    ensures HeapAllocator.HeapAddress(p.sip) && HeapAllocator.HeapAddress(k.kernelAddress)
    ensures p.sip < TWO_48 && k.kernelAddress < TWO_48
  {
  }
}
