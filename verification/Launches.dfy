/** What a launch is, what the hardware should be told about it, and what it leaves in the heaps. */
module Launches {
  import opened Options
  import opened Words
  import opened DriverUtils
  import opened Commands
  import opened LaunchStream
  import opened BufferObjects
  import opened Runs
  import HeapAllocator
  import SurfaceHeap
  import IndirectHeap
  import DynamicHeap
  import KernelConstants
  import WorkGroup
  import KernelArgs

  /** The addresses the context's buffers have once they are allocated: two command streams and the tag, the
      surface-state and dynamic-state heaps, the indirect heap and the system routine (these two from the
      soft-pin heap), and the preemption buffer. */
  datatype Places = Places(streams: Layout, surfaces: nat, dynamicState: nat, indirect: nat, sip: nat, preemption: nat)
  {
    predicate Valid()
    {
      && streams.Valid() && HeapAllocator.HeapAddress(sip) && HeapAllocator.HeapAddress(indirect)
      && indirect + STREAM_SIZE < HeapAllocator.HEAP_BASE + HeapAllocator.HEAP_SIZE
      && PageAddress(surfaces) && PageAddress(dynamicState) && PageAddress(preemption)
    }
  }

  /** What a launch brings: the kernel's surfaces, its indirect data and work-group, the number of groups, where the
      kernel wants which work sizes and what they are, the kernel's place in the soft-pin heap and its constant surface,
      its shared local memory and barriers, the scratch settings, and whether threads can be preempted midway.  The
      indirect data is the kernel's with the sizes in place. */
  datatype Launch = Launch(surfaces: SurfaceHeap.Surfaces, indirect: IndirectHeap.Indirect, groupsX: nat, groupsY: nat,
                           groupsZ: nat, kernelAddress: nat, sharedLocalMemory: uint32, hasBarriers: nat,
                           maxVfeThreads: nat, scratchPerThread: nat, scratch: Option<nat>,
                           payload: KernelConstants.Payload, sizes: KernelConstants.Sizes,
                           constantSurface: Option<nat>, midThread: bool)
  {
    predicate Valid()
    {
      && surfaces.Valid() && indirect.Valid() && HeapAllocator.HeapAddress(kernelAddress)
      && (scratch.Some? ==> scratch.value >= 4096 && PageAddress(scratch.value))
      && PatchesFit()
    }

    predicate PatchesFit()
    {
      payload.Valid() && sizes.Valid() && KernelConstants.AllFit(Writes(), |indirect.crossThreadData|)
    }

    function Writes(): seq<KernelConstants.Write>
      requires payload.Valid() && sizes.Valid()
    {
      KernelConstants.LaunchWrites(payload, sizes)
    }

    /** The launch's indirect data is what patching its sizes makes of these bytes. */
    predicate PatchesFrom(data: seq<byte>)
      requires Valid()
    {
      |data| == |indirect.crossThreadData| && indirect.crossThreadData == KernelConstants.PutAll(data, Writes())
    }
  }

  // ---------- what a launch should be told ----------

  /** The walk of a launch whose cross-thread data starts at `start` of the indirect heap. */
  function WalkOf(p: Places, k: Launch, start: nat): Walk
    requires p.Valid() && k.Valid()
  {
    Walk(AlignUp((|k.indirect.crossThreadData| + IndirectHeap.PerThreadDataSize(k.indirect)) % TWO_32, 64),
         HeapAllocator.BaseDistance(p.indirect) + start, k.indirect.Threads(), k.groupsX, k.groupsY, k.groupsZ,
         WorkGroup.RightExecutionMask(k.indirect.LocalSize(), k.indirect.simdSize), k.indirect.simdSize)
  }

  function SlmBytes(k: Launch): nat { AlignUp(k.sharedLocalMemory, KILO_BYTE) % TWO_32 }

  function LocalIdSizePerThread(k: Launch): nat
  {
    DynamicHeap.Max(IndirectHeap.ReservedPerThread(k.indirect.simdSize, k.indirect.present.Count()), IndirectHeap.GRF)
  }

  function InterfaceOf(k: Launch, surfaceHeapEnd: nat): DynamicHeap.Interface
    requires k.Valid()
  {
    DynamicHeap.Interface(HeapAllocator.BaseDistance(k.kernelAddress), k.surfaces.count, surfaceHeapEnd, SlmBytes(k),
                          k.indirect.Threads(), |k.indirect.crossThreadData|, LocalIdSizePerThread(k), k.hasBarriers)
  }

  function ReceiverOf(p: Places, k: Launch): Receiver
    requires p.Valid() && k.Valid()
  {
    var general := if k.scratch.Some? then k.scratch.value - 4096 else 0;
    Receiver(SlmBytes(k) != 0, p.preemption, k.maxVfeThreads, k.scratchPerThread, k.scratch.Some?,
             Bases(Decanonize(general), p.surfaces, p.dynamicState, Canonize(HeapAllocator.HEAP_BASE),
                   Decanonize(Canonize(HeapAllocator.HEAP_BASE)), 16, 959),
             HeapAllocator.BaseDistance(p.sip))
  }

  /** The addresses a submission has to pin: what the kernel's arguments point to, what the launch brings, and all
      the buffers of the context. */
  ghost predicate Needed(p: Places, k: Launch, execData: seq<Option<KernelArgs.Buffer>>, a: nat)
    requires p.Valid() && k.Valid()
  {
    || (exists i :: 0 <= i < |execData| && Names(execData[i], a))
    || k.constantSurface == Some(a) || a == Canonize(k.kernelAddress) || k.scratch == Some(a)
    || a == p.dynamicState || a == Canonize(p.indirect) || a == p.surfaces || a == p.streams.tagAddress
    || a == p.preemption || (k.midThread && a == Canonize(p.sip)) || a == p.streams.taskBase || a == p.streams.csrBase
  }

  predicate Names(b: Option<KernelArgs.Buffer>, a: nat) { b.Some? && b.value.gpuAddress == a }

  // ---------- a launch's data in the heaps ----------

  ghost predicate SurfacesAt(b: BufferObject, start: nat, k: SurfaceHeap.Surfaces)
    reads b.cpuAddress
  {
    k.Valid() && k.count > 0 ==>
      && start + |k.blob| <= b.cpuAddress.Length
      && b.cpuAddress[start..start + |k.blob|] == SurfaceHeap.Relocated(k.blob, k.table, k.count, start)
  }

  ghost predicate IndirectAt(b: BufferObject, start: nat, k: IndirectHeap.Indirect)
    requires k.Valid()
    reads b.cpuAddress
  {
    && start + |k.crossThreadData| <= b.cpuAddress.Length
    && b.cpuAddress[start..start + |k.crossThreadData|] == k.crossThreadData
    && IndirectHeap.HoldsIds(b.cpuAddress, start + |k.crossThreadData|, k)
  }

  ghost predicate DescriptorAt(b: BufferObject, start: nat, d: Command)
    reads b.cpuAddress
  {
    start + 4 * |d| <= b.cpuAddress.Length && b.cpuAddress[start..start + 4 * |d|] == DwordBytes(d)
  }
}
