/** `CommandDispatcherGen9`: the context object that builds a launch in its heaps and streams, submits it and
    waits for it.  Each method is a step of the machine of module Runs, so everything proved about runs of
    that machine holds of every sequence of calls on this object.
 */
module Dispatcher {
  import opened Options
  import opened Words
  import opened DriverUtils
  import opened Commands
  import opened LaunchStream
  import opened BufferObjects
  import opened Runs
  import opened Launches
  import opened StreamWriter
  import opened GpuState
  import Wiring
  import HeapAllocator
  import SurfaceHeap
  import IndirectHeap
  import DynamicHeap
  import KernelConstants
  import WorkGroup
  import KernelArgs

  datatype Code = Success | BufferAllocationFailed | GemExecbufferFailed | PostSyncOperationFailed

  /** Which allocations succeed, should they be attempted. */
  datatype Grants = Grants(scratch: bool, surfaces: bool, indirect: bool, dynamicState: bool, task: bool, receiver: bool)

  // ---------- buffers ----------

  /** The objects that hold a buffer, if it has been allocated. */
  ghost function Owned(b: BufferObject?): set<object>
  {
    if b == null then {} else {b, b.cpuAddress}
  }

  /** How far a buffer is used; `first` is where a new one starts. */
  function EndOf(b: BufferObject?, first: nat): nat
    reads b
  {
    if b == null then first else b.offset
  }

  /** What a stream holds. */
  function Content(b: BufferObject?): seq<byte>
    reads b, if b == null then {} else {b.cpuAddress}
  {
    if b == null || b.offset > b.cpuAddress.Length then [] else b.cpuAddress[..b.offset]
  }

  lemma NoContent(b: BufferObject?)
    ensures b == null ==> Content(b) == []
  {
  }

  /** What the heaps hold. */
  datatype Heaps = Heaps(surfaces: seq<byte>, indirect: seq<byte>, dynamicState: seq<byte>)

  /** Whatever stood in the heaps still does. */
  predicate Grows(a: Heaps, b: Heaps)
  {
    a.surfaces <= b.surfaces && a.indirect <= b.indirect && a.dynamicState <= b.dynamicState
  }

  lemma GrowsOn(a: Heaps, b: Heaps, c: Heaps)
    requires Grows(a, b) && Grows(b, c)
    ensures Grows(a, c)
  {
  }

  /** An allocated 64 KiB buffer at its address, used up to a cache-line boundary. */
  ghost predicate Held(b: BufferObject?, address: nat)
    reads b
  {
    b != null ==> b.Valid() && b.cpuAddress.Length == STREAM_SIZE && b.offset % 64 == 0 && b.gpuAddress == address
  }

  ghost predicate Apart(a: BufferObject?, b: BufferObject?)
  {
    a == null || b == null || (a != b && a.cpuAddress != b.cpuAddress)
  }

  /** The lazy allocation every heap and stream starts with. */
  method Obtain(existing: BufferObject?, granted: bool, address: nat) returns (bo: BufferObject?)
    requires Held(existing, address)
    ensures Held(bo, address) && (bo == null <==> existing == null && !granted)
    ensures existing != null ==> bo == existing
    ensures existing == null && bo != null ==> fresh(bo) && fresh(bo.cpuAddress) && bo.offset == 0
  {
    bo := existing;
    if bo == null && granted {
      bo := new BufferObject(STREAM_SIZE, address);
    }
  }

  // ---------- a launch's data in the heaps ----------

  /** The eight dwords that the hardware reads at `at` are a descriptor of the launch. */
  ghost predicate DescribedAt(b: BufferObject, at: nat, k: Launch)
    requires k.Valid()
    reads b.cpuAddress
  {
    at + 32 <= b.cpuAddress.Length && Wiring.IsDescriptorOf(DwordsAt(b.cpuAddress[..], at, 8), k)
  }

  lemma DescriptorIsRead(b: BufferObject, at: nat, k: Launch, surfaceEnd: nat)
    requires k.Valid() && surfaceEnd >= CACHE_LINE_SIZE
    requires DescriptorAt(b, at, DynamicHeap.Descriptor(InterfaceOf(k, surfaceEnd)))
    ensures DescribedAt(b, at, k)
  {
    hide DynamicHeap.Descriptor, InterfaceOf, Wiring.IsDescriptorOf, DwordsAt, DwordBytes, Launch.Valid;
    Wiring.InterfaceParts(k, surfaceEnd);
    Wiring.DescriptorReadsBack(k, surfaceEnd);
    var d := DynamicHeap.Descriptor(InterfaceOf(k, surfaceEnd));
    assert b.cpuAddress[..][at..at + 32] == b.cpuAddress[at..at + 32];
    DwordsReadBack(b.cpuAddress[..], at, d);
  }

  method AddSurfaces(bo: BufferObject, k: SurfaceHeap.Surfaces)
    requires Held(bo, bo.gpuAddress) && k.Valid() && SurfaceHeap.NextOffset(bo.offset, k.count) <= STREAM_SIZE
    requires k.count > 0 ==> bo.offset + |k.blob| <= STREAM_SIZE
    modifies bo`offset, bo.cpuAddress
    ensures Held(bo, bo.gpuAddress) && bo.offset == SurfaceHeap.NextOffset(old(bo.offset), k.count) >= old(bo.offset)
    ensures SurfacesAt(bo, old(bo.offset), k)
    ensures bo.cpuAddress[..old(bo.offset)] == old(bo.cpuAddress[..bo.offset])
    ensures old(Content(bo)) <= Content(bo)
  {
    CeilIsLeastMultiple(bo.offset + SurfaceHeap.Reserved(k.count), CACHE_LINE_SIZE, 0);
    hide SurfaceHeap.Relocated, Ceil;
    SurfaceHeap.AppendSurfaces(bo, k);
    if k.count > 0 {
      ghost var start, blob := old(bo.offset), SurfaceHeap.Relocated(k.blob, k.table, k.count, old(bo.offset));
      PatchedSlices(old(bo.cpuAddress[..]), start, blob);
      SameSlices(bo.cpuAddress, bo.cpuAddress[..], start, start + |blob|);
    }
  }

  method AddIndirect(bo: BufferObject, k: IndirectHeap.Indirect) returns (hwThreads: nat, perThreadDataSize: nat)
    requires Held(bo, bo.gpuAddress) && k.Valid() && IndirectHeap.Room(bo.offset, k, STREAM_SIZE)
    modifies bo`offset, bo.cpuAddress
    ensures Held(bo, bo.gpuAddress) && bo.offset == IndirectHeap.NextOffset(old(bo.offset), k)
    ensures hwThreads == k.Threads() && perThreadDataSize == IndirectHeap.PerThreadDataSize(k)
    ensures IndirectAt(bo, old(bo.offset), k)
    ensures bo.cpuAddress[..old(bo.offset)] == old(bo.cpuAddress[..bo.offset])
    ensures old(Content(bo)) <= Content(bo)
  {
    IndirectHeap.NextIsAligned(bo.offset, k);
    hide IndirectHeap.HoldsIds, IndirectHeap.NextOffset, IndirectHeap.PerThreadDataSize;
    hwThreads, perThreadDataSize := IndirectHeap.AppendIndirect(bo, k);
  }

  method AddDescriptor(bo: BufferObject, d: Command)
    requires Held(bo, bo.gpuAddress) && |d| == 8 && bo.offset + 64 <= STREAM_SIZE
    modifies bo`offset, bo`currentTaskOffset, bo.cpuAddress
    ensures Held(bo, bo.gpuAddress) && bo.offset == old(bo.offset) + 64
    ensures DescriptorAt(bo, old(bo.offset), d)
    ensures bo.cpuAddress[..old(bo.offset)] == old(bo.cpuAddress[..bo.offset])
    ensures old(Content(bo)) <= Content(bo)
  {
    hide DwordBytes;
    DynamicHeap.AppendDescriptor(bo, d);
    ghost var start := old(bo.offset);
    assert bo.cpuAddress[..start + 32][start..] == bo.cpuAddress[start..start + 32];
    assert bo.cpuAddress[..start + 32][..start] == bo.cpuAddress[..start];
  }

  method AddTask(bo: BufferObject, t: Task)
    requires Held(bo, bo.gpuAddress) && bo.offset + 192 <= STREAM_SIZE
    modifies bo`offset, bo`currentTaskOffset, bo.cpuAddress
    ensures Held(bo, bo.gpuAddress) && bo.offset == old(bo.offset) + 192 && bo.currentTaskOffset == 192
    ensures Content(bo) == AppendTask(old(Content(bo)), t)
  {
    hide AppendTask;
    WriteTask(bo, t);
  }

  method AddReceiver(bo: BufferObject, r: Receiver, taskAddress: nat)
    requires Held(bo, bo.gpuAddress) && bo.offset + 320 <= STREAM_SIZE
    modifies bo`offset, bo`currentTaskOffset, bo.cpuAddress
    ensures Held(bo, bo.gpuAddress) && bo.offset == old(bo.offset) + 320 && bo.currentTaskOffset == 320
    ensures Content(bo) == AppendReceiver(old(Content(bo)), r, taskAddress)
  {
    hide AppendReceiver;
    WriteReceiver(bo, r, taskAddress);
  }

  /** The surface-state heap with a launch's surfaces; a new heap starts behind one empty surface state. */
  method PlaceSurfaces(existing: BufferObject?, granted: bool, address: nat, k: SurfaceHeap.Surfaces)
    returns (bo: BufferObject?)
    requires Held(existing, address) && (existing != null ==> existing.offset >= 64) && k.Valid()
    requires SurfaceHeap.NextOffset(EndOf(existing, SurfaceHeap.SURFACE_STATE_SIZE), k.count) <= STREAM_SIZE
    requires k.count > 0 ==> EndOf(existing, SurfaceHeap.SURFACE_STATE_SIZE) + |k.blob| <= STREAM_SIZE
    modifies Owned(existing)
    ensures Held(bo, address) && (bo == null <==> existing == null && !granted) && (existing != null ==> bo == existing)
    ensures existing == null && bo != null ==> fresh(bo) && fresh(bo.cpuAddress)
    ensures old(Content(existing)) <= Content(bo)
    ensures bo != null ==>
              && bo.offset == SurfaceHeap.NextOffset(old(EndOf(existing, SurfaceHeap.SURFACE_STATE_SIZE)), k.count) >= 64
              && SurfacesAt(bo, old(EndOf(existing, SurfaceHeap.SURFACE_STATE_SIZE)), k)
  {
    hide Content, SurfacesAt, SurfaceHeap.NextOffset;
    NoContent(existing);
    bo := Obtain(existing, granted, address);
    if bo == null {
      return;
    }
    if existing == null {
      bo.offset := bo.offset + SurfaceHeap.SURFACE_STATE_SIZE;
    }
    AddSurfaces(bo, k);
  }

  /** The indirect heap with a launch's data, into which its sizes are patched first. */
  method PlaceIndirect(existing: BufferObject?, granted: bool, address: nat, l: Launch, data: array<byte>)
    returns (bo: BufferObject?, hwThreads: nat, perThread: nat)
    requires Held(existing, address) && l.Valid() && IndirectHeap.Room(EndOf(existing, 0), l.indirect, STREAM_SIZE)
    requires (existing != null ==> existing.cpuAddress != data) && l.PatchesFrom(data[..])
    modifies Owned(existing), data
    ensures Held(bo, address) && (bo == null <==> existing == null && !granted) && (existing != null ==> bo == existing)
    ensures existing == null && bo != null ==> fresh(bo) && fresh(bo.cpuAddress)
    ensures old(Content(existing)) <= Content(bo)
    ensures bo != null ==>
              && data[..] == l.indirect.crossThreadData
              && bo.offset == IndirectHeap.NextOffset(old(EndOf(existing, 0)), l.indirect)
              && IndirectAt(bo, old(EndOf(existing, 0)), l.indirect)
              && hwThreads == l.indirect.Threads() && perThread == IndirectHeap.PerThreadDataSize(l.indirect)
  {
    hide IndirectAt, IndirectHeap.NextOffset, IndirectHeap.Room, IndirectHeap.PerThreadDataSize, Content,
         HeapAllocator.HeapAddress, WorkGroup.HwThreads, KernelConstants.PutAll, KernelConstants.LaunchWrites,
         KernelConstants.AllFit;
    NoContent(existing);
    bo := Obtain(existing, granted, address);
    if bo == null {
      return null, 0, 0;
    }
    KernelConstants.PatchWorkSizes(data, l.payload, l.sizes);
    hwThreads, perThread := AddIndirect(bo, l.indirect.(crossThreadData := data[..]));
  }

  /** The dynamic-state heap with a launch's descriptor. */
  method PlaceDescriptor(existing: BufferObject?, granted: bool, address: nat, d: Command) returns (bo: BufferObject?)
    requires Held(existing, address) && |d| == 8 && EndOf(existing, 0) + 64 <= STREAM_SIZE
    modifies Owned(existing)
    ensures Held(bo, address) && (bo == null <==> existing == null && !granted) && (existing != null ==> bo == existing)
    ensures existing == null && bo != null ==> fresh(bo) && fresh(bo.cpuAddress)
    ensures old(Content(existing)) <= Content(bo)
    ensures bo != null ==> bo.offset == old(EndOf(existing, 0)) + 64 && DescriptorAt(bo, old(EndOf(existing, 0)), d)
  {
    hide Content, DescriptorAt;
    NoContent(existing);
    bo := Obtain(existing, granted, address);
    if bo != null {
      AddDescriptor(bo, d);
    }
  }

  lemma PatchedSlices(m: seq<byte>, at: nat, bytes: seq<byte>)
    requires at + |bytes| <= |m|
    ensures Patch(m, at, bytes)[at..at + |bytes|] == bytes && Patch(m, at, bytes)[..at] == m[..at]
  {
  }

  lemma SameSlices(a: array<byte>, s: seq<byte>, lo: nat, hi: nat)
    requires s == a[..] && lo <= hi <= a.Length
    ensures a[lo..hi] == s[lo..hi] && a[..lo] == s[..lo]
  {
  }

  class CommandDispatcher {
    const places: Places
    var sshAllocation: BufferObject?
    var iohAllocation: BufferObject?
    var dshAllocation: BufferObject?
    var commandStreamTask: BufferObject?
    var commandStreamCSR: BufferObject?
    var hwThreadsPerWorkGroup: nat
    var crossThreadDataSize: nat
    var perThreadDataSize: nat
    var localIDSizePerThread: nat
    var sharedLocalMemorySize: nat
    var completionTag: uint32

    /** A context before its first launch: nothing is allocated yet. */
    constructor (places: Places)
      requires places.Valid()
      ensures Buffers() && this.places == places && completionTag == 0
      ensures sshAllocation == null && iohAllocation == null && dshAllocation == null
      ensures TaskBytes() == [] && ReceiverBytes() == []
    {
      this.places := places;
      sshAllocation, iohAllocation, dshAllocation, commandStreamTask, commandStreamCSR := null, null, null, null, null;
      hwThreadsPerWorkGroup, crossThreadDataSize, perThreadDataSize := 0, 0, 0;
      localIDSizePerThread, sharedLocalMemorySize, completionTag := 0, 0, 0;
    }

    ghost predicate Buffers()
      reads this, sshAllocation, iohAllocation, dshAllocation, commandStreamTask, commandStreamCSR
    {
      && places.Valid()
      && Held(sshAllocation, places.surfaces) && Held(iohAllocation, Canonize(places.indirect))
      && Held(dshAllocation, places.dynamicState) && Held(commandStreamTask, places.streams.taskBase)
      && Held(commandStreamCSR, places.streams.csrBase)
      && (sshAllocation != null ==> sshAllocation.offset >= 64)
      && Apart(sshAllocation, iohAllocation) && Apart(sshAllocation, dshAllocation)
      && Apart(sshAllocation, commandStreamTask) && Apart(sshAllocation, commandStreamCSR)
      && Apart(iohAllocation, dshAllocation) && Apart(iohAllocation, commandStreamTask)
      && Apart(iohAllocation, commandStreamCSR) && Apart(dshAllocation, commandStreamTask)
      && Apart(dshAllocation, commandStreamCSR) && Apart(commandStreamTask, commandStreamCSR)
    }

    /** Everything construction may change. */
    ghost function Footprint(): set<object>
      reads this
    {
      {this} + Owned(sshAllocation) + Owned(iohAllocation) + Owned(dshAllocation) + Owned(commandStreamTask)
      + Owned(commandStreamCSR)
    }

    lemma BuffersArePlaced()
      requires Buffers()
      ensures places.Valid()
    {
    }

    /** What the two streams hold. */
    function TaskBytes(): seq<byte>
      reads this, commandStreamTask, if commandStreamTask == null then {} else {commandStreamTask.cpuAddress}
    {
      Content(commandStreamTask)
    }

    function ReceiverBytes(): seq<byte>
      reads this, commandStreamCSR, if commandStreamCSR == null then {} else {commandStreamCSR.cpuAddress}
    {
      Content(commandStreamCSR)
    }

    /** What the three heaps hold. */
    function HeapBytes(): Heaps
      reads this, sshAllocation, if sshAllocation == null then {} else {sshAllocation.cpuAddress}
      reads iohAllocation, if iohAllocation == null then {} else {iohAllocation.cpuAddress}
      reads dshAllocation, if dshAllocation == null then {} else {dshAllocation.cpuAddress}
    {
      Heaps(Content(sshAllocation), Content(iohAllocation), Content(dshAllocation))
    }

    function SurfaceEnd(): nat
      reads this, sshAllocation
    {
      EndOf(sshAllocation, SurfaceHeap.SURFACE_STATE_SIZE)
    }

    /** `createSurfaceStateHeap`: a new heap starts behind one empty surface state. */
    method CreateSurfaceStateHeap(k: SurfaceHeap.Surfaces, granted: bool) returns (ret: Code)
      requires Buffers() && k.Valid() && SurfaceHeap.NextOffset(SurfaceEnd(), k.count) <= STREAM_SIZE
      requires k.count > 0 ==> SurfaceEnd() + |k.blob| <= STREAM_SIZE
      modifies this`sshAllocation, Owned(sshAllocation)
      ensures Buffers() && fresh(Owned(sshAllocation) - old(Owned(sshAllocation)))
      ensures TaskBytes() == old(TaskBytes()) && ReceiverBytes() == old(ReceiverBytes())
      ensures Grows(old(HeapBytes()), HeapBytes())
      ensures ret == if old(sshAllocation) == null && !granted then BufferAllocationFailed else Success
      ensures ret == Success ==>
                && sshAllocation != null && sshAllocation.offset == SurfaceHeap.NextOffset(old(SurfaceEnd()), k.count)
                && SurfacesAt(sshAllocation, old(SurfaceEnd()), k)
    {
      hide Content, SurfacesAt, SurfaceHeap.NextOffset;
      var bo := PlaceSurfaces(sshAllocation, granted, places.surfaces, k);
      if bo == null {
        return BufferAllocationFailed;
      }
      sshAllocation := bo;
      return Success;
    }

    function IndirectEnd(): nat
      reads this, iohAllocation
    {
      EndOf(iohAllocation, 0)
    }

    /** The fields a launch leaves for the later steps. */
    ghost predicate Prepared(k: IndirectHeap.Indirect)
      requires k.Valid()
      reads this
    {
      && hwThreadsPerWorkGroup == k.Threads() && crossThreadDataSize == |k.crossThreadData|
      && perThreadDataSize == IndirectHeap.PerThreadDataSize(k)
      && localIDSizePerThread == DynamicHeap.Max(IndirectHeap.ReservedPerThread(k.simdSize, k.present.Count()), IndirectHeap.GRF)
    }

    /** An array that is none of the buffers' memory. */
    ghost predicate Foreign(data: array<byte>)
      reads this
    {
      && (sshAllocation == null || sshAllocation.cpuAddress != data)
      && (iohAllocation == null || iohAllocation.cpuAddress != data)
      && (dshAllocation == null || dshAllocation.cpuAddress != data)
      && (commandStreamTask == null || commandStreamTask.cpuAddress != data)
      && (commandStreamCSR == null || commandStreamCSR.cpuAddress != data)
    }

    /** `createIndirectObjectHeap`: the sizes are patched into the kernel's data, which is then copied. */
    method CreateIndirectObjectHeap(l: Launch, granted: bool, data: array<byte>) returns (ret: Code)
      requires Buffers() && l.Valid() && IndirectHeap.Room(IndirectEnd(), l.indirect, STREAM_SIZE)
      requires Foreign(data) && l.PatchesFrom(data[..])
      modifies this`iohAllocation, this`hwThreadsPerWorkGroup, this`crossThreadDataSize, this`perThreadDataSize,
               this`localIDSizePerThread, Owned(iohAllocation), data
      ensures Foreign(data) && (ret == Success ==> data[..] == l.indirect.crossThreadData)
      ensures Buffers() && fresh(Owned(iohAllocation) - old(Owned(iohAllocation)))
      ensures TaskBytes() == old(TaskBytes()) && ReceiverBytes() == old(ReceiverBytes())
      ensures Grows(old(HeapBytes()), HeapBytes())
      ensures ret == if old(iohAllocation) == null && !granted then BufferAllocationFailed else Success
      ensures var k := l.indirect;
              ret == Success ==>
                && iohAllocation != null && iohAllocation.offset == IndirectHeap.NextOffset(old(IndirectEnd()), k)
                && IndirectAt(iohAllocation, old(IndirectEnd()), k) && Prepared(k)
    {
      hide IndirectAt, IndirectHeap.NextOffset, IndirectHeap.Room, Prepared, Buffers, Foreign, TaskBytes, ReceiverBytes,
           IndirectEnd, Launch.PatchesFrom, IndirectHeap.PerThreadDataSize, WorkGroup.HwThreads, Launch.PatchesFit,
           HeapBytes, Grows;
      var hwThreads, perThread;
      ret, hwThreads, perThread := EmitIndirect(l, granted, data);
      if ret != Success {
        return;
      }
      Prepare(l.indirect, hwThreads, perThread, data);
    }

    /** The data is placed. */
    method EmitIndirect(l: Launch, granted: bool, data: array<byte>) returns (ret: Code, hwThreads: nat, perThread: nat)
      requires Buffers() && l.Valid() && IndirectHeap.Room(IndirectEnd(), l.indirect, STREAM_SIZE)
      requires Foreign(data) && l.PatchesFrom(data[..])
      modifies this`iohAllocation, Owned(iohAllocation), data
      ensures Foreign(data) && (ret == Success ==> data[..] == l.indirect.crossThreadData)
      ensures Buffers() && fresh(Owned(iohAllocation) - old(Owned(iohAllocation)))
      ensures TaskBytes() == old(TaskBytes()) && ReceiverBytes() == old(ReceiverBytes())
      ensures Grows(old(HeapBytes()), HeapBytes())
      ensures ret == if old(iohAllocation) == null && !granted then BufferAllocationFailed else Success
      ensures var k := l.indirect;
              ret == Success ==>
                && iohAllocation != null && iohAllocation.offset == IndirectHeap.NextOffset(old(IndirectEnd()), k)
                && IndirectAt(iohAllocation, old(IndirectEnd()), k)
                && hwThreads == k.Threads() && perThread == IndirectHeap.PerThreadDataSize(k)
    {
      hide IndirectAt, IndirectHeap.NextOffset, IndirectHeap.Room, Content, Launch.PatchesFrom, Canonize,
           IndirectHeap.PerThreadDataSize, WorkGroup.HwThreads, Launch.PatchesFit, HeapAllocator.HeapAddress,
           IndirectHeap.Indirect.Valid, SurfaceHeap.Surfaces.Valid, Layout.Valid;
      var bo;
      bo, hwThreads, perThread := PlaceIndirect(iohAllocation, granted, Canonize(places.indirect), l, data);
      if bo == null {
        return BufferAllocationFailed, 0, 0;
      }
      iohAllocation := bo;
      return Success, hwThreads, perThread;
    }

    /** The sizes of the launch are kept for the later steps. */
    method Prepare(k: IndirectHeap.Indirect, hwThreads: nat, perThread: nat, ghost data: array<byte>)
      requires Buffers() && Foreign(data) && k.Valid()
      requires hwThreads == k.Threads() && perThread == IndirectHeap.PerThreadDataSize(k)
      modifies this`hwThreadsPerWorkGroup, this`crossThreadDataSize, this`perThreadDataSize, this`localIDSizePerThread
      ensures Buffers() && Foreign(data) && Prepared(k)
      ensures TaskBytes() == old(TaskBytes()) && ReceiverBytes() == old(ReceiverBytes())
      ensures HeapBytes() == old(HeapBytes())
    {
      hide IndirectHeap.PerThreadDataSize, IndirectHeap.ReservedPerThread, WorkGroup.HwThreads, DynamicHeap.Max, Held, Apart,
           Places.Valid, Canonize;
      crossThreadDataSize, hwThreadsPerWorkGroup, perThreadDataSize := |k.crossThreadData|, hwThreads, perThread;
      localIDSizePerThread := DynamicHeap.Max(IndirectHeap.ReservedPerThread(k.simdSize, k.present.Count()), IndirectHeap.GRF);
    }

    function DynamicEnd(): nat
      reads this, dshAllocation
    {
      EndOf(dshAllocation, 0)
    }

    /** `createDynamicStateHeap`. */
    method CreateDynamicStateHeap(k: Launch, granted: bool) returns (ret: Code)
      requires Buffers() && k.Valid() && Prepared(k.indirect) && DynamicEnd() + 64 <= STREAM_SIZE && sshAllocation != null
      modifies this`dshAllocation, this`sharedLocalMemorySize, Owned(dshAllocation)
      ensures Buffers() && fresh(Owned(dshAllocation) - old(Owned(dshAllocation)))
      ensures TaskBytes() == old(TaskBytes()) && ReceiverBytes() == old(ReceiverBytes())
      ensures Grows(old(HeapBytes()), HeapBytes())
      ensures ret == if old(dshAllocation) == null && !granted then BufferAllocationFailed else Success
      ensures ret == Success ==>
                && dshAllocation != null && dshAllocation.offset == old(DynamicEnd()) + 64
                && DescriptorAt(dshAllocation, old(DynamicEnd()),
                                DynamicHeap.Descriptor(InterfaceOf(k, sshAllocation.offset)))
                && DescribedAt(dshAllocation, old(DynamicEnd()), k) && sharedLocalMemorySize == SlmBytes(k)
    {
      hide Launch.PatchesFit, DescriptorAt, DescribedAt, DynamicHeap.Descriptor, AlignUp, IndirectHeap.PerThreadDataSize,
           HeapAllocator.BaseDistance, HeapAllocator.HeapAddress, WorkGroup.HwThreads, TaskBytes, ReceiverBytes, HeapBytes,
           Grows, DynamicEnd, Held;
      var sharedLocalMemory := AlignUp(k.sharedLocalMemory, KILO_BYTE) % TWO_32;
      var interface := DynamicHeap.Interface(HeapAllocator.BaseDistance(k.kernelAddress), k.surfaces.count,
                                             sshAllocation.offset, sharedLocalMemory, hwThreadsPerWorkGroup,
                                             crossThreadDataSize, localIDSizePerThread, k.hasBarriers);
      assert interface == InterfaceOf(k, sshAllocation.offset) && sharedLocalMemory == SlmBytes(k);
      hide InterfaceOf, SlmBytes;
      ghost var start, surfaceEnd := DynamicEnd(), sshAllocation.offset;
      ret := EmitDescriptor(granted, DynamicHeap.Descriptor(interface), sharedLocalMemory);
      if ret == Success {
        DescriptorIsRead(dshAllocation, start, k, surfaceEnd);
      }
    }

    /** The descriptor is placed, and the local memory it asks for is kept for the receiver stream. */
    method EmitDescriptor(granted: bool, d: Command, sharedLocalMemory: nat) returns (ret: Code)
      requires Buffers() && |d| == 8 && DynamicEnd() + 64 <= STREAM_SIZE
      modifies this`dshAllocation, this`sharedLocalMemorySize, Owned(dshAllocation)
      ensures Buffers() && fresh(Owned(dshAllocation) - old(Owned(dshAllocation)))
      ensures TaskBytes() == old(TaskBytes()) && ReceiverBytes() == old(ReceiverBytes())
      ensures Grows(old(HeapBytes()), HeapBytes())
      ensures ret == if old(dshAllocation) == null && !granted then BufferAllocationFailed else Success
      ensures ret == Success ==>
                && dshAllocation != null && dshAllocation.offset == old(DynamicEnd()) + 64
                && DescriptorAt(dshAllocation, old(DynamicEnd()), d) && sharedLocalMemorySize == sharedLocalMemory
    {
      hide Content, DescriptorAt, Places.Valid, Canonize;
      var bo := PlaceDescriptor(dshAllocation, granted, places.dynamicState, d);
      if bo == null {
        return BufferAllocationFailed;
      }
      dshAllocation, sharedLocalMemorySize := bo, sharedLocalMemory;
      return Success;
    }

    /** The three heaps hold the launch's data from these offsets on. */
    ghost predicate HeapsHold(k: Launch, surfaceStart: nat, indirectStart: nat, descriptorStart: nat)
      requires k.Valid()
      reads this, sshAllocation, iohAllocation, dshAllocation
      reads if sshAllocation == null then {} else {sshAllocation.cpuAddress}
      reads if iohAllocation == null then {} else {iohAllocation.cpuAddress}
      reads if dshAllocation == null then {} else {dshAllocation.cpuAddress}
    {
      && sshAllocation != null && sshAllocation.offset == SurfaceHeap.NextOffset(surfaceStart, k.surfaces.count) >= 64
      && SurfacesAt(sshAllocation, surfaceStart, k.surfaces)
      && iohAllocation != null && iohAllocation.offset == IndirectHeap.NextOffset(indirectStart, k.indirect)
      && IndirectAt(iohAllocation, indirectStart, k.indirect)
      && dshAllocation != null && dshAllocation.offset == descriptorStart + 64
      && DescriptorAt(dshAllocation, descriptorStart, DynamicHeap.Descriptor(InterfaceOf(k, sshAllocation.offset)))
    }

    /** `createCommandStreamTask`: the commands point at what the heaps hold, although the driver only looks
        back from where the heaps end. */
    method CreateCommandStreamTask(k: Launch, granted: bool, ghost surfaceStart: nat, ghost indirectStart: nat,
                                   ghost descriptorStart: nat)
      returns (ret: Code)
      requires Buffers() && k.Valid() && Prepared(k.indirect) && |TaskBytes()| + 192 <= STREAM_SIZE
      requires HeapsHold(k, surfaceStart, indirectStart, descriptorStart) && indirectStart % 64 == 0
      modifies this`commandStreamTask, this`completionTag, Owned(commandStreamTask)
      ensures Buffers() && fresh(Owned(commandStreamTask) - old(Owned(commandStreamTask)))
      ensures HeapBytes() == old(HeapBytes())
      ensures HeapsHold(k, surfaceStart, indirectStart, descriptorStart) && ReceiverBytes() == old(ReceiverBytes())
      ensures ret == if old(commandStreamTask) == null && !granted then BufferAllocationFailed else Success
      ensures ret != Success ==> commandStreamTask == null && completionTag == old(completionTag)
      ensures ret == Success ==>
                && completionTag == (old(completionTag) + 1) % TWO_32
                && commandStreamTask != null && commandStreamTask.currentTaskOffset == 192
                && commandStreamTask.offset == |old(TaskBytes())| + 192
                && TaskBytes() == AppendTask(old(TaskBytes()),
                     Task(descriptorStart, WalkOf(places, k, indirectStart), places.streams.tagAddress, completionTag))
                && Wiring.WalkIsMeant(GpgpuWalker(WalkOf(places, k, indirectStart)), k)
    {
      hide AppendTask, WalkOf, Wiring.WalkIsMeant, GpgpuWalker, Buffers, SurfacesAt, IndirectAt, DescriptorAt, InterfaceOf, SurfaceHeap.NextOffset,
           IndirectHeap.NextOffset, Prepared, TaskBytes, ReceiverBytes, Launch.PatchesFit, DynamicHeap.DescriptorStart;
      DescriptorFound(descriptorStart);
      ObtainTaskStream(k, granted, surfaceStart, indirectStart, descriptorStart);
      if commandStreamTask == null {
        return BufferAllocationFailed;
      }
      var start := DynamicHeap.DescriptorStart(dshAllocation.offset);
      var walk := Walker(k, indirectStart);
      EmitTask(k, start, walk, surfaceStart, indirectStart, descriptorStart);
      BuffersArePlaced();
      Wiring.WalkReadsBack(places, k, indirectStart);
      return Success;
    }

    lemma DescriptorFound(descriptorStart: nat)
      requires Buffers() && dshAllocation != null && dshAllocation.offset == descriptorStart + 64
      ensures DynamicHeap.DescriptorStart(dshAllocation.offset) == descriptorStart < STREAM_SIZE == 0x1_0000
    {
      hide AlignUp;
      DynamicHeap.AlignedEnd(descriptorStart);
    }

    method ObtainTaskStream(k: Launch, granted: bool, ghost surfaceStart: nat, ghost indirectStart: nat,
                            ghost descriptorStart: nat)
      requires Buffers() && k.Valid() && Prepared(k.indirect)
      requires HeapsHold(k, surfaceStart, indirectStart, descriptorStart)
      modifies this`commandStreamTask
      ensures Buffers() && Prepared(k.indirect) && HeapsHold(k, surfaceStart, indirectStart, descriptorStart)
      ensures HeapBytes() == old(HeapBytes())
      ensures TaskBytes() == old(TaskBytes()) && ReceiverBytes() == old(ReceiverBytes())
      ensures commandStreamTask == null <==> old(commandStreamTask) == null && !granted
      ensures fresh(Owned(commandStreamTask) - old(Owned(commandStreamTask)))
    {
      hide SurfacesAt, IndirectAt, DescriptorAt, InterfaceOf, SurfaceHeap.NextOffset, IndirectHeap.NextOffset,
           Launch.PatchesFit, IndirectHeap.PerThreadDataSize, WorkGroup.HwThreads, HeapAllocator.HeapAddress, Canonize;
      commandStreamTask := Obtain(commandStreamTask, granted, places.streams.taskBase);
    }

    /** The next tag is taken and the commands are written. */
    method EmitTask(k: Launch, start: uint32, walk: Walk, ghost surfaceStart: nat, ghost indirectStart: nat,
                    ghost descriptorStart: nat)
      requires Buffers() && k.Valid() && HeapsHold(k, surfaceStart, indirectStart, descriptorStart)
      requires commandStreamTask != null && |TaskBytes()| + 192 <= STREAM_SIZE
      modifies this`completionTag, Owned(commandStreamTask)
      ensures Buffers() && HeapsHold(k, surfaceStart, indirectStart, descriptorStart)
      ensures HeapBytes() == old(HeapBytes())
      ensures ReceiverBytes() == old(ReceiverBytes()) && completionTag == (old(completionTag) + 1) % TWO_32
      ensures commandStreamTask.cpuAddress == old(commandStreamTask.cpuAddress)
      ensures commandStreamTask.currentTaskOffset == 192 && commandStreamTask.offset == |old(TaskBytes())| + 192
      ensures TaskBytes() == AppendTask(old(TaskBytes()), Task(start, walk, places.streams.tagAddress, completionTag))
    {
      hide SurfacesAt, IndirectAt, DescriptorAt, InterfaceOf, SurfaceHeap.NextOffset, IndirectHeap.NextOffset, AppendTask,
           Launch.PatchesFit, HeapAllocator.HeapAddress, Canonize;
      completionTag := (completionTag + 1) % TWO_32;
      AddTask(commandStreamTask, Task(start, walk, places.streams.tagAddress, completionTag));
    }

    /** The walker's fields, computed from the context's. */
    method Walker(k: Launch, ghost start: nat) returns (w: Walk)
      requires Buffers() && k.Valid() && Prepared(k.indirect) && iohAllocation != null
      requires start % 64 == 0 && iohAllocation.offset == IndirectHeap.NextOffset(start, k.indirect)
      ensures w == WalkOf(places, k, start)
    {
      hide AlignUp, IndirectHeap.NextOffset, IndirectHeap.PerThreadDataSize, Canonize, WorkGroup.RightExecutionMask,
           WorkGroup.HwThreads, Apart;
      assert iohAllocation.Valid() && iohAllocation.cpuAddress.Length == STREAM_SIZE;
      IndirectHeap.IndirectStartIsStart(HeapAllocator.BaseDistance(places.indirect), start, k.indirect);
      var indirectDataLength := AlignUp((crossThreadDataSize + perThreadDataSize) % TWO_32, 64);
      var iohAddressOffset := iohAllocation.gpuAddress - Canonize(HeapAllocator.HEAP_BASE);
      iohAddressOffset := iohAddressOffset + iohAllocation.offset;
      iohAddressOffset := iohAddressOffset - indirectDataLength;
      w := Walk(indirectDataLength, iohAddressOffset, hwThreadsPerWorkGroup, k.groupsX, k.groupsY, k.groupsZ,
                WorkGroup.RightExecutionMask(k.indirect.LocalSize(), k.indirect.simdSize), k.indirect.simdSize);
    }

    /** All five buffers are there. */
    predicate Built()
      reads this
    {
      && sshAllocation != null && iohAllocation != null && dshAllocation != null
      && commandStreamTask != null && commandStreamCSR != null
    }

    /** `createCommandStreamReceiver`: the jump at its end goes to the task just written. */
    method CreateCommandStreamReceiver(k: Launch, granted: bool, ghost surfaceStart: nat, ghost indirectStart: nat,
                                       ghost descriptorStart: nat)
      returns (ret: Code)
      requires Buffers() && k.Valid() && sharedLocalMemorySize == SlmBytes(k)
      requires |ReceiverBytes()| + 320 <= STREAM_SIZE
      requires HeapsHold(k, surfaceStart, indirectStart, descriptorStart) && commandStreamTask != null
      modifies this`commandStreamCSR, Owned(commandStreamCSR)
      ensures Buffers() && fresh(Owned(commandStreamCSR) - old(Owned(commandStreamCSR)))
      ensures HeapBytes() == old(HeapBytes())
      ensures HeapsHold(k, surfaceStart, indirectStart, descriptorStart) && TaskBytes() == old(TaskBytes())
      ensures ret == if old(commandStreamCSR) == null && !granted then BufferAllocationFailed else Success
      ensures ret != Success ==> commandStreamCSR == null
      ensures ret == Success ==>
                && Built() && commandStreamCSR.currentTaskOffset == 320
                && commandStreamCSR.offset == |old(ReceiverBytes())| + 320
                && ReceiverBytes() == AppendReceiver(old(ReceiverBytes()), ReceiverOf(places, k),
                     places.streams.taskBase + old(commandStreamTask.offset - commandStreamTask.currentTaskOffset))
                && (forall g: Gpu, at: nat ::
                      Wiring.IsSetUpFor(After(g, ReceiverCommands(ReceiverOf(places, k), at)), places, k))
    {
      hide Wiring.IsSetUpFor, After, ReceiverCommands, Launch.PatchesFit, AppendReceiver, Canonize, Decanonize, AlignUp, HeapAllocator.BaseDistance,
           HeapAllocator.HeapAddress, SurfacesAt, IndirectAt, DescriptorAt, InterfaceOf, SurfaceHeap.NextOffset,
           IndirectHeap.NextOffset;
      var bo := Obtain(commandStreamCSR, granted, places.streams.csrBase);
      if bo == null {
        return BufferAllocationFailed;
      }
      commandStreamCSR := bo;
      var taskOffset := commandStreamTask.offset - commandStreamTask.currentTaskOffset;
      var general := if k.scratch.Some? then k.scratch.value - 4096 else 0;
      var bases := Bases(Decanonize(general), sshAllocation.gpuAddress, dshAllocation.gpuAddress,
                         Canonize(HeapAllocator.HEAP_BASE), Decanonize(Canonize(HeapAllocator.HEAP_BASE)),
                         dshAllocation.cpuAddress.Length / PAGE_SIZE, (sshAllocation.cpuAddress.Length - PAGE_SIZE) / 64 - 1);
      var receiver := Receiver(sharedLocalMemorySize != 0, places.preemption, k.maxVfeThreads, k.scratchPerThread,
                               k.scratch.Some?, bases, HeapAllocator.BaseDistance(places.sip));
      assert receiver == ReceiverOf(places, k);
      hide ReceiverOf;
      AddReceiver(commandStreamCSR, receiver, commandStreamTask.gpuAddress + taskOffset);
      ReceiverSetsUpLaunch(k);
      return Success;
    }

    lemma ReceiverSetsUpLaunch(k: Launch)
      requires places.Valid() && k.Valid()
      ensures forall g: Gpu, at: nat ::
                Wiring.IsSetUpFor(After(g, ReceiverCommands(ReceiverOf(places, k), at)), places, k)
    {
      hide Wiring.IsSetUpFor, After, ReceiverCommands, ReceiverOf, Launch.Valid, Places.Valid;
      forall g: Gpu, at: nat
        ensures Wiring.IsSetUpFor(After(g, ReceiverCommands(ReceiverOf(places, k), at)), places, k)
      {
        Wiring.ReceiverIsMeant(g, places, k, at);
      }
    }

    /** Every buffer has room for the launch. */
    ghost predicate Room(k: Launch)
      requires k.Valid()
      reads this, sshAllocation, iohAllocation, dshAllocation, commandStreamTask, commandStreamCSR
      reads if commandStreamTask == null then {} else {commandStreamTask.cpuAddress}
      reads if commandStreamCSR == null then {} else {commandStreamCSR.cpuAddress}
    {
      && SurfaceHeap.NextOffset(SurfaceEnd(), k.surfaces.count) <= STREAM_SIZE
      && (k.surfaces.count > 0 ==> SurfaceEnd() + |k.surfaces.blob| <= STREAM_SIZE)
      && IndirectHeap.Room(IndirectEnd(), k.indirect, STREAM_SIZE) && DynamicEnd() + 64 <= STREAM_SIZE
      && |TaskBytes()| + 192 <= STREAM_SIZE && |ReceiverBytes()| + 320 <= STREAM_SIZE
    }

    /** How far construction gets. */
    ghost function Outcome(g: Grants): Progress
      reads this
    {
      if !g.scratch || (sshAllocation == null && !g.surfaces) || (iohAllocation == null && !g.indirect)
         || (dshAllocation == null && !g.dynamicState) || (commandStreamTask == null && !g.task) then FailsBeforeTask
      else if commandStreamCSR == null && !g.receiver then FailsAfterTask
      else Complete
    }

    /** The launch's task: its descriptor and its data start where the heaps ended before. */
    ghost function NextTask(k: Launch): Task
      requires Buffers() && k.Valid() && DynamicEnd() <= STREAM_SIZE
      reads this, sshAllocation, iohAllocation, dshAllocation, commandStreamTask, commandStreamCSR
    {
      Task(DynamicEnd(), WalkOf(places, k, IndirectEnd()), places.streams.tagAddress, (completionTag + 1) % TWO_32)
    }

    /** The indirect and the dynamic-state heap, once the surfaces are placed. */
    method BuildDataHeaps(k: Launch, g: Grants, data: array<byte>, ghost surfaceStart: nat) returns (ret: Code)
      requires Buffers() && k.Valid() && Foreign(data) && k.PatchesFrom(data[..])
      requires sshAllocation != null && SurfacesAt(sshAllocation, surfaceStart, k.surfaces)
      requires IndirectHeap.Room(IndirectEnd(), k.indirect, STREAM_SIZE) && DynamicEnd() + 64 <= STREAM_SIZE
      modifies this`iohAllocation, this`dshAllocation, this`hwThreadsPerWorkGroup, this`crossThreadDataSize,
               this`perThreadDataSize, this`localIDSizePerThread, this`sharedLocalMemorySize, Owned(iohAllocation),
               Owned(dshAllocation), data
      ensures Buffers() && Foreign(data) && (ret == Success ==> data[..] == k.indirect.crossThreadData)
      ensures ret == if old((iohAllocation == null && !g.indirect) || (dshAllocation == null && !g.dynamicState))
                     then BufferAllocationFailed else Success
      ensures TaskBytes() == old(TaskBytes()) && ReceiverBytes() == old(ReceiverBytes())
      ensures Grows(old(HeapBytes()), HeapBytes())
      ensures SurfacesAt(sshAllocation, surfaceStart, k.surfaces)
      ensures ret == Success ==>
                && Prepared(k.indirect) && sharedLocalMemorySize == SlmBytes(k)
                && iohAllocation != null && iohAllocation.offset == IndirectHeap.NextOffset(old(IndirectEnd()), k.indirect)
                && IndirectAt(iohAllocation, old(IndirectEnd()), k.indirect)
                && dshAllocation != null && dshAllocation.offset == old(DynamicEnd()) + 64
                && DescriptorAt(dshAllocation, old(DynamicEnd()),
                                DynamicHeap.Descriptor(InterfaceOf(k, sshAllocation.offset)))
    {
      hide Launch.PatchesFit, Launch.PatchesFrom, SurfacesAt, IndirectAt, DescriptorAt, DescribedAt, InterfaceOf, SlmBytes,
           IndirectHeap.NextOffset, IndirectHeap.Room, DynamicHeap.Descriptor, HeapAllocator.HeapAddress,
           IndirectHeap.PerThreadDataSize, HeapBytes, Grows, Held, Places.Valid, WorkGroup.HwThreads, TaskBytes,
           ReceiverBytes, IndirectHeap.Indirect.Valid;
      ghost var indirectStart, before := IndirectEnd(), HeapBytes();
      ret := CreateIndirectObjectHeap(k, g.indirect, data);
      assert SurfacesAt(sshAllocation, surfaceStart, k.surfaces);
      if ret != Success {
        return;
      }
      ghost var between := HeapBytes();
      ret := CreateDynamicStateHeap(k, g.dynamicState);
      GrowsOn(before, between, HeapBytes());
      assert SurfacesAt(sshAllocation, surfaceStart, k.surfaces) && IndirectAt(iohAllocation, indirectStart, k.indirect);
    }

    /** The three heaps, or as far as the allocations reach. */
    method BuildHeaps(k: Launch, g: Grants, data: array<byte>) returns (ret: Code)
      requires Buffers() && k.Valid() && Room(k) && Foreign(data) && k.PatchesFrom(data[..])
      modifies this`sshAllocation, this`iohAllocation, this`dshAllocation, this`hwThreadsPerWorkGroup,
               this`crossThreadDataSize, this`perThreadDataSize, this`localIDSizePerThread, this`sharedLocalMemorySize,
               Owned(sshAllocation), Owned(iohAllocation), Owned(dshAllocation), data
      ensures Buffers() && Foreign(data) && (ret == Success ==> data[..] == k.indirect.crossThreadData)
      ensures ret == if old((sshAllocation == null && !g.surfaces) || (iohAllocation == null && !g.indirect)
                            || (dshAllocation == null && !g.dynamicState)) then BufferAllocationFailed else Success
      ensures ret == Success ==>
                && Prepared(k.indirect) && sharedLocalMemorySize == SlmBytes(k)
                && HeapsHold(k, old(SurfaceEnd()), old(IndirectEnd()), old(DynamicEnd()))
      ensures old(IndirectEnd()) % 64 == 0
      ensures Grows(old(HeapBytes()), HeapBytes())
      ensures TaskBytes() == old(TaskBytes())
      ensures ReceiverBytes() == old(ReceiverBytes())
    {
      hide Launch.PatchesFit, Launch.PatchesFrom, SurfacesAt, IndirectAt, DescriptorAt, InterfaceOf, SlmBytes,
           SurfaceHeap.NextOffset, IndirectHeap.NextOffset, IndirectHeap.Room, DynamicHeap.Descriptor, TaskBytes,
           ReceiverBytes, HeapAllocator.HeapAddress, IndirectHeap.PerThreadDataSize, Prepared, HeapBytes, Grows;
      ghost var surfaceStart, before := SurfaceEnd(), HeapBytes();
      ret := CreateSurfaceStateHeap(k.surfaces, g.surfaces);
      if ret != Success {
        return;
      }
      ghost var between := HeapBytes();
      ret := BuildDataHeaps(k, g, data, surfaceStart);
      GrowsOn(before, between, HeapBytes());
    }

    /** The two streams on built heaps, or as far as the allocations reach. */
    method BuildStreams(k: Launch, g: Grants, ghost surfaceStart: nat, ghost indirectStart: nat, ghost descriptorStart: nat)
      returns (ret: Code)
      requires Buffers() && k.Valid() && Prepared(k.indirect) && sharedLocalMemorySize == SlmBytes(k)
      requires HeapsHold(k, surfaceStart, indirectStart, descriptorStart) && indirectStart % 64 == 0
      requires |TaskBytes()| + 192 <= STREAM_SIZE && |ReceiverBytes()| + 320 <= STREAM_SIZE
      modifies this`commandStreamTask, this`completionTag, this`commandStreamCSR, Owned(commandStreamTask),
               Owned(commandStreamCSR)
      ensures HeapBytes() == old(HeapBytes())
      ensures Buffers() && HeapsHold(k, surfaceStart, indirectStart, descriptorStart) && (ret == Success ==> Built())
      ensures var noTask := old(commandStreamTask == null && !g.task);
              var noReceiver := old(commandStreamCSR == null && !g.receiver);
              var t := Task(descriptorStart, WalkOf(places, k, indirectStart), places.streams.tagAddress,
                            (old(completionTag) + 1) % TWO_32);
              && ret == (if noTask || noReceiver then BufferAllocationFailed else Success)
              && completionTag == (if noTask then old(completionTag) else t.tag)
              && TaskBytes() ==
                 (if noTask then old(TaskBytes()) else AppendTask(old(TaskBytes()), t))
              && ReceiverBytes() ==
                 (if ret == Success
                  then AppendReceiver(old(ReceiverBytes()), ReceiverOf(places, k),
                                      places.streams.taskBase + |old(TaskBytes())|)
                  else old(ReceiverBytes()))
              && (ret == Success ==> commandStreamCSR.currentTaskOffset == 320)
    {
      hide Wiring.WalkIsMeant, Wiring.IsSetUpFor, GpgpuWalker, After, ReceiverCommands, Places.Valid,
           Launch.PatchesFit, AppendTask, AppendReceiver, SurfacesAt, IndirectAt, DescriptorAt, WalkOf, InterfaceOf,
           ReceiverOf, SlmBytes, SurfaceHeap.NextOffset, IndirectHeap.NextOffset, DynamicHeap.Descriptor, Prepared, HeapAllocator.HeapAddress,
           Canonize, AlignUp, Launch.Valid, HeapsHold, ReceiverBytes, Buffers;
      ret := CreateCommandStreamTask(k, g.task, surfaceStart, indirectStart, descriptorStart);
      if ret != Success {
        return;
      }
      ret := CreateCommandStreamReceiver(k, g.receiver, surfaceStart, indirectStart, descriptorStart);
    }

    /** `constructBufferObjects`: heaps and streams, or as far as the allocations reach. */
    method ConstructBufferObjects(k: Launch, g: Grants, data: array<byte>) returns (ret: Code)
      requires Buffers() && k.Valid() && Room(k) && Foreign(data) && k.PatchesFrom(data[..])
      modifies Footprint(), data
      ensures Buffers() && (ret == Success ==> Built() && data[..] == k.indirect.crossThreadData)
      ensures ret == if old(Outcome(g)) == Complete then Success else BufferAllocationFailed
      ensures Grows(old(HeapBytes()), HeapBytes())
      ensures ret == Success ==> HeapsHold(k, old(SurfaceEnd()), old(IndirectEnd()), old(DynamicEnd()))
      ensures var before, t := old(TaskBytes()), old(NextTask(k));
              if old(Outcome(g)) == FailsBeforeTask
              then completionTag == old(completionTag) && TaskBytes() == before
              else completionTag == t.tag && TaskBytes() == AppendTask(before, t)
      ensures var before := old(ReceiverBytes());
              if ret == Success
              then ReceiverBytes() == AppendReceiver(before, ReceiverOf(places, k),
                                                  places.streams.taskBase + |old(TaskBytes())|)
                   && commandStreamCSR.currentTaskOffset == 320
              else ReceiverBytes() == before
    {
      hide AppendTask, AppendReceiver, HeapsHold, WalkOf, ReceiverOf, SlmBytes, IndirectHeap.Room, SurfaceHeap.NextOffset,
           Prepared, Buffers, TaskBytes, ReceiverBytes, EndOf, Held, Apart, HeapBytes;
      ghost var surfaceStart, indirectStart, descriptorStart := SurfaceEnd(), IndirectEnd(), DynamicEnd();
      if !g.scratch {
        return BufferAllocationFailed;
      }
      ret := BuildHeaps(k, g, data);
      if ret != Success {
        return;
      }
      ret := BuildStreams(k, g, surfaceStart, indirectStart, descriptorStart);
    }

    /** `populateAndSubmitExecBuffer`: exactly what the launch needs is pinned, the batch buffer last; the batch starts
        where this launch's receiver commands do and ends where the stream does; the kernel's arguments are open again
        whether or not the submission succeeds. */
    method PopulateAndSubmitExecBuffer(k: Launch, kernel: KernelArgs.Kernel, accepted: bool)
      returns (ret: Code, pinned: seq<nat>, batchStartOffset: nat, batchLength: nat)
      requires Buffers() && Built() && commandStreamCSR.currentTaskOffset == 320 && kernel.Valid()
      requires k.Valid()
      modifies kernel`decoded
      ensures ret == (if accepted then Success else GemExecbufferFailed)
      ensures forall a :: a in pinned <==> Needed(places, k, kernel.execData, a)
      ensures pinned != [] && pinned[|pinned| - 1] == places.streams.csrBase
      ensures batchStartOffset == commandStreamCSR.offset - 320 && batchStartOffset + batchLength == commandStreamCSR.offset
      ensures kernel.Valid() && KernelArgs.FlagsOf(kernel.decoded.argDescriptor)
                == KernelArgs.After(old(KernelArgs.FlagsOf(kernel.decoded.argDescriptor)), KernelArgs.Call.ResetArguments)
    {
      pinned := ExecBuffer(k, kernel);
      batchStartOffset := (commandStreamCSR.offset - commandStreamCSR.currentTaskOffset) % TWO_32;
      batchLength := AlignUp(commandStreamCSR.currentTaskOffset, 8) % TWO_32;
      BatchLength();
      if !accepted {
        kernel.ResetArguments();
        return GemExecbufferFailed, pinned, batchStartOffset, batchLength;
      }
      kernel.ResetArguments();
      return Success, pinned, batchStartOffset, batchLength;
    }

    /** The list of pinned buffers. */
    method ExecBuffer(k: Launch, kernel: KernelArgs.Kernel) returns (execBuffer: seq<nat>)
      requires Buffers() && Built() && k.Valid()
      ensures forall a :: a in execBuffer <==> Needed(places, k, kernel.execData, a)
      ensures execBuffer != [] && execBuffer[|execBuffer| - 1] == places.streams.csrBase
    {
      hide Canonize, Apart, Launch.PatchesFit;
      var arguments := ArgumentBuffers(kernel.execData);
      hide Names;
      execBuffer := arguments + (if k.constantSurface.Some? then [k.constantSurface.value] else []);
      execBuffer := execBuffer + [Canonize(k.kernelAddress)] + (if k.scratch.Some? then [k.scratch.value] else []);
      execBuffer := execBuffer + [dshAllocation.gpuAddress, iohAllocation.gpuAddress, sshAllocation.gpuAddress,
                                  places.streams.tagAddress, places.preemption];
      execBuffer := execBuffer + (if k.midThread then [Canonize(places.sip)] else []);
      execBuffer := execBuffer + [commandStreamTask.gpuAddress, commandStreamCSR.gpuAddress];
    }

    /** `finishExecution`: the wait, then one look at the tag in memory. */
    method FinishExecution(waited: bool, tag: nat) returns (ret: Code)
      ensures ret == if waited && tag == completionTag then Success else PostSyncOperationFailed
    {
      if !waited {
        return PostSyncOperationFailed;
      }
      if tag != completionTag {
        return PostSyncOperationFailed;
      }
      return Success;
    }
  }

  /** The buffers the kernel's arguments point to, in order. */
  method ArgumentBuffers(execData: seq<Option<KernelArgs.Buffer>>) returns (addresses: seq<nat>)
    ensures forall a :: a in addresses <==> exists i :: 0 <= i < |execData| && Names(execData[i], a)
  {
    addresses := [];
    for i := 0 to |execData|
      invariant forall a :: a in addresses <==> exists j :: 0 <= j < i && Names(execData[j], a)
    {
      if execData[i].Some? {
        assert Names(execData[i], execData[i].value.gpuAddress);
        addresses := addresses + [execData[i].value.gpuAddress];
      }
    }
  }

  lemma BatchLength()
    ensures AlignUp(320, 8) == 320
  {
    AlignUpRoundsUp(320, 3);
    CeilIsLeastMultiple(320, 8, 320);
  }
}
