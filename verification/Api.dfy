/** `ExecuteKernel`, from a kernel object and the sizes asked for to the heaps and the walker. */
module Api {
  import opened Options
  import opened Bits
  import opened Words
  import opened DriverUtils
  import opened Commands
  import opened Launches
  import opened Dispatcher
  import BufferObjects
  import GpuState
  import Wiring
  import ThreadPayload
  import NdRange
  import Placement
  import opened Session
  import Runs
  import PatchTokens
  import TokenLayouts
  import KernelArgs
  import KernelConstants
  import WorkSize
  import SurfaceHeap
  import IndirectHeap
  import HeapAllocator
  import WorkGroup
  import LocalIds

  datatype Code = Refused(reason: WorkSize.Code) | Ran(code: Dispatcher.Code)

  /** What a launch takes from the context and from the kernel's allocations. */
  datatype Settings = Settings(kernelAddress: nat, constantSurface: Option<nat>, maxVfeThreads: nat,
                               scratchPerThread: nat, scratch: Option<nat>, midThread: bool)

  /** What the caller asks for, and whether the device is one the driver knows. */
  datatype Request = Request(supported: bool, workDim: nat, global: Option<seq<nat>>, local: Option<seq<nat>>)
  {
    predicate Valid()
    {
      && (global.Some? ==> |global.value| >= workDim && forall i | 0 <= i < workDim :: global.value[i] < TWO_64)
      && (local.Some? ==> |local.value| >= workDim && forall i | 0 <= i < workDim :: local.value[i] < TWO_64)
    }

    ghost predicate Passes(required: seq<nat>, max: nat)
      requires Valid() && |required| == 3
    {
      supported && global.Some? && local.Some? && WorkSize.Acceptable(workDim, global.value, local.value, required, max)
    }
  }

  // ---------- what the decoded tokens say ----------

  const BINDING_TABLE_STATE: uint32 := 8
  const THREAD_PAYLOAD: uint32 := 22
  const EXECUTION_ENVIRONMENT: uint32 := 23
  const DATA_PARAMETER_STREAM: uint32 := 25

  /** The tokens a launch reads are there. */
  predicate HasMetadata(d: PatchTokens.Decoded)
  {
    && BINDING_TABLE_STATE in d.recorded && THREAD_PAYLOAD in d.recorded && EXECUTION_ENVIRONMENT in d.recorded
    && DATA_PARAMETER_STREAM in d.recorded && |d.localWorkSize| == 3 && |d.localWorkSize2| == 3
  }

  function Required(d: PatchTokens.Decoded): (r: seq<nat>)
    requires HasMetadata(d)
    ensures |r| == 3
  {
    var e := d.recorded[EXECUTION_ENVIRONMENT];
    [e.Field(0), e.Field(1), e.Field(2)]
  }

  function SimdSize(d: PatchTokens.Decoded): nat
    requires HasMetadata(d)
  {
    d.recorded[EXECUTION_ENVIRONMENT].Field(3)
  }

  /** Which local IDs the kernel reads: three flags of the thread payload. */
  function Present(d: PatchTokens.Decoded): LocalIds.Channels
    requires HasMetadata(d)
  {
    var t := d.recorded[THREAD_PAYLOAD];
    LocalIds.Channels(t.Field(1) != 0, t.Field(2) != 0, t.Field(3) != 0)
  }

  /** Then their sum, which the driver computes, is the number of channels. */
  predicate FlagsAreBits(d: PatchTokens.Decoded)
    requires HasMetadata(d)
  {
    var t := d.recorded[THREAD_PAYLOAD];
    t.Field(1) <= 1 && t.Field(2) <= 1 && t.Field(3) <= 1
  }

  function Places3(d: PatchTokens.Decoded, kind: uint32): (r: seq<Option<nat>>)
    ensures |r| == 3
  {
    [d.PlaceIn(kind, 0), d.PlaceIn(kind, 1), d.PlaceIn(kind, 2)]
  }

  function PayloadOf(d: PatchTokens.Decoded): (p: KernelConstants.Payload)
    requires HasMetadata(d)
    ensures p.Valid()
  {
    var local, local2 := d.localWorkSize, d.localWorkSize2;
    KernelConstants.Payload([PatchTokens.PlaceOf(local[0]), PatchTokens.PlaceOf(local[1]), PatchTokens.PlaceOf(local[2])],
                            [PatchTokens.PlaceOf(local2[0]), PatchTokens.PlaceOf(local2[1]), PatchTokens.PlaceOf(local2[2])],
                            Places3(d, 28), Places3(d, 3), Places3(d, 4), d.PlaceIn(5, 0))
  }

  /** Every place a size goes to lies in the data, whatever the sizes are. */
  predicate PlacesFit(p: KernelConstants.Payload, length: nat)
    requires p.Valid()
  {
    && (forall i | 0 <= i < 3 ::
          && Fits(p.localWorkSize[i], length) && Fits(p.localWorkSize2[i], length)
          && Fits(p.enqueuedLocalWorkSize[i], length) && Fits(p.globalWorkSize[i], length)
          && Fits(p.numWorkGroups[i], length))
    && Fits(p.workDimensions, length)
  }

  predicate Fits(place: Option<nat>, length: nat) { place.Some? ==> place.value + 4 <= length }

  lemma FittingPlaces(p: KernelConstants.Payload, s: KernelConstants.Sizes, length: nat)
    requires p.Valid() && s.Valid() && PlacesFit(p, length)
    ensures KernelConstants.AllFit(KernelConstants.LaunchWrites(p, s), length)
  {
    hide KernelConstants.LaunchWrites;
    var ws := KernelConstants.LaunchWrites(p, s);
    KernelConstants.WriteAt(p, s, 0, 0);
    forall j | 0 <= j < |ws|
      ensures ws[j].Fits(length)
    {
      if j < 15 { KernelConstants.WriteAt(p, s, j / 5, j % 5); }
    }
  }

  // ---------- the launch that a request makes ----------

  /** What the driver's size fields hold for the launch: the request's values in the dimensions it has, what an earlier
      launch left in the others.  The number of dimensions is a field that nothing assigns. */
  function SizesFor(q: Request, local: seq<nat>, global: seq<nat>, groups: seq<nat>): (s: KernelConstants.Sizes)
    requires q.Valid() && q.global.Some? && q.local.Some? && q.workDim <= 3 && |local| == |global| == |groups| == 3
    requires forall i | 0 <= i < q.workDim :: q.local.value[i] > 0
    ensures s.Valid()
  {
    KernelConstants.Sizes(seq(3, i requires 0 <= i < 3 => if i < q.workDim then q.local.value[i] else local[i]),
                          seq(3, i requires 0 <= i < 3 => if i < q.workDim then q.global.value[i] else global[i]),
                          seq(3, i requires 0 <= i < 3 => if i < q.workDim then q.global.value[i] / q.local.value[i]
                                                          else groups[i]), 0)
  }

  function GroupSize(s: KernelConstants.Sizes): nat
    requires s.Valid()
  {
    s.local[2] * (s.local[1] * s.local[0])
  }

  /** What the driver takes for granted of a kernel it launches. */
  predicate Sound(d: PatchTokens.Decoded, data: seq<byte>, ssh: seq<byte>, s: Settings)
  {
    && HasMetadata(d) && d.recorded[DATA_PARAMETER_STREAM].Field(0) == |data|
    && (WorkGroup.IsSimd(SimdSize(d)) || SimdSize(d) == 1) && FlagsAreBits(d) && PlacesFit(PayloadOf(d), |data|)
    && SurfacesOf(d, ssh).Valid() && HeapAllocator.HeapAddress(s.kernelAddress)
    && (s.scratch.Some? ==> s.scratch.value >= 4096 && PageAddress(s.scratch.value))
  }

  function SurfacesOf(d: PatchTokens.Decoded, ssh: seq<byte>): SurfaceHeap.Surfaces
    requires HasMetadata(d)
  {
    var table := d.recorded[BINDING_TABLE_STATE];
    SurfaceHeap.Surfaces(ssh, table.Field(0), table.Field(1))
  }

  /** The launch of a kernel with these tokens, cross-thread data, surfaces and shared local memory. */
  function LaunchOf(d: PatchTokens.Decoded, data: seq<byte>, ssh: seq<byte>, slm: uint32, sizes: KernelConstants.Sizes,
                    s: Settings): (k: Launch)
    requires Sound(d, data, ssh, s) && sizes.Valid()
    requires forall i | 0 <= i < 3 :: sizes.local[i] >= 1
    requires GroupSize(sizes) <= 1024
    ensures k.Valid() && k.PatchesFrom(data)
  {
    var p := PayloadOf(d);
    FittingPlaces(p, sizes, |data|);
    SidesOfGroup(sizes);
    Launch(SurfacesOf(d, ssh),
           IndirectHeap.Indirect(KernelConstants.PutAll(data, KernelConstants.LaunchWrites(p, sizes)), sizes.local[0],
                                 sizes.local[1], sizes.local[2], SimdSize(d), Present(d)),
           sizes.groups[0], sizes.groups[1], sizes.groups[2], s.kernelAddress, slm,
           d.recorded[EXECUTION_ENVIRONMENT].Field(5), s.maxVfeThreads, s.scratchPerThread, s.scratch, p, sizes,
           s.constantSurface, s.midThread)
  }

  lemma SidesOfGroup(s: KernelConstants.Sizes)
    requires s.Valid() && GroupSize(s) <= 1024 && forall i | 0 <= i < 3 :: s.local[i] >= 1
    ensures forall i | 0 <= i < 3 :: s.local[i] <= 1024
  {
    var x, y, z := s.local[0], s.local[1], s.local[2];
    MulMonotone(x, 1, y);
    MulMonotone(y, 1, x);
    MulMonotone(y * x, 1, z);
    MulMonotone(z, 1, y * x);
  }

  /** A request of three dimensions that passes validation makes a group the hardware has room for, unless the product
      of its sizes wrapped around 64 bits. */
  lemma ValidatedGroupFits(q: Request, local: seq<nat>, global: seq<nat>, groups: seq<nat>, required: seq<nat>, max: nat)
    requires q.Valid() && q.workDim == 3 && |local| == |global| == |groups| == |required| == 3 && max <= 1024
    requires q.global.Some? && |q.global.value| == 3 && q.local.Some? && |q.local.value| == 3
    requires q.Passes(required, max)
    ensures GroupSize(SizesFor(q, local, global, groups)) == WorkSize.Product(q.local.value, 3)
    ensures GroupSize(SizesFor(q, local, global, groups)) <= max <==> WorkSize.Product(q.local.value, 3) < TWO_64
  {
    hide WorkSize.Acceptable, WorkSize.Product;
    WorkSize.AcceptedSizes(q.global.value, q.local.value, required, max);
    var l := q.local.value;
    assert SizesFor(q, local, global, groups).local == l;
    assert l[2] * (l[1] * l[0]) == l[0] * l[1] * l[2];
  }

  /** And one that fits the threads of a subslice: the context's limit is the device's. */
  lemma AcceptedGroupFitsSubSlice(context: Context, kernel: KernelArgs.Kernel, q: Request, s: Settings)
    requires Requested(context, kernel, q, s) && Passes(context, kernel, q) && q.workDim == 3
    requires |q.global.value| == 3 && |q.local.value| == 3 && WorkSize.Product(q.local.value, 3) < TWO_64
    requires WorkGroup.IsSimd(SimdSize(kernel.decoded))
    ensures 1 <= LaunchFor(context, kernel, q, s).indirect.Threads() <= WorkSize.SubSliceThreads(context.sizes.hw)
  {
    hide Sound, WorkSize.Product, WorkSize.Acceptable, WorkSize.SubSliceThreads, WorkGroup.HwThreads, WorkSize.IsLimit,
         PayloadOf, SurfacesOf;
    var w, max := context.sizes, context.sizes.maxWorkItemsPerWorkGroup;
    LimitFits(w);
    ValidatedGroupFits(q, w.workItemsPerWorkGroup, w.globalWorkItems, w.numWorkGroups, Required(kernel.decoded), max);
    WorkSize.AcceptedSizes(q.global.value, q.local.value, Required(kernel.decoded), max);
    WorkSize.GroupFitsSubSlice(w.hw, max, GroupSize(NewSizes(context, kernel, q)), SimdSize(kernel.decoded));
  }

  lemma LimitFits(w: WorkSize.WorkSizes)
    requires w.Valid()
    ensures w.hw.Valid() && WorkSize.IsLimit(w.maxWorkItemsPerWorkGroup, WorkSize.SubSliceThreads(w.hw))
    ensures w.maxWorkItemsPerWorkGroup <= 1024
  {
  }

  ghost predicate Passes(context: Context, kernel: KernelArgs.Kernel, q: Request)
    requires q.Valid() && HasMetadata(kernel.decoded)
    reads context, context.sizes, kernel
  {
    q.Passes(Required(kernel.decoded), context.sizes.maxWorkItemsPerWorkGroup)
  }

  /** The sizes that an accepted request leaves in the context. */
  ghost function NewSizes(context: Context, kernel: KernelArgs.Kernel, q: Request): (s: KernelConstants.Sizes)
    requires q.Valid() && context.sizes.Valid() && HasMetadata(kernel.decoded) && Passes(context, kernel, q)
    reads context, context.sizes, kernel
    ensures s.Valid() && forall i | 0 <= i < 3 :: s.local[i] >= 1
  {
    var sizes := context.sizes;
    SizesFor(q, sizes.workItemsPerWorkGroup, sizes.globalWorkItems, sizes.numWorkGroups)
  }

  /** The kernel is one the driver can launch, with a group of at most 1024 if validation lets the sizes pass. */
  ghost predicate Requested(context: Context, kernel: KernelArgs.Kernel, q: Request, s: Settings)
    reads context, context.sizes, kernel, kernel.crossThreadData, kernel.sshLocal
  {
    && q.Valid() && context.sizes.Valid() && HasMetadata(kernel.decoded)
    && Sound(kernel.decoded, kernel.crossThreadData[..], kernel.sshLocal[..], s)
    && (Passes(context, kernel, q) ==> GroupSize(NewSizes(context, kernel, q)) <= 1024)
  }

  /** The launch that an accepted request makes. */
  ghost function LaunchFor(context: Context, kernel: KernelArgs.Kernel, q: Request, s: Settings): Launch
    requires Requested(context, kernel, q, s) && Passes(context, kernel, q)
    reads context, context.sizes, kernel, kernel.crossThreadData, kernel.sshLocal
  {
    LaunchOf(kernel.decoded, kernel.crossThreadData[..], kernel.sshLocal[..], kernel.sharedLocalMemorySize,
             NewSizes(context, kernel, q), s)
  }

  /** A context and a kernel that a request can be made of: nothing is under way, and if validation accepts the sizes
      then the launch they make is one the driver is built for. */
  ghost predicate Ready(context: Context, kernel: KernelArgs.Kernel, q: Request, s: Settings)
    reads context, context.sizes, context.dispatcher, context.dispatcher.sshAllocation, context.dispatcher.iohAllocation,
          context.dispatcher.dshAllocation, context.dispatcher.commandStreamTask, context.dispatcher.commandStreamCSR
    reads if context.dispatcher.commandStreamTask == null then {} else {context.dispatcher.commandStreamTask.cpuAddress}
    reads if context.dispatcher.commandStreamCSR == null then {} else {context.dispatcher.commandStreamCSR.cpuAddress}
    reads kernel, kernel.crossThreadData, kernel.sshLocal
  {
    && context.dispatcher.Buffers() && context.Matches() && context.Idle() && kernel.Valid()
    && Requested(context, kernel, q, s)
    && (Passes(context, kernel, q) ==> context.CanLaunch(LaunchFor(context, kernel, q, s), kernel))
  }

  /** Validation, and the sizes it leaves. */
  method Validate(context: Context, kernel: KernelArgs.Kernel, q: Request)
    returns (r: WorkSize.Code, sizes: KernelConstants.Sizes)
    requires q.Valid() && context.sizes.Valid() && HasMetadata(kernel.decoded)
    modifies context.sizes
    ensures context.sizes.Valid() && (r == WorkSize.Success <==> old(Passes(context, kernel, q)))
    ensures r == WorkSize.Success ==> sizes == old(NewSizes(context, kernel, q))
  {
    var w := context.sizes;
    ghost var local, global, groups := w.workItemsPerWorkGroup, w.globalWorkItems, w.numWorkGroups;
    r := w.ValidateWorkGroups(q.supported, q.workDim, q.global, q.local, Required(kernel.decoded));
    sizes := KernelConstants.Sizes(w.workItemsPerWorkGroup, w.globalWorkItems, w.numWorkGroups, 0);
    if r == WorkSize.Success {
      var next := SizesFor(q, local, global, groups);
      assert sizes.local == next.local && sizes.global == next.global && sizes.groups == next.groups;
    }
  }

  /** `ExecuteKernel`: a request is refused with nothing but the size fields changed, or makes the launch its sizes and
      the kernel's tokens and arguments describe; that succeeds exactly when every allocation, the submission and the
      wait did and the GPU got to the launch's tag write. */
  method ExecuteKernel(context: Context, kernel: KernelArgs.Kernel, q: Request, s: Settings, g: Grants, accepted: bool,
                       stops: seq<nat>, waited: bool)
    returns (ret: Code)
    requires Ready(context, kernel, q, s) && context.Kept() && |stops| <= |context.pending| + 1
    modifies context`tag, context`pending, context`events, context`run, context`launches, context`latest, context.sizes,
             kernel`decoded, kernel.crossThreadData, context.dispatcher.Footprint()
    ensures context.dispatcher.Buffers() && context.Matches() && context.Idle() && kernel.Valid() && context.sizes.Valid()
    ensures context.Kept()
    ensures ret.Ran? <==> old(Passes(context, kernel, q))
    ensures ret.Refused? ==>
              && ret.reason != WorkSize.Success && context.events == old(context.events) && context.run == old(context.run)
              && kernel.decoded == old(kernel.decoded) && kernel.crossThreadData[..] == old(kernel.crossThreadData[..])
    ensures ret.Ran? ==>
              && KernelArgs.FlagsOf(kernel.decoded.argDescriptor) ==
                 (var flags := old(KernelArgs.FlagsOf(kernel.decoded.argDescriptor));
                  if old(context.dispatcher.Outcome(g)) == Runs.Complete
                  then KernelArgs.After(flags, KernelArgs.Call.ResetArguments) else flags)
              && (ret.code == Success <==>
                    && old(context.dispatcher.Outcome(g)) == Runs.Complete && accepted && waited
                    && |stops| == |old(context.pending)| + 1 && stops[|stops| - 1] >= 19)
    ensures ret == Ran(Success) ==>
              var k := old(LaunchFor(context, kernel, q, s));
              && kernel.crossThreadData[..] == k.indirect.crossThreadData
              && context.HasRun(k, old(context.dispatcher.SurfaceEnd()), old(context.dispatcher.IndirectEnd()),
                                old(context.dispatcher.DynamicEnd()))
  {
    hide Request.Valid, Request.Passes, SizesFor, GroupSize, LaunchOf, Sound, Context.HasRun,
         KernelArgs.FlagsOf, KernelArgs.After, CommandDispatcher.HeapsHold, CommandDispatcher.Room,
         CommandDispatcher.Buffers, CommandDispatcher.Foreign, Context.Matches, Launch.Valid, Launch.PatchesFrom,
         HasMetadata, Required, Context.CanLaunch, NewSizes, WorkSize.WorkSizes.Valid, KernelArgs.Kernel.Valid,
         Context.Idle, Context.Kept, CommandDispatcher.Outcome, CommandDispatcher.SurfaceEnd, CommandDispatcher.IndirectEnd,
         CommandDispatcher.DynamicEnd, CommandDispatcher.Footprint;
    var r, sizes := Validate(context, kernel, q);
    if r != WorkSize.Success {
      return Refused(r);
    }
    var k := LaunchOf(kernel.decoded, kernel.crossThreadData[..], kernel.sshLocal[..], kernel.sharedLocalMemorySize,
                      sizes, s);
    var code := context.LaunchKernel(k, g, kernel, accepted, stops, waited);
    return Ran(code);
  }

  /** The records that a launch needs: table, thread payload, execution environment and data parameter stream. */
  ghost predicate Complete(rs: seq<TokenLayouts.Record>)
  {
    && TokenLayouts.AllValid(rs)
    && TokenLayouts.LastNumbered(rs, 8).Some? && TokenLayouts.LastNumbered(rs, 22).Some?
    && TokenLayouts.LastNumbered(rs, 23).Some? && TokenLayouts.LastNumbered(rs, 25).Some?
  }

  /** The metadata is there exactly if these records are, and the required group size is that of the environment. */
  lemma MetadataIff(rs: seq<TokenLayouts.Record>)
    requires TokenLayouts.AllValid(rs)
    ensures HasMetadata(TokenLayouts.Read(rs)) <==> Complete(rs)
    ensures Complete(rs) ==>
              && TokenLayouts.LastNumbered(rs, 23).value.ExecutionEnvironment?
              && var e := TokenLayouts.LastNumbered(rs, 23).value;
                 Required(TokenLayouts.Read(rs)) == [e.requiredX, e.requiredY, e.requiredZ]
  {
    hide TokenLayouts.Read, TokenLayouts.LastNumbered;
    TokenLayouts.LastIsKept(rs, 8);
    TokenLayouts.LastIsKept(rs, 22);
    TokenLayouts.LastIsKept(rs, 23);
    TokenLayouts.LastIsKept(rs, 25);
    if Complete(rs) { TokenLayouts.EnvironmentIsKept(rs); }
  }

  /** The launch of a kernel is what its metadata, the sizes and the settings say, each by its name. */
  lemma LaunchIsRead(rs: seq<TokenLayouts.Record>, data: seq<byte>, ssh: seq<byte>, slm: uint32,
                     sizes: KernelConstants.Sizes, s: Settings)
    requires Complete(rs) && Sound(TokenLayouts.Read(rs), data, ssh, s) && sizes.Valid()
    requires (forall i | 0 <= i < 3 :: sizes.local[i] >= 1) && GroupSize(sizes) <= 1024
    ensures var k := LaunchOf(TokenLayouts.Read(rs), data, ssh, slm, sizes, s);
            && k.sizes == sizes && k.indirect.X == sizes.local[0] && k.indirect.Y == sizes.local[1]
            && k.indirect.Z == sizes.local[2] && k.groupsX == sizes.groups[0] && k.groupsY == sizes.groups[1]
            && k.groupsZ == sizes.groups[2] && k.kernelAddress == s.kernelAddress && k.sharedLocalMemory == slm
            && k.maxVfeThreads == s.maxVfeThreads && k.scratchPerThread == s.scratchPerThread && k.scratch == s.scratch
            && k.constantSurface == s.constantSurface && k.midThread == s.midThread && k.surfaces.blob == ssh
    ensures var k := LaunchOf(TokenLayouts.Read(rs), data, ssh, slm, sizes, s);
            var table, ids := TokenLayouts.LastNumbered(rs, 8).value, TokenLayouts.LastNumbered(rs, 22).value;
            var e, stream := TokenLayouts.LastNumbered(rs, 23).value, TokenLayouts.LastNumbered(rs, 25).value;
            && table.BindingTable? && k.surfaces.table == table.tableOffset && k.surfaces.count == table.count
            && ids.ThreadPayload? && (k.indirect.present.x <==> ids.localIdXPresent != 0)
            && (k.indirect.present.y <==> ids.localIdYPresent != 0) && (k.indirect.present.z <==> ids.localIdZPresent != 0)
            && e.ExecutionEnvironment? && k.indirect.simdSize == e.largestCompiledSimdSize && k.hasBarriers == e.hasBarriers
            && stream.DataParameterStream? && |k.indirect.crossThreadData| == stream.dataParameterStreamSize
    ensures var p := LaunchOf(TokenLayouts.Read(rs), data, ssh, slm, sizes, s).payload;
            && p.workDimensions == TokenLayouts.DimensionsPlace(rs)
            && forall i | 0 <= i < 3 ::
                 && p.localWorkSize[i] == TokenLayouts.FirstPlace(rs, 2, i)
                 && p.localWorkSize2[i] == TokenLayouts.LaterPlace(rs, 2, i)
                 && p.enqueuedLocalWorkSize[i] == TokenLayouts.LastPlace(rs, 28, i)
                 && p.globalWorkSize[i] == TokenLayouts.LastPlace(rs, 3, i)
                 && p.numWorkGroups[i] == TokenLayouts.LastPlace(rs, 4, i)
  {
    hide TokenLayouts.Read, TokenLayouts.LastNumbered, TokenLayouts.AllValid, PlacesFit, KernelConstants.PutAll,
         KernelConstants.LaunchWrites, SurfaceHeap.Surfaces.Valid, HeapAllocator.HeapAddress, GroupSize, PatchTokens.Token.Field,
         Launch.Valid, Launch.PatchesFrom;
    TokenLayouts.TableIsKept(rs);
    TokenLayouts.PayloadIsKept(rs);
    TokenLayouts.EnvironmentIsKept(rs);
    TokenLayouts.StreamIsKept(rs);
    PlacesAreRead(rs);
  }

  lemma PlacesAreRead(rs: seq<TokenLayouts.Record>)
    requires TokenLayouts.AllValid(rs) && HasMetadata(TokenLayouts.Read(rs))
    ensures var p := PayloadOf(TokenLayouts.Read(rs));
            && p.workDimensions == TokenLayouts.DimensionsPlace(rs)
            && forall i | 0 <= i < 3 ::
                 && p.localWorkSize[i] == TokenLayouts.FirstPlace(rs, 2, i)
                 && p.localWorkSize2[i] == TokenLayouts.LaterPlace(rs, 2, i)
                 && p.enqueuedLocalWorkSize[i] == TokenLayouts.LastPlace(rs, 28, i)
                 && p.globalWorkSize[i] == TokenLayouts.LastPlace(rs, 3, i)
                 && p.numWorkGroups[i] == TokenLayouts.LastPlace(rs, 4, i)
  {
    hide TokenLayouts.Read, TokenLayouts.AllValid, PatchTokens.Token.Field, HasMetadata, TokenLayouts.FirstPlace,
         TokenLayouts.LaterPlace, TokenLayouts.LastPlace;
    TokenLayouts.DimensionsAreRead(rs);
    forall i | 0 <= i < 3
      ensures PatchTokens.PlaceOf(TokenLayouts.Read(rs).localWorkSize[i]) == TokenLayouts.FirstPlace(rs, 2, i)
      ensures PatchTokens.PlaceOf(TokenLayouts.Read(rs).localWorkSize2[i]) == TokenLayouts.LaterPlace(rs, 2, i)
      ensures TokenLayouts.Read(rs).PlaceIn(28, i) == TokenLayouts.LastPlace(rs, 28, i)
      ensures TokenLayouts.Read(rs).PlaceIn(3, i) == TokenLayouts.LastPlace(rs, 3, i)
      ensures TokenLayouts.Read(rs).PlaceIn(4, i) == TokenLayouts.LastPlace(rs, 4, i)
    {
      TokenLayouts.LocalSizesAreRead(rs, i);
      TokenLayouts.WorkSizesAreRead(rs, 28, i);
      TokenLayouts.WorkSizesAreRead(rs, 3, i);
      TokenLayouts.WorkSizesAreRead(rs, 4, i);
    }
  }

  // ---------- what the kernel finds ----------

  /** The launch k was made after these calls, and its data is in the heap from `start` on. */
  ghost predicate MadeAfter(b: BufferObjects.BufferObject, start: nat, k: Launch,
                            args: seq<Option<PatchTokens.ArgDescriptor>>, settings: seq<KernelArgs.Setting>,
                            data: seq<byte>, ssh: seq<byte>)
    reads b.cpuAddress
  {
    && (forall j | 0 <= j < |settings| :: KernelArgs.Fit(args, settings[j], |data|, |ssh|))
    && k.Valid() && k.PatchesFrom(KernelArgs.SetAll(args, settings, data, ssh).0) && IndirectAt(b, start, k.indirect)
  }

  /** Neither a call after the i-th nor a work size takes one of these n places. */
  ghost predicate Remain(k: Launch, args: seq<Option<PatchTokens.ArgDescriptor>>, settings: seq<KernelArgs.Setting>, i: nat,
                         at: nat, n: nat)
    requires k.Valid()
  {
    && (forall j, p: nat | i < j < |settings| && at <= p < at + n :: !KernelArgs.MayWrite(args, settings[j], p))
    && forall j, p: nat | 0 <= j < |k.Writes()| && at <= p < at + n :: !KernelConstants.Touches(k.Writes()[j], p)
  }

  /** A byte that one of the calls since the metadata was decoded has for a place stands in the heap at that place,
      behind the launch's start, unless a later call or a work size takes it. */
  lemma ArgumentReachesHeap(b: BufferObjects.BufferObject, start: nat, k: Launch,
                            args: seq<Option<PatchTokens.ArgDescriptor>>, settings: seq<KernelArgs.Setting>,
                            data: seq<byte>, ssh: seq<byte>, i: nat, at: nat, value: byte)
    requires MadeAfter(b, start, k, args, settings, data, ssh) && i < |settings| && at < |data|
    requires KernelArgs.Delivers(args, settings[i], at, value) && Remain(k, args, settings, i, at, 1)
    ensures start + at < b.cpuAddress.Length && b.cpuAddress[start + at] == value
  {
    hide KernelArgs.Delivers, KernelArgs.MayWrite, KernelArgs.Fit, KernelArgs.SetAll, KernelConstants.Touches,
         KernelConstants.PutAll, KernelConstants.LaunchWrites, IndirectHeap.HoldsIds;
    KernelArgs.ArgumentStays(args, settings, data, ssh, i, at, value);
    var after := KernelArgs.SetAll(args, settings, data, ssh).0;
    KernelConstants.OtherBytesStay(after, k.Writes(), at);
    assert b.cpuAddress[start..start + |data|][at] == b.cpuAddress[start + at];
  }

  /** What a record of a value argument asks for is one of the bytes that setting the argument delivers. */
  lemma ValueIsDelivered(rs: seq<TokenLayouts.Record>, s: KernelArgs.Setting, n: nat, j: nat, dataLength: nat,
                         sshLength: nat)
    requires TokenLayouts.AllValid(rs) && TokenLayouts.Unmixed(rs) && n < |rs| && rs[n].IsValue()
    requires s.argIndex == rs[n].argumentNumber && KernelArgs.Fit(TokenLayouts.Read(rs).argDescriptor, s, dataLength, sshLength)
    requires Disjoint(TokenLayouts.Read(rs).argDescriptor[s.argIndex].value, s.argSize)
    requires rs[n].offset < 0x1_0000 && rs[n].dataSize < 0x1_0000 && rs[n].sourceOffset < 0x1_0000
    requires rs[n].sourceOffset <= j < rs[n].sourceOffset + rs[n].dataSize && j < s.argSize
    ensures s.value.Bytes? && |s.value.bytes| == s.argSize && rs[n].offset + j - rs[n].sourceOffset < dataLength
    ensures KernelArgs.Delivers(TokenLayouts.Read(rs).argDescriptor, s, rs[n].offset + j - rs[n].sourceOffset,
                                s.value.bytes[j])
  {
    hide TokenLayouts.Read, TokenLayouts.Unmixed, TokenLayouts.AllValid, TokenLayouts.SlotIn, KernelArgs.DisjointElements,
         KernelArgs.LocalsFit;
    var args := TokenLayouts.Read(rs).argDescriptor;
    TokenLayouts.SlotsAreRead(rs);
    TokenLayouts.PieceIsThere(rs, n, s.argIndex);
    assert PatchTokens.Entry(args, s.argIndex) == TokenLayouts.SlotIn(rs, s.argIndex);
    var elements := args[s.argIndex].value.elements;
    var e :| 0 <= e < |elements| && elements[e] == TokenLayouts.PieceOf(rs[n]);
    var at := rs[n].offset + j - rs[n].sourceOffset;
    assert KernelArgs.ElementByte(elements[e], s.value.bytes, at, s.value.bytes[j]);
    assert KernelArgs.ElementFits(elements[e], s.argSize, dataLength);
  }

  /** No two pieces of a value go to the same place. */
  ghost predicate Disjoint(desc: PatchTokens.ArgDescriptor, argSize: nat)
  {
    desc.ArgValue? ==> KernelArgs.DisjointElements(desc.elements, argSize)
  }

  /** From the metadata to the heap: byte j of a value argument, if a record of the argument asks for it, stands where that
      record wants it, behind the launch's start, unless a later call or a work size takes the place. */
  lemma ValueReachesKernel(b: BufferObjects.BufferObject, start: nat, k: Launch, rs: seq<TokenLayouts.Record>,
                           settings: seq<KernelArgs.Setting>, data: seq<byte>, ssh: seq<byte>, i: nat, n: nat, j: nat)
    requires TokenLayouts.AllValid(rs) && TokenLayouts.Unmixed(rs) && n < |rs| && rs[n].IsValue()
    requires MadeAfter(b, start, k, TokenLayouts.Read(rs).argDescriptor, settings, data, ssh)
    requires i < |settings| && settings[i].argIndex == rs[n].argumentNumber
    requires Disjoint(TokenLayouts.Read(rs).argDescriptor[settings[i].argIndex].value, settings[i].argSize)
    requires rs[n].offset < 0x1_0000 && rs[n].dataSize < 0x1_0000 && rs[n].sourceOffset < 0x1_0000
    requires rs[n].sourceOffset <= j < rs[n].sourceOffset + rs[n].dataSize && j < settings[i].argSize
    requires Remain(k, TokenLayouts.Read(rs).argDescriptor, settings, i, rs[n].offset + j - rs[n].sourceOffset, 1)
    ensures settings[i].value.Bytes? && |settings[i].value.bytes| == settings[i].argSize
    ensures var at := start + rs[n].offset + j - rs[n].sourceOffset;
            at < b.cpuAddress.Length && b.cpuAddress[at] == settings[i].value.bytes[j]
  {
    hide TokenLayouts.Read, TokenLayouts.Unmixed, TokenLayouts.AllValid, KernelArgs.Delivers, KernelArgs.SetAll,
         KernelArgs.Fit, Launch.Valid, Launch.PatchesFrom, IndirectAt, Remain, Disjoint;
    var at := rs[n].offset + j - rs[n].sourceOffset;
    ValueIsDelivered(rs, settings[i], n, j, |data|, |ssh|);
    ArgumentReachesHeap(b, start, k, TokenLayouts.Read(rs).argDescriptor, settings, data, ssh, i, at,
                        settings[i].value.bytes[j]);
  }

  /** The address that a pointer argument stands for. */
  function AddressIn(v: KernelArgs.ArgumentValue): nat
    requires v.BufferPointer?
  {
    if v.buffer.Some? then v.buffer.value.gpuAddress else 0
  }

  /** The last record of a pointer argument asks for the eight bytes of its buffer's address. */
  lemma PointerIsDelivered(rs: seq<TokenLayouts.Record>, s: KernelArgs.Setting, n: nat, j: nat, dataLength: nat,
                           sshLength: nat)
    requires TokenLayouts.AllValid(rs) && TokenLayouts.Unmixed(rs) && n < |rs|
    requires rs[n].StatelessGlobalObject? || rs[n].StatelessConstantObject?
    requires forall l | n < l < |rs| :: !rs[l].Names(rs[n].argumentNumber)
    requires s.argIndex == rs[n].argumentNumber && KernelArgs.Fit(TokenLayouts.Read(rs).argDescriptor, s, dataLength, sshLength)
    requires 0 < rs[n].dataParamOffset < 0x1_0000 && j < 8
    requires s.value.BufferPointer? && (s.value.buffer.Some? ==> s.value.buffer.value.authentic)
    ensures rs[n].dataParamOffset + 8 <= dataLength && AddressIn(s.value) < TWO_64
    ensures KernelArgs.Delivers(TokenLayouts.Read(rs).argDescriptor, s, rs[n].dataParamOffset + j,
                                ByteOf(AddressIn(s.value), j))
  {
    hide TokenLayouts.Read, TokenLayouts.Unmixed, TokenLayouts.AllValid, TokenLayouts.SlotIn, KernelArgs.LocalsFit,
         KernelArgs.ElementsFit, ByteOf;
    var args := TokenLayouts.Read(rs).argDescriptor;
    TokenLayouts.SlotsAreRead(rs);
    TokenLayouts.LastPointerCounts(rs, n, s.argIndex);
    assert PatchTokens.Entry(args, s.argIndex) == TokenLayouts.SlotIn(rs, s.argIndex);
  }

  lemma RemainEach(k: Launch, args: seq<Option<PatchTokens.ArgDescriptor>>, settings: seq<KernelArgs.Setting>, i: nat,
                   at: nat, n: nat, j: nat)
    requires k.Valid() && Remain(k, args, settings, i, at, n) && j < n
    ensures Remain(k, args, settings, i, at + j, 1)
  {
    hide KernelArgs.MayWrite, KernelConstants.Touches;
  }

  /** And the kernel finds the address of a pointer argument's buffer, zero without a buffer, where the record of the
      argument wants it. */
  lemma PointerReachesKernel(b: BufferObjects.BufferObject, start: nat, k: Launch, rs: seq<TokenLayouts.Record>,
                             settings: seq<KernelArgs.Setting>, data: seq<byte>, ssh: seq<byte>, i: nat, n: nat)
    requires TokenLayouts.AllValid(rs) && TokenLayouts.Unmixed(rs) && n < |rs|
    requires rs[n].StatelessGlobalObject? || rs[n].StatelessConstantObject?
    requires forall l | n < l < |rs| :: !rs[l].Names(rs[n].argumentNumber)
    requires MadeAfter(b, start, k, TokenLayouts.Read(rs).argDescriptor, settings, data, ssh)
    requires i < |settings| && settings[i].argIndex == rs[n].argumentNumber && 0 < rs[n].dataParamOffset < 0x1_0000
    requires settings[i].value.BufferPointer? && (settings[i].value.buffer.Some? ==> settings[i].value.buffer.value.authentic)
    requires Remain(k, TokenLayouts.Read(rs).argDescriptor, settings, i, rs[n].dataParamOffset, 8)
    ensures var at, m := start + rs[n].dataParamOffset, b.cpuAddress[..];
            at + 8 <= |m| && U32At(m, at) + TWO_32 * U32At(m, at + 4) == AddressIn(settings[i].value)
  {
    hide TokenLayouts.Read, TokenLayouts.Unmixed, TokenLayouts.AllValid, KernelArgs.Delivers, KernelArgs.SetAll,
         KernelArgs.Fit, Launch.Valid, Launch.PatchesFrom, IndirectAt, Remain, TokenLayouts.Record.Names, ByteOf, U32At;
    var args, at, m := TokenLayouts.Read(rs).argDescriptor, start + rs[n].dataParamOffset, b.cpuAddress[..];
    var address := AddressIn(settings[i].value);
    hide AddressIn;
    forall j: nat | j < 8
      ensures at + j < |m| && m[at + j] == ByteOf(address, j)
    {
      PointerIsDelivered(rs, settings[i], n, j, |data|, |ssh|);
      RemainEach(k, args, settings, i, rs[n].dataParamOffset, 8, j);
      ArgumentReachesHeap(b, start, k, args, settings, data, ssh, i, rs[n].dataParamOffset + j, ByteOf(address, j));
    }
    var last := ByteOf(address, 7);
    assert at + 7 < |m| && m[at + 7] == last;
    PointerIsDelivered(rs, settings[i], n, 0, |data|, |ssh|);
    KernelArgs.PointerReadsBack(m, at, address);
  }

  /** The last record of a pointer argument says where setting it writes its surface state. */
  lemma StateIsWritten(rs: seq<TokenLayouts.Record>, s: KernelArgs.Setting, n: nat, dataLength: nat, sshLength: nat)
    requires TokenLayouts.AllValid(rs) && TokenLayouts.Unmixed(rs) && n < |rs| && rs[n].IsPointer()
    requires forall l | n < l < |rs| :: !rs[l].Names(rs[n].argumentNumber)
    requires s.argIndex == rs[n].argumentNumber && KernelArgs.Fit(TokenLayouts.Read(rs).argDescriptor, s, dataLength, sshLength)
    requires s.value.BufferPointer? && (s.value.buffer.Some? ==> s.value.buffer.value.authentic)
    requires rs[n].surfaceStateHeapOffset < 0x1_0000
    ensures KernelArgs.SetsPointer(TokenLayouts.Read(rs).argDescriptor, s, rs[n].surfaceStateHeapOffset)
  {
    hide TokenLayouts.Read, TokenLayouts.Unmixed, TokenLayouts.AllValid, TokenLayouts.SlotIn, KernelArgs.LocalsFit,
         KernelArgs.ElementsFit;
    TokenLayouts.SlotsAreRead(rs);
    TokenLayouts.LastPointerCounts(rs, n, s.argIndex);
    assert PatchTokens.Entry(TokenLayouts.Read(rs).argDescriptor, s.argIndex) == TokenLayouts.SlotIn(rs, s.argIndex);
  }

  /** What a kernel finds when it follows an entry of its binding table in the heap: a raw buffer at the address that the
      argument stands for, which spans the argument's buffer exactly if that has 1 byte to 4 GiB. */
  predicate NamesBuffer(m: seq<byte>, table: nat, e: nat, v: KernelArgs.ArgumentValue)
    requires v.BufferPointer? && table + 4 * e + 4 <= |m|
  {
    var at := SurfaceHeap.Pointer(SurfaceHeap.Entry(m, table, e));
    && at + 64 <= |m|
    && var state := DwordsAt(m, at, 16);
       && KernelArgs.RawBuffer(state) && KernelArgs.SurfaceAddress(state) == AddressIn(v)
       && (v.buffer.Some? ==>
             var n := v.buffer.value.size;
             n <= KernelArgs.SurfaceLength(state) < n + 4 <==> 1 <= n <= TWO_32)
  }

  /** After the calls, the surface states hold what a call wrote for its pointer argument, unless a later call writes
      there. */
  ghost predicate HoldsStateOf(rs: seq<TokenLayouts.Record>, settings: seq<KernelArgs.Setting>, i: nat, n: nat,
                               blob: seq<byte>)
    requires i < |settings| && n < |rs| && rs[n].IsPointer()
  {
    && KernelArgs.PointerValue(settings[i]) && rs[n].surfaceStateHeapOffset + 64 <= |blob|
    && blob[rs[n].surfaceStateHeapOffset..rs[n].surfaceStateHeapOffset + 64]
       == DwordBytes(KernelArgs.StateOf(settings[i]))
  }

  lemma StateIsHeld(rs: seq<TokenLayouts.Record>, settings: seq<KernelArgs.Setting>, data: seq<byte>, ssh: seq<byte>, i: nat,
                    n: nat)
    requires TokenLayouts.AllValid(rs) && TokenLayouts.Unmixed(rs) && n < |rs| && rs[n].IsPointer()
    requires forall l | n < l < |rs| :: !rs[l].Names(rs[n].argumentNumber)
    requires forall j | 0 <= j < |settings| ::
               KernelArgs.Fit(TokenLayouts.Read(rs).argDescriptor, settings[j], |data|, |ssh|)
    requires i < |settings| && settings[i].argIndex == rs[n].argumentNumber && rs[n].surfaceStateHeapOffset < 0x1_0000
    requires settings[i].value.BufferPointer? && (settings[i].value.buffer.Some? ==> settings[i].value.buffer.value.authentic)
    requires forall j | i < j < |settings| ::
               !KernelArgs.MayWriteState(TokenLayouts.Read(rs).argDescriptor, settings[j], rs[n].surfaceStateHeapOffset)
    ensures HoldsStateOf(rs, settings, i, n, KernelArgs.SetAll(TokenLayouts.Read(rs).argDescriptor, settings, data, ssh).1)
  {
    hide TokenLayouts.Read, TokenLayouts.Unmixed, TokenLayouts.AllValid, TokenLayouts.Record.Names, KernelArgs.SetAll,
         KernelArgs.Fit, KernelArgs.MayWriteState, KernelArgs.SetsPointer, KernelArgs.StateOf, KernelArgs.PointerValue,
         DwordBytes;
    var s, place := settings[i], rs[n].surfaceStateHeapOffset;
    StateIsWritten(rs, s, n, |data|, |ssh|);
    KernelArgs.SetsValue(TokenLayouts.Read(rs).argDescriptor, s, place);
    KernelArgs.StateStays(TokenLayouts.Read(rs).argDescriptor, settings, data, ssh, i, place);
  }

  /** From the metadata to the heap: the entry of the relocated binding table that stood for an argument's surface state
      leads to a surface of the argument's buffer. */
  lemma SurfaceReachesKernel(b: BufferObjects.BufferObject, start: nat, k: Launch, rs: seq<TokenLayouts.Record>,
                             settings: seq<KernelArgs.Setting>, i: nat, n: nat, e: nat)
    requires i < |settings| && n < |rs| && rs[n].IsPointer() && k.Valid()
    requires HoldsStateOf(rs, settings, i, n, k.surfaces.blob)
    requires SurfacesAt(b, start, k.surfaces) && start % 64 == 0 && b.cpuAddress.Length <= TWO_32
    requires e < k.surfaces.count && SurfaceHeap.StateInBlob(k.surfaces, e)
    requires SurfaceHeap.Pointer(SurfaceHeap.Entry(k.surfaces.blob, k.surfaces.table, e)) == rs[n].surfaceStateHeapOffset
    ensures start + k.surfaces.table + 4 * e + 4 <= b.cpuAddress.Length && settings[i].value.BufferPointer?
    ensures NamesBuffer(b.cpuAddress[..], start + k.surfaces.table, e, settings[i].value)
  {
    hide SurfacesAt, SurfaceHeap.StateInBlob, SurfaceHeap.Pointer, SurfaceHeap.Entry, NamesBuffer, LeadsTo, DwordBytes,
         KernelArgs.StateOf, Launch.PatchesFit, IndirectHeap.Indirect.Valid, HeapAllocator.HeapAddress;
    StateInHeap(b, start, k.surfaces, e, KernelArgs.StateOf(settings[i]));
    StateIsNamed(b.cpuAddress[..], start + k.surfaces.table, e, settings[i]);
  }

  /** Entry e of the table leads to this state. */
  predicate LeadsTo(m: seq<byte>, table: nat, e: nat, state: seq<uint32>)
    requires table + 4 * e + 4 <= |m|
  {
    var at := SurfaceHeap.Pointer(SurfaceHeap.Entry(m, table, e));
    at + 64 <= |m| && DwordsAt(m, at, 16) == state
  }

  lemma StateInHeap(b: BufferObjects.BufferObject, start: nat, k: SurfaceHeap.Surfaces, e: nat, state: seq<uint32>)
    requires k.Valid() && SurfacesAt(b, start, k) && start % 64 == 0 && b.cpuAddress.Length <= TWO_32
    requires e < k.count && SurfaceHeap.StateInBlob(k, e) && |state| == 16
    requires var p := SurfaceHeap.Pointer(SurfaceHeap.Entry(k.blob, k.table, e)); k.blob[p..p + 64] == DwordBytes(state)
    ensures start + k.table + 4 * e + 4 <= b.cpuAddress.Length
    ensures LeadsTo(b.cpuAddress[..], start + k.table, e, state)
  {
    hide SurfaceHeap.Relocated, SurfaceHeap.Pointer, SurfaceHeap.Entry, DwordBytes, DwordsAt;
    var m := b.cpuAddress[..];
    assert m[start..start + |k.blob|] == b.cpuAddress[start..start + |k.blob|];
    SurfaceHeap.EntryLeadsToState(m, start, k, e);
    DwordsReadBack(m, SurfaceHeap.Pointer(SurfaceHeap.Entry(m, start + k.table, e)), state);
  }

  lemma StateIsNamed(m: seq<byte>, table: nat, e: nat, s: KernelArgs.Setting)
    requires KernelArgs.PointerValue(s)
    requires table + 4 * e + 4 <= |m|
    requires LeadsTo(m, table, e, KernelArgs.StateOf(s))
    ensures NamesBuffer(m, table, e, s.value)
  {
    hide SurfaceHeap.Pointer, SurfaceHeap.Entry, DwordsAt, KernelArgs.RawBuffer, KernelArgs.SurfaceAddress,
         KernelArgs.SurfaceLength, KernelArgs.StateOf;
    KernelArgs.StateDescribes(s);
  }

  /** The launch of an accepted request is made of the kernel as it is, of the sizes asked for, and in dimensions that were
      not asked for of those an earlier launch left. */
  lemma LaunchForIsAsked(context: Context, kernel: KernelArgs.Kernel, q: Request, s: Settings, i: nat)
    requires Requested(context, kernel, q, s) && Passes(context, kernel, q) && i < 3
    ensures var k := LaunchFor(context, kernel, q, s);
            && k.sharedLocalMemory == kernel.sharedLocalMemorySize && k.surfaces.blob == kernel.sshLocal[..]
            && k.PatchesFrom(kernel.crossThreadData[..]) && k.kernelAddress == s.kernelAddress
            && k.sizes.workDim == 0 && k.payload == PayloadOf(kernel.decoded)
            && k.sizes.local[i] == (if i < q.workDim then q.local.value[i] else context.sizes.workItemsPerWorkGroup[i])
            && k.sizes.global[i] == (if i < q.workDim then q.global.value[i] else context.sizes.globalWorkItems[i])
            && k.sizes.groups[i] == (if i < q.workDim then q.global.value[i] / q.local.value[i]
                                     else context.sizes.numWorkGroups[i])
  {
    hide Sound, WorkSize.IsLimit, WorkSize.Acceptable, PayloadOf, KernelConstants.PutAll, KernelConstants.LaunchWrites,
         GroupSize, Required, Launch.Valid, Launch.PatchesFrom;
  }

  /** The sizes of a launch are what its kernel reads in every dimension, wherever it asks for them. */
  lemma SizesReachKernel(b: BufferObjects.BufferObject, start: nat, k: Launch, data: seq<byte>, i: nat)
    requires k.Valid() && k.PatchesFrom(data) && i < 3
    requires IndirectAt(b, start, k.indirect) && KernelConstants.Separate(k.Writes())
    ensures ReadsInHeap(b, start, k.payload.localWorkSize[i], |data|, k.sizes.local[i])
    ensures ReadsInHeap(b, start, k.payload.localWorkSize2[i], |data|, k.sizes.local[i])
    ensures ReadsInHeap(b, start, k.payload.enqueuedLocalWorkSize[i], |data|, k.sizes.local[i])
    ensures ReadsInHeap(b, start, k.payload.globalWorkSize[i], |data|, k.sizes.global[i])
    ensures ReadsInHeap(b, start, k.payload.numWorkGroups[i], |data|, k.sizes.groups[i])
    ensures ReadsInHeap(b, start, k.payload.workDimensions, |data|, k.sizes.workDim)
  {
    hide IndirectHeap.HoldsIds, KernelConstants.PutAll, KernelConstants.LaunchWrites, KernelConstants.Separate,
         KernelConstants.ReadsAs, HeapAllocator.HeapAddress;
    KernelConstants.KernelReadsItsSizes(data, k.payload, k.sizes, i);
  }

  /** The launch of a request carries, in the dimensions asked for, the request's sizes; a walk of it walks as many groups
      as they make, all of them and no other, exactly if they can be counted; the number of dimensions is given as zero. */
  lemma RequestedSizes(q: Request, local: seq<nat>, global: seq<nat>, groups: seq<nat>, d: PatchTokens.Decoded,
                       data: seq<byte>, ssh: seq<byte>, slm: uint32, s: Settings, c: Command, i: nat)
    requires q.Valid() && q.global.Some? && q.local.Some? && q.workDim <= 3 && |local| == |global| == |groups| == 3
    requires (forall j | 0 <= j < q.workDim :: q.local.value[j] > 0) && forall j | 0 <= j < 3 :: local[j] > 0
    requires Sound(d, data, ssh, s) && GroupSize(SizesFor(q, local, global, groups)) <= 1024 && i < q.workDim
    requires Wiring.WalkIsMeant(c, LaunchOf(d, data, ssh, slm, SizesFor(q, local, global, groups), s))
    ensures var sizes := SizesFor(q, local, global, groups);
            var k := LaunchOf(d, data, ssh, slm, sizes, s);
            && k.sizes == sizes && k.sizes.workDim == 0 && (Wiring.WalksEveryGroup(c, k) <==> Wiring.Countable(k))
            && k.sizes.local[i] == q.local.value[i] && k.sizes.global[i] == q.global.value[i]
            && [k.groupsX, k.groupsY, k.groupsZ][i] == k.sizes.groups[i] == q.global.value[i] / q.local.value[i]
  {
    hide Sound, AlignUp, IndirectHeap.PerThreadDataSize, KernelConstants.PutAll, KernelConstants.LaunchWrites,
         GpuState.ThreadsOfGroup, GpuState.LanesOfThread, Wiring.WalksEveryGroup, Wiring.Countable, Wiring.DataSize,
         WorkGroup.RightExecutionMask, WorkGroup.HwThreads;
  }

  /** An accepted request of three dimensions makes a launch with exactly its range: whole groups make it up. */
  lemma RequestedRange(q: Request, local: seq<nat>, global: seq<nat>, groups: seq<nat>, required: seq<nat>, max: nat,
                       d: PatchTokens.Decoded, data: seq<byte>, ssh: seq<byte>, slm: uint32, s: Settings)
    requires q.Valid() && q.workDim == 3 && |local| == |global| == |groups| == |required| == 3 && max <= 1024
    requires q.global.Some? && |q.global.value| == 3 && q.local.Some? && |q.local.value| == 3 && q.Passes(required, max)
    requires Sound(d, data, ssh, s) && GroupSize(SizesFor(q, local, global, groups)) <= 1024
    ensures forall i | 0 <= i < 3 :: SizesFor(q, local, global, groups).local[i] >= 1
    ensures var k := LaunchOf(d, data, ssh, slm, SizesFor(q, local, global, groups), s);
            NdRange.RangeOf(k) == LocalIds.Id(q.global.value[0], q.global.value[1], q.global.value[2])
  {
    hide Sound, WorkSize.Acceptable, WorkSize.Product, KernelConstants.PutAll, KernelConstants.LaunchWrites, PayloadOf,
         SurfacesOf, Launch.Valid, Launch.PatchesFrom, GroupSize;
    ValidatedGroupFits(q, local, global, groups, required, max);
    WorkSize.AcceptedSizes(q.global.value, q.local.value, required, max);
    assert WorkSize.Divides(q.local.value[0], q.global.value[0]) && WorkSize.Divides(q.local.value[1], q.global.value[1])
           && WorkSize.Divides(q.local.value[2], q.global.value[2]);
  }

  /** The kernel's 32-bit read of a place finds the value modulo 2^32, if the kernel has such a place. */
  ghost predicate ReadsInHeap(b: BufferObjects.BufferObject, start: nat, place: Option<nat>, length: nat, value: nat)
    reads b.cpuAddress
  {
    start + length <= b.cpuAddress.Length && KernelConstants.ReadsAs(b.cpuAddress[start..start + length], place, value)
  }

  /** So a launch that succeeded has run every work-item of a group once whenever the hardware can, and every work-item of
      its whole range if the groups can be counted: the commands that were executed make one walk, whatever state the GPU
      was in, and the descriptor it names and the IDs its threads load are in the heaps. */
  lemma SuccessRunsEachItemOnce(context: Context, k: Launch, surfaceStart: nat, indirectStart: nat, descriptorStart: nat,
                                g: GpuState.Gpu)
    requires context.dispatcher.Buffers() && k.Valid() && ThreadPayload.Exact(k.indirect)
    requires context.HasRun(k, surfaceStart, indirectStart, descriptorStart)
    ensures context.run.history != [] && context.dispatcher.places.Valid()
    ensures var p, now := context.dispatcher.places, context.dispatcher.HeapBytes();
            var walks := GpuState.Walks(g, GpuState.CommandsOf(context.run.history[|context.run.history| - 1]));
            && |walks| == 1 && Wiring.IsWalkOf(walks[0], p, k, indirectStart, descriptorStart)
            && descriptorStart + 32 <= |now.dynamicState|
            && var d := Placement.DescriptorIn(now.dynamicState, walks[0], p.dynamicState);
               Wiring.IsDescriptorOf(d, k) && Placement.RunsAll(now.indirect, Canonize(p.indirect), walks[0], d, k)
  {
    hide Placement.RunsAll, Placement.SurfacesIn, Placement.DataIn, Placement.DescriptorIn, ThreadPayload.Exact, Launch.Valid,
         Wiring.WalkIsMeant, Wiring.IsSetUpFor, Wiring.IsDescriptorOf, GpuState.Walks, GpuState.CommandsOf,
         GpuState.DataOf, GpuState.DescriptorOf, CommandDispatcher.Buffers, CommandDispatcher.HeapsHold,
         CommandDispatcher.HeapBytes, SurfaceHeap.NextOffset, SurfaceHeap.BindingTablePlace, Places.Valid;
    var p, trace := context.dispatcher.places, context.run.history[|context.run.history| - 1];
    var placed := context.launches[|context.launches| - 1];
    assert OneWalk(placed, p, context.dispatcher.HeapBytes(), trace, g);
  }
}
