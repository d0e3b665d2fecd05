/** The state in which the GPU makes a launch's walk, after all commands the launch executes before it. */
module LaunchState {
  import opened Words
  import opened DriverUtils
  import opened Bits
  import opened Commands
  import opened LaunchStream
  import opened GpuState

  /** What a receiver stream is told can be programmed: page addresses, and sizes that fit their fields. */
  predicate Programmable(r: Receiver)
  {
    && PageAddress(r.preemptionAddress) && PageAddress(r.bases.general) && PageAddress(r.bases.surface)
    && PageAddress(r.bases.dynamicState) && PageAddress(r.bases.indirect) && PageAddress(r.bases.instruction)
    && r.bases.dynamicPages < 0x10_0000 && r.bases.bindlessStates < 0x10_0000 && r.sip % 0x10 == 0 && r.sip < TWO_64
  }

  const L3_CONTROL: nat := 0x7034
  const THREAD_ARBITRATION: nat := 0xe404
  const PREEMPTION_CONTROL: nat := 0x2580

  /** What the receiver's commands set up. */
  function SetUp(g: Gpu, r: Receiver): Gpu
  {
    var l3 := if r.usesSharedLocalMemory then 0x6000_0321 else 0x8000_0340;
    g.(pipeline := 2, samplerGated := true,
       registers := g.registers[L3_CONTROL := l3][THREAD_ARBITRATION := 0x100][PREEMPTION_CONTROL := 0x6_0000],
       preemption := r.preemptionAddress,
       frontEnd := FrontEnd((r.maxVfeThreads + TWO_32 - 1) % TWO_32 % 0x1_0000 + 1, 1, 0x782, r.scratchPerThread % 0x10,
                            r.scratchPerThread % 0x10, if r.hasScratch then 0x1000 else 0),
       bases := Bases6(Base(r.bases.general, 0), Base(r.bases.surface, 0), Base(r.bases.dynamicState, 0),
                       Base(r.bases.indirect, 0), Base(r.bases.instruction, 2), Base(r.bases.surface, 0), 0xf_ffff,
                       r.bases.dynamicPages, 0xf_ffff, 0xf_ffff, r.bases.bindlessStates, 2),
       systemRoutine := r.sip)
  }

  lemma AfterOne(g: Gpu, cs: seq<Command>, i: nat)
    requires i < |cs|
    ensures After(g, cs[..i + 1]) == Execute(After(g, cs[..i]), cs[i])
    ensures Walks(g, cs[..i + 1]) ==
            Walks(g, cs[..i]) + (if OperationOf(cs[i]) == StartWalk then [Walked(After(g, cs[..i]), cs[i])] else [])
  {
    hide Execute, OperationOf;
    assert cs[..i + 1][..i] == cs[..i];
  }

  lemma Nothing(g: Gpu)
    ensures After(g, []) == g && Walks(g, []) == []
  {
  }

  /** The first six commands of the receiver, and the others. */
  lemma FirstSetUp(g: Gpu, r: Receiver, taskAddress: nat)
    requires Programmable(r)
    ensures var cs, s := ReceiverCommands(r, taskAddress), SetUp(g, r);
            && |cs| == 13 && Walks(g, cs[..6]) == []
            && After(g, cs[..6]) ==
               g.(pipeline := s.pipeline, samplerGated := s.samplerGated, preemption := s.preemption,
                  registers := g.registers[L3_CONTROL := s.registers[L3_CONTROL]][THREAD_ARBITRATION := 0x100])
  {
    hide Execute, OperationOf, After, Walks, PipelineSelect, LoadRegisterImm, PipeControl, GpgpuCsrBaseAddress, MediaVfeState,
         StateBaseAddress, StateSip, BatchBufferStart, PageAddress;
    var cs := ReceiverCommands(r, taskAddress);
    assert cs[..0] == [];
    Nothing(g);
    AfterOne(g, cs, 0);
    Selects(g);
    AfterOne(g, cs, 1);
    Loads(After(g, cs[..1]), L3_CONTROL, SetUp(g, r).registers[L3_CONTROL]);
    AfterOne(g, cs, 2);
    SetsNothing(After(g, cs[..2]), CS_STALL, 0, 0);
    AfterOne(g, cs, 3);
    Loads(After(g, cs[..3]), THREAD_ARBITRATION, 0x100);
    AfterOne(g, cs, 4);
    Preempts(After(g, cs[..4]), r.preemptionAddress);
    AfterOne(g, cs, 5);
    SetsNothing(After(g, cs[..5]), CS_STALL + RENDER_TARGET_FLUSH + DEPTH_FLUSH + DC_FLUSH, 0, 0);
  }

  lemma ReceiverSetsUp(g: Gpu, r: Receiver, taskAddress: nat)
    requires Programmable(r)
    ensures var cs := ReceiverCommands(r, taskAddress);
            |cs| == 13 && After(g, cs) == SetUp(g, r) && Walks(g, cs) == []
  {
    hide Execute, OperationOf, After, Walks, PipelineSelect, LoadRegisterImm, PipeControl, GpgpuCsrBaseAddress, MediaVfeState,
         StateBaseAddress, StateSip, BatchBufferStart, PageAddress;
    var cs := ReceiverCommands(r, taskAddress);
    FirstSetUp(g, r, taskAddress);
    AfterOne(g, cs, 6);
    SetsFrontEnd(After(g, cs[..6]), r.maxVfeThreads, r.scratchPerThread, r.hasScratch);
    AfterOne(g, cs, 7);
    Loads(After(g, cs[..7]), PREEMPTION_CONTROL, 0x6_0000);
    AfterOne(g, cs, 8);
    SetsNothing(After(g, cs[..8]), CS_STALL + TEXTURE_INVALIDATE + DC_FLUSH, 0, 0);
    AfterOne(g, cs, 9);
    SetsBases(After(g, cs[..9]), r.bases);
    AfterOne(g, cs, 10);
    SetsSystemRoutine(After(g, cs[..10]), r.sip);
    AfterOne(g, cs, 11);
    SetsNothing(After(g, cs[..11]), CS_STALL, 0, 0);
    AfterOne(g, cs, 12);
    SetsNothing(After(g, cs[..12]), 0, taskAddress, 0);
    assert cs[..13] == cs;
  }

  /** The state that the walk of a launch finds. */
  function AtWalk(g: Gpu, r: Receiver, t: Task): Gpu
  {
    SetUp(g, r).(descriptors := t.descriptorStart, descriptorBytes := 32)
  }

  /** The task's commands walk once, from the third on. */
  lemma TaskWalks(g: Gpu, t: Task, n: nat)
    requires n <= 7
    ensures |TaskCommands(t)| == 7
    ensures Walks(g, TaskCommands(t)[..n]) ==
            if n <= 2 then [] else [Walked(g.(descriptors := t.descriptorStart, descriptorBytes := 32), GpgpuWalker(t.walk))]
  {
    hide Execute, OperationOf, After, Walks, MediaStateFlush, MediaInterfaceDescriptorLoad, GpgpuWalker, PipeControl,
         PipeControlWrite, BatchBufferEnd;
    var cs := TaskCommands(t);
    assert cs[..0] == [];
    Nothing(g);
    AfterOne(g, cs, 0);
    SetsNothing(g, CS_STALL, 0, 0);
    AfterOne(g, cs, 1);
    LoadsDescriptors(After(g, cs[..1]), 32, t.descriptorStart);
    AfterOne(g, cs, 2);
    StartsWalk(After(g, cs[..2]), t.walk);
    AfterOne(g, cs, 3);
    AfterOne(g, cs, 4);
    AfterOne(g, cs, 5);
    SetsNothing(g, CS_STALL + NOTIFY + DC_FLUSH, t.tagAddress, t.tag);
    AfterOne(g, cs, 6);
  }

  /** Whatever state the GPU is in, the first n commands of a launch walk once exactly when they reach the sixteenth, and
      the walk finds what the launch's own commands set up, all of it. */
  lemma LaunchWalksIn(g: Gpu, r: Receiver, t: Task, receiverAt: nat, taskAt: nat, n: nat)
    requires Programmable(r) && n <= 20
    ensures |LaunchTrace(r, t, receiverAt, taskAt)| == 20
    ensures Walks(g, CommandsOf(LaunchTrace(r, t, receiverAt, taskAt)[..n])) ==
            if n < 16 then [] else [Walked(AtWalk(g, r, t), GpgpuWalker(t.walk))]
  {
    hide LaunchTrace, ReceiverCommands, TaskCommands, After, Walks, SetUp, Programmable, GpgpuWalker;
    LaunchLength(r, t, receiverAt, taskAt);
    ReceiverSetsUp(g, r, taskAt);
    TaskWalks(SetUp(g, r), t, if n <= 13 then 0 else n - 13);
    var xs, ys := ReceiverCommands(r, taskAt), TaskCommands(t);
    var cs := CommandsOf(LaunchTrace(r, t, receiverAt, taskAt)[..n]);
    if n <= 13 {
      assert cs == xs[..n];
      NoWalksIn(g, xs, n);
    } else {
      assert cs == xs + ys[..n - 13];
      AfterBoth(g, xs, ys[..n - 13]);
      assert [] + Walks(SetUp(g, r), ys[..n - 13]) == Walks(SetUp(g, r), ys[..n - 13]);
    }
  }

  lemma NoWalksIn(g: Gpu, xs: seq<Command>, n: nat)
    requires n <= |xs| && Walks(g, xs) == []
    ensures Walks(g, xs[..n]) == []
  {
    hide Walks, After;
    AfterBoth(g, xs[..n], xs[n..]);
    assert xs == xs[..n] + xs[n..];
  }

  // ---------- what orders the commands ----------

  const NO_FENCE := Fence(false, false, false, false, false, false, 0, 0)

  /** The pipe controls of a launch.  Nothing before it is still under way when the front end is set up and when the bases
      are, and then caches are flushed and textures are read afresh; the tag is written when the walk has ended and its
      data has left the cache, in the process's own address space, with an interrupt. */
  lemma FencesOfLaunch(r: Receiver, t: Task, taskAddress: nat)
    ensures var cs := ReceiverCommands(r, taskAddress);
            && |cs| == 13 && |cs[2]| == |cs[5]| == |cs[8]| == |cs[11]| == 6
            && FenceIn(cs[2]) == FenceIn(cs[11]) == NO_FENCE.(stalls := true)
            && FenceIn(cs[5]) == NO_FENCE.(stalls := true, flushesData := true, flushesRender := true, flushesDepth := true)
            && FenceIn(cs[8]) == NO_FENCE.(stalls := true, flushesData := true, invalidatesTextures := true)
    ensures var cs := TaskCommands(t);
            && |cs| == 7 && |cs[4]| == |cs[5]| == 6 && FenceIn(cs[4]) == NO_FENCE.(stalls := true)
            && FenceIn(cs[5]) == NO_FENCE.(stalls := true, flushesData := true, notifies := true, operation := 1)
            && cs[5][5] == 0
  {
    StallOnly();
    FlushesAll();
    FlushesTextures();
    TagFence(t.tagAddress, t.tag);
    hide PipelineSelect, LoadRegisterImm, PipeControl, GpgpuCsrBaseAddress, MediaVfeState, StateBaseAddress, StateSip,
         BatchBufferStart, MediaStateFlush, MediaInterfaceDescriptorLoad, GpgpuWalker, PipeControlWrite, BatchBufferEnd,
         FenceIn;
  }

  lemma StallOnly()
    ensures |PipeControl(CS_STALL)| == 6 && FenceIn(PipeControl(CS_STALL)) == NO_FENCE.(stalls := true)
  {
    hide Gfx;
  }

  lemma FlushesAll()
    ensures var c := PipeControl(CS_STALL + RENDER_TARGET_FLUSH + DEPTH_FLUSH + DC_FLUSH);
            && |c| == 6
            && FenceIn(c) == NO_FENCE.(stalls := true, flushesData := true, flushesRender := true, flushesDepth := true)
  {
    hide Gfx;
  }

  lemma FlushesTextures()
    ensures var c := PipeControl(CS_STALL + TEXTURE_INVALIDATE + DC_FLUSH);
            |c| == 6 && FenceIn(c) == NO_FENCE.(stalls := true, flushesData := true, invalidatesTextures := true)
  {
    hide Gfx;
  }

  lemma TagFence(address: nat, tag: uint32)
    ensures var c := PipeControlWrite(CS_STALL + NOTIFY + DC_FLUSH, address, tag);
            && |c| == 6 && c[5] == 0
            && FenceIn(c) == NO_FENCE.(stalls := true, flushesData := true, notifies := true, operation := 1)
  {
    hide Gfx, FieldAt, High;
  }

  /** The jump stays in the process's own address space and does not come back; media state is flushed for the first
      descriptor. */
  lemma JumpAndFlushes(r: Receiver, t: Task, taskAddress: nat)
    ensures var c := ReceiverCommands(r, taskAddress)[12];
            |c| == 3 && Part(c[0], 0x100, 2) == 1 && Part(c[0], 0x40_0000, 2) == 0
    ensures var cs := TaskCommands(t);
            |cs[0]| == |cs[3]| == 2 && Part(cs[0][1], 1, 0x40) == 0 && Part(cs[3][1], 1, 0x40) == 0
  {
    JumpHeaderParts();
    hide PipelineSelect, LoadRegisterImm, PipeControl, GpgpuCsrBaseAddress, MediaVfeState, StateBaseAddress, StateSip, Mi, Low,
         High;
  }

  lemma JumpHeaderParts()
    ensures Part(Mi(0x101, 0x31), 0x100, 2) == 1 && Part(Mi(0x101, 0x31), 0x40_0000, 2) == 0
  {
    var h := Mi(0x101, 0x31);
    DivModUnique(h, 0x100, 0x18_8001, 1);
    DivModUnique(h, 0x40_0000, 0x62, 0x101);
  }

  /** Every bit of a launch's commands outside the fields that are read is clear. */
  lemma LaunchIsClean(r: Receiver, t: Task, taskAddress: nat, i: nat)
    requires r.bases.dynamicPages < 0x10_0000
    ensures |ReceiverCommands(r, taskAddress)| == 13 && (i < 13 ==> Clean(ReceiverCommands(r, taskAddress)[i]))
    ensures |TaskCommands(t)| == 7 && (i < 7 ==> Clean(TaskCommands(t)[i]))
  {
    hide Clean, PipelineSelect, LoadRegisterImm, PipeControl, GpgpuCsrBaseAddress, MediaVfeState, StateBaseAddress, StateSip,
         BatchBufferStart, MediaStateFlush, MediaInterfaceDescriptorLoad, GpgpuWalker, PipeControlWrite, BatchBufferEnd;
    CleanSelect();
    CleanLoad(L3_CONTROL, if r.usesSharedLocalMemory then 0x6000_0321 else 0x8000_0340);
    CleanLoad(THREAD_ARBITRATION, 0x100);
    CleanLoad(PREEMPTION_CONTROL, 0x6_0000);
    CleanAddresses(r.preemptionAddress, r.sip);
    CleanFrontEnd(r.maxVfeThreads, r.scratchPerThread, r.hasScratch);
    CleanBases(r.bases);
    CleanWalker(t.walk);
    CleanDescriptorLoad(32, t.descriptorStart);
    CleanNothing(CS_STALL, taskAddress, 0);
    CleanNothing(CS_STALL + RENDER_TARGET_FLUSH + DEPTH_FLUSH + DC_FLUSH, 0, 0);
    CleanNothing(CS_STALL + TEXTURE_INVALIDATE + DC_FLUSH, 0, 0);
    CleanNothing(CS_STALL + NOTIFY + DC_FLUSH, t.tagAddress, t.tag);
  }

  /** The order of a launch's commands: pipeline and cache first, the thread policy behind a stall, the front end behind the
      first flush, the bases and the system routine behind the second; then descriptors and the walk. */
  lemma OrderOfLaunch(r: Receiver, t: Task, taskAddress: nat)
    ensures var cs := ReceiverCommands(r, taskAddress);
            && |cs| == 13 && |cs[1]| == |cs[3]| == |cs[7]| == 3
            && OperationOf(cs[0]) == SelectPipeline
            && OperationOf(cs[1]) == OperationOf(cs[3]) == OperationOf(cs[7]) == LoadRegister
            && cs[1][1] == L3_CONTROL && cs[3][1] == THREAD_ARBITRATION && cs[7][1] == PREEMPTION_CONTROL
            && OperationOf(cs[4]) == SetPreemption && OperationOf(cs[6]) == SetFrontEnd && OperationOf(cs[9]) == SetBases
            && OperationOf(cs[10]) == SetSystemRoutine
    ensures var cs := TaskCommands(t);
            |cs| == 7 && OperationOf(cs[1]) == LoadDescriptors && OperationOf(cs[2]) == StartWalk
  {
    hide OperationOf, PipelineSelect, LoadRegisterImm, PipeControl, GpgpuCsrBaseAddress, MediaVfeState, StateBaseAddress,
         StateSip, BatchBufferStart, MediaStateFlush, MediaInterfaceDescriptorLoad, GpgpuWalker, PipeControlWrite,
         BatchBufferEnd;
    RegisterIs(L3_CONTROL, if r.usesSharedLocalMemory then 0x6000_0321 else 0x8000_0340);
    RegisterIs(THREAD_ARBITRATION, 0x100);
    RegisterIs(PREEMPTION_CONTROL, 0x6_0000);
    OperationsOf(L3_CONTROL, if r.usesSharedLocalMemory then 0x6000_0321 else 0x8000_0340, r.preemptionAddress, r.sip,
                 r.maxVfeThreads, r.scratchPerThread, r.hasScratch, 32, t.descriptorStart);
    OperationsOf(THREAD_ARBITRATION, 0x100, 0, 0, 0, 0, false, 0, 0);
    OperationsOf(PREEMPTION_CONTROL, 0x6_0000, 0, 0, 0, 0, false, 0, 0);
    BasesOperation(r.bases);
    WalkerOperation(t.walk);
  }

  lemma RegisterIs(register: nat, data: uint32)
    requires register % 4 == 0 && register < 0x80_0000
    ensures |LoadRegisterImm(register, data)| == 3 && LoadRegisterImm(register, data)[1] == register
  {
    hide Mi;
    var q := register / 4;
    assert register == 4 * q;
  }
}
