/** What executing commands does to the GPU.

    The hardware's view again, but of every field: each command is taken apart by the bit positions of its packed
    structure, and changes the state that the next walk finds.  Nothing here knows how the driver builds a command.
 */
module GpuState {
  import opened Words
  import opened DriverUtils
  import opened Bits
  import opened Commands

  /** The bitfield of a dword that starts at bit log2(unit) and is log2(span) bits wide. */
  function Part(d: uint32, unit: nat, span: nat): nat
    requires unit >= 1 && span >= 1
  {
    d / unit % span
  }

  /** A 64-bit address in dwords i and i + 1, without the bits below `unit`. */
  function AddressIn(c: Command, i: nat, unit: nat): nat
    requires i + 1 < |c| && unit >= 1
  {
    var low: int, high: int := c[i], c[i + 1];
    low / unit * unit + TWO_32 * high
  }

  /** A base address with its caching index. */
  datatype Base = Base(address: nat, caching: nat)

  /** The base addresses; the sizes of four of them in pages, and of the last in surface states. */
  datatype Bases6 = Bases6(general: Base, surface: Base, dynamicState: Base, indirect: Base, instruction: Base,
                           bindless: Base, generalPages: nat, dynamicPages: nat, indirectPages: nat,
                           instructionPages: nat, bindlessStates: nat, statelessCaching: nat)

  /** Threads, URB entries and their size, and the codes and the place of the threads' scratch memory. */
  datatype FrontEnd = FrontEnd(maxThreads: nat, urbEntries: nat, urbSize: nat, scratchSize: nat, stackSize: nat,
                               scratch: nat)

  /** What commands set up for the walks behind them. */
  datatype Gpu = Gpu(pipeline: nat, samplerGated: bool, registers: map<nat, uint32>, preemption: nat,
                     frontEnd: FrontEnd, bases: Bases6, systemRoutine: nat, descriptors: nat, descriptorBytes: nat)

  datatype Operation = SelectPipeline | LoadRegister | SetPreemption | SetFrontEnd | SetBases | SetSystemRoutine
                     | LoadDescriptors | StartWalk | Nothing

  /** A render or media command with these header fields, in n dwords. */
  predicate IsGfx(c: Command, n: nat, subOpcode: nat, opcode: nat, pipeline: nat)
  {
    && n >= 1 && |c| == n && Part(c[0], 0x2000_0000, 8) == 3 && Part(c[0], 0x800_0000, 4) == pipeline
    && Part(c[0], 0x100_0000, 8) == opcode && Part(c[0], 0x1_0000, 0x100) == subOpcode
  }

  /** A register load of all four bytes. */
  predicate LoadsWhole(c: Command)
  {
    && |c| == 3 && Part(c[0], 0x2000_0000, 8) == 0 && Part(c[0], 0x80_0000, 0x40) == 0x22
    && Part(c[0], 0x100, 0x10) == 0
  }

  function OperationOf(c: Command): Operation
  {
    if IsGfx(c, 1, 4, 1, 1) then SelectPipeline
    else if LoadsWhole(c) then LoadRegister
    else if IsGfx(c, 3, 4, 1, 0) then SetPreemption
    else if IsGfx(c, 9, 0, 0, 2) then SetFrontEnd
    else if IsGfx(c, 19, 1, 1, 0) then SetBases
    else if IsGfx(c, 3, 2, 1, 0) then SetSystemRoutine
    else if IsGfx(c, 4, 2, 0, 2) then LoadDescriptors
    else if IsGfx(c, 15, 5, 1, 2) then StartWalk
    else Nothing
  }

  /** A base is changed if its modify bit is set. */
  function BaseIn(c: Command, i: nat, before: Base): Base
    requires i + 1 < |c|
  {
    if c[i] % 2 == 1 then Base(AddressIn(c, i, 0x1000), Part(c[i], 0x20, 0x40)) else before
  }

  function SizeIn(c: Command, i: nat, before: nat): nat
    requires i < |c|
  {
    if c[i] % 2 == 1 then Part(c[i], 0x1000, 0x10_0000) else before
  }

  function BasesIn(c: Command, b: Bases6): Bases6
    requires |c| == 19
  {
    Bases6(BaseIn(c, 1, b.general), BaseIn(c, 4, b.surface), BaseIn(c, 6, b.dynamicState), BaseIn(c, 8, b.indirect),
           BaseIn(c, 10, b.instruction), BaseIn(c, 16, b.bindless), SizeIn(c, 12, b.generalPages),
           SizeIn(c, 13, b.dynamicPages), SizeIn(c, 14, b.indirectPages), SizeIn(c, 15, b.instructionPages),
           Part(c[18], 0x1000, 0x10_0000), Part(c[3], 0x2_0000, 0x40))
  }

  function FrontEndIn(c: Command): FrontEnd
    requires |c| == 9
  {
    var low: int, high: int := c[1], c[2];
    FrontEnd(Part(c[3], 0x1_0000, 0x1_0000) + 1, Part(c[3], 0x100, 0x100), Part(c[5], 0x1_0000, 0x1_0000),
             Part(c[1], 1, 0x10), Part(c[1], 0x10, 0x10), low / 0x400 * 0x400 + TWO_32 * (high % 0x1_0000))
  }

  /** One command; the bits of a pipeline selection count where their mask bits are set. */
  function Execute(g: Gpu, c: Command): Gpu
  {
    match OperationOf(c)
    case SelectPipeline =>
      var selected := if Part(c[0], 0x100, 4) == 3 then g.(pipeline := Part(c[0], 1, 4)) else g;
      if Part(c[0], 0x1000, 2) == 1 then selected.(samplerGated := Part(c[0], 0x10, 2) == 1) else selected
    case LoadRegister => g.(registers := g.registers[Part(c[1], 4, 0x20_0000) * 4 := c[2]])
    case SetPreemption => g.(preemption := AddressIn(c, 1, 0x1000))
    case SetFrontEnd => g.(frontEnd := FrontEndIn(c))
    case SetBases => g.(bases := BasesIn(c, g.bases))
    case SetSystemRoutine => g.(systemRoutine := AddressIn(c, 1, 0x10))
    case LoadDescriptors => g.(descriptors := c[3], descriptorBytes := Part(c[2], 1, 0x2_0000))
    case StartWalk => g
    case Nothing => g
  }

  function After(g: Gpu, cs: seq<Command>): Gpu
  {
    if cs == [] then g else Execute(After(g, cs[..|cs| - 1]), cs[|cs| - 1])
  }

  /** A walk, and the state it finds. */
  datatype Walked = Walked(gpu: Gpu, command: Command)

  function Walks(g: Gpu, cs: seq<Command>): seq<Walked>
  {
    if cs == [] then []
    else
      var front, c := cs[..|cs| - 1], cs[|cs| - 1];
      Walks(g, front) + (if OperationOf(c) == StartWalk then [Walked(After(g, front), c)] else [])
  }

  lemma {:induction false} AfterBoth(g: Gpu, xs: seq<Command>, ys: seq<Command>)
    ensures After(g, xs + ys) == After(After(g, xs), ys)
    ensures Walks(g, xs + ys) == Walks(g, xs) + Walks(After(g, xs), ys)
    decreases |ys|
  {
    hide Execute, OperationOf;
    if ys == [] {
      assert xs + ys == xs;
    } else {
      AfterBoth(g, xs, ys[..|ys| - 1]);
      assert (xs + ys)[..|xs + ys| - 1] == xs + ys[..|ys| - 1];
    }
  }

  function CommandsOf(trace: seq<Executed>): (cs: seq<Command>)
    ensures |cs| == |trace| && forall i | 0 <= i < |trace| :: cs[i] == trace[i].command
  {
    seq(|trace|, i requires 0 <= i < |trace| => trace[i].command)
  }

  // ---------- what a walk does ----------

  /** The groups from the starting IDs (dwords 5, 8 and 11) up to the dimensions (dwords 7, 10 and 12). */
  predicate WalksGroup(c: Command, x: nat, y: nat, z: nat)
    requires |c| == 15
  {
    c[5] <= x < c[7] && c[8] <= y < c[10] && c[11] <= z < c[12]
  }

  /** The threads of a group: three counters, each less one. */
  function ThreadsOfGroup(c: Command): nat
    requires |c| == 15
  {
    (Part(c[4], 1, 0x40) + 1) * (Part(c[4], 0x100, 0x40) + 1) * (Part(c[4], 0x1_0000, 0x40) + 1)
  }

  /** Lanes of a thread: 8, 16 or 32. */
  function LanesOfThread(c: Command): nat
    requires |c| == 15
  {
    8 * Pow2(Part(c[4], 0x4000_0000, 4))
  }

  /** Where the interface descriptor that a walk names is. */
  function DescriptorOf(w: Walked): nat
    requires |w.command| == 15
  {
    w.gpu.bases.dynamicState.address + w.gpu.descriptors + 32 * Part(w.command[1], 1, 0x40)
  }

  /** Where the data is that a walk's threads are loaded with, and how much of it there is. */
  function DataOf(w: Walked): nat
    requires |w.command| == 15
  {
    w.gpu.bases.indirect.address + Part(w.command[3], 0x40, 0x400_0000) * 0x40
  }

  // ---------- pipe controls ----------

  /** The flags of a pipe control that order, flush and invalidate, its memory operation, and what else is set. */
  datatype Fence = Fence(stalls: bool, flushesData: bool, notifies: bool, flushesRender: bool, flushesDepth: bool,
                         invalidatesTextures: bool, operation: nat, others: int)

  predicate Flag(c: Command, unit: nat)
    requires |c| == 6 && unit >= 1
  {
    Part(c[1], unit, 2) == 1
  }

  function FenceIn(c: Command): Fence
    requires |c| == 6
  {
    var operation := Part(c[1], 0x4000, 4);
    Fence(Flag(c, 0x10_0000), Flag(c, 0x20), Flag(c, 0x100), Flag(c, 0x1000), Flag(c, 1), Flag(c, 0x400), operation,
          c[1] - (if Flag(c, 0x10_0000) then 0x10_0000 else 0) - (if Flag(c, 0x20) then 0x20 else 0)
          - (if Flag(c, 0x100) then 0x100 else 0) - (if Flag(c, 0x1000) then 0x1000 else 0)
          - (if Flag(c, 1) then 1 else 0) - (if Flag(c, 0x400) then 0x400 else 0) - operation * 0x4000)
  }

  // ---------- the driver's commands ----------

  lemma OperationOfGfx(c: Command, n: nat, length: nat, subOpcode: nat, opcode: nat, pipeline: nat)
    requires length < 0x1_0000 && subOpcode < 0x100 && opcode < 8 && pipeline < 4
    requires |c| == n >= 1 && c[0] == Gfx(length, subOpcode, opcode, pipeline)
    ensures IsGfx(c, n, subOpcode, opcode, pipeline)
    ensures Part(c[0], 0x2000_0000, 8) == 3 && Part(c[0], 0x800_0000, 4) == pipeline
    ensures Part(c[0], 0x100_0000, 8) == opcode && Part(c[0], 0x1_0000, 0x100) == subOpcode
  {
    GfxHeader(length, subOpcode, opcode, pipeline);
    hide Gfx;
  }

  lemma Selects(g: Gpu)
    ensures OperationOf(PipelineSelect()) != StartWalk
    ensures Execute(g, PipelineSelect()) == g.(pipeline := 2, samplerGated := true)
  {
    var c := PipelineSelect();
    assert c[0] == 0x6904_1312;
  }

  lemma Loads(g: Gpu, register: nat, data: uint32)
    requires register % 4 == 0 && register < 0x80_0000
    ensures OperationOf(LoadRegisterImm(register, data)) != StartWalk
    ensures Execute(g, LoadRegisterImm(register, data)) == g.(registers := g.registers[register := data])
  {
    MiHeader(1, 0x22);
    DivModUnique(Mi(1, 0x22), 0x100, 0x11_0000, 1);
    hide Mi;
    var q := register / 4;
    assert register == 4 * q;
    DivModUnique(4 * q, 4, q, 0);
    var c := LoadRegisterImm(register, data);
    assert OperationOf(c) == LoadRegister;
  }

  lemma Preempts(g: Gpu, address: nat)
    requires PageAddress(address)
    ensures OperationOf(GpgpuCsrBaseAddress(address)) != StartWalk
    ensures Execute(g, GpgpuCsrBaseAddress(address)) == g.(preemption := address)
  {
    var c := GpgpuCsrBaseAddress(address);
    OperationOfGfx(c, 3, 1, 4, 1, 0);
    hide Gfx;
    SplitPage(address);
    assert OperationOf(c) == SetPreemption;
  }

  /** The two dwords of an aligned 64-bit address. */
  lemma SplitPage(address: nat)
    requires PageAddress(address)
    ensures var low: nat := Low(address / 0x1000 * 0x1000);
            low / 0x1000 * 0x1000 + TWO_32 * High(address) == address
  {
    var page := address / 0x1000;
    assert address == 0x1000 * page;
    var q, r := page / 0x10_0000, page % 0x10_0000;
    DivModUnique(address, TWO_32, q, 0x1000 * r);
    DivModUnique(0x1000 * r, 0x1000, r, 0);
  }

  lemma SplitPointer(pointer: nat)
    requires pointer % 0x10 == 0 && pointer < TWO_64
    ensures var low: nat := Low(pointer / 0x10 * 0x10);
            low / 0x10 * 0x10 + TWO_32 * High(pointer) == pointer
  {
    var n := pointer / 0x10;
    assert pointer == 0x10 * n;
    var q, r := n / 0x1000_0000, n % 0x1000_0000;
    DivModUnique(pointer, TWO_32, q, 0x10 * r);
    DivModUnique(0x10 * r, 0x10, r, 0);
  }

  lemma SetsFrontEnd(g: Gpu, maxThreads: nat, scratchPerThread: nat, hasScratch: bool)
    ensures OperationOf(MediaVfeState(maxThreads, scratchPerThread, hasScratch)) != StartWalk
    ensures Execute(g, MediaVfeState(maxThreads, scratchPerThread, hasScratch)) ==
            g.(frontEnd := FrontEnd((maxThreads + TWO_32 - 1) % TWO_32 % 0x1_0000 + 1, 1, 0x782, scratchPerThread % 0x10,
                                    scratchPerThread % 0x10, if hasScratch then 0x1000 else 0))
  {
    var c := MediaVfeState(maxThreads, scratchPerThread, hasScratch);
    OperationOfGfx(c, 9, 7, 0, 0, 2);
    hide Gfx;
    var t, s := (maxThreads + TWO_32 - 1) % TWO_32 % 0x1_0000, scratchPerThread % 0x10;
    var pointer := if hasScratch then 0x1000 else 0;
    assert c[1] == s + s * 0x10 + pointer && c[3] == 0x100 + t * 0x1_0000 && c[5] == 0x782_0000;
    FrontEndParts(t, s, pointer);
    assert OperationOf(c) == SetFrontEnd;
  }

  lemma FrontEndParts(t: nat, s: nat, pointer: nat)
    requires t < 0x1_0000 && s < 0x10 && (pointer == 0x1000 || pointer == 0)
    ensures (0x100 + t * 0x1_0000) / 0x1_0000 == t && (0x100 + t * 0x1_0000) / 0x100 % 0x100 == 1
    ensures (s + s * 0x10 + pointer) % 0x10 == s && (s + s * 0x10 + pointer) / 0x10 % 0x10 == s
    ensures (s + s * 0x10 + pointer) / 0x400 * 0x400 == pointer
  {
  }

  lemma SetsSystemRoutine(g: Gpu, pointer: nat)
    requires pointer % 0x10 == 0 && pointer < TWO_64
    ensures OperationOf(StateSip(pointer)) != StartWalk
    ensures Execute(g, StateSip(pointer)) == g.(systemRoutine := pointer)
  {
    var c := StateSip(pointer);
    OperationOfGfx(c, 3, 1, 2, 1, 0);
    hide Gfx;
    SplitPointer(pointer);
    assert OperationOf(c) == SetSystemRoutine;
  }

  lemma LoadsDescriptors(g: Gpu, length: uint32, start: uint32)
    requires length < 0x2_0000
    ensures OperationOf(MediaInterfaceDescriptorLoad(length, start)) != StartWalk
    ensures Execute(g, MediaInterfaceDescriptorLoad(length, start)) == g.(descriptors := start, descriptorBytes := length)
  {
    var c := MediaInterfaceDescriptorLoad(length, start);
    OperationOfGfx(c, 4, 2, 2, 0, 2);
    hide Gfx;
    assert OperationOf(c) == LoadDescriptors;
  }

  lemma BaseReadsBack(c: Command, i: nat, a: nat, caching: nat, before: Base)
    requires PageAddress(a) && caching < 0x40 && i + 1 < |c|
    requires c[i] == BaseField(a, caching).0 && c[i + 1] == BaseField(a, caching).1
    ensures BaseIn(c, i, before) == Base(a, caching)
  {
    SplitPage(a);
    var low: nat := Low(a / 0x1000 * 0x1000);
    var page := low / 0x1000;
    BaseBits(page, caching);
    hide Low, High;
    assert c[i] == page * 0x1000 + 0x20 * caching + 1;
  }

  lemma BaseBits(page: nat, caching: nat)
    requires caching < 0x40
    ensures var d := page * 0x1000 + 0x20 * caching + 1;
            d % 2 == 1 && d / 0x1000 == page && d / 0x20 % 0x40 == caching
  {
    var d := page * 0x1000 + 0x20 * caching + 1;
    DivModUnique(d, 0x1000, page, 0x20 * caching + 1);
    DivModUnique(d, 0x20, page * 0x80 + caching, 1);
    DivModUnique(page * 0x80 + caching, 0x40, page * 2, caching);
    DivModUnique(d, 2, page * 0x800 + 0x10 * caching, 1);
  }

  lemma SizeReadsBack(c: Command, i: nat, pages: nat, before: nat)
    requires pages < 0x10_0000 && i < |c| && c[i] == SizeField(pages)
    ensures SizeIn(c, i, before) == pages
  {
    SizeBits(pages);
  }

  lemma SizeBits(pages: nat)
    requires pages < 0x10_0000
    ensures SizeField(pages) % 2 == 1 && SizeField(pages) / 0x1000 % 0x10_0000 == pages
  {
    DivModUnique(1 + pages * 0x1000, 0x1000, pages, 1);
    DivModUnique(1 + pages * 0x1000, 2, pages * 0x800, 1);
  }

  lemma StatesBack(states: nat)
    requires states < 0x10_0000
    ensures states % 0x10_0000 * 0x1000 / 0x1000 % 0x10_0000 == states
  {
    DivModUnique(states * 0x1000, 0x1000, states, 0);
  }

  /** Where the fields of the base addresses are. */
  predicate CarriesBases(c: Command, b: Bases)
  {
    && |c| == 19
    && c[1] == BaseField(b.general, 0).0 && c[2] == BaseField(b.general, 0).1
    && c[4] == BaseField(b.surface, 0).0 && c[5] == BaseField(b.surface, 0).1
    && c[6] == BaseField(b.dynamicState, 0).0 && c[7] == BaseField(b.dynamicState, 0).1
    && c[8] == BaseField(b.indirect, 0).0 && c[9] == BaseField(b.indirect, 0).1
    && c[10] == BaseField(b.instruction, 2).0 && c[11] == BaseField(b.instruction, 2).1
    && c[16] == BaseField(b.surface, 0).0 && c[17] == BaseField(b.surface, 0).1
    && c[12] == SizeField(0xf_ffff) && c[13] == SizeField(b.dynamicPages) && c[14] == SizeField(0xf_ffff)
    && c[15] == SizeField(0xf_ffff) && c[18] == b.bindlessStates % 0x10_0000 * 0x1000 && c[3] == 0x4_0000
  }

  lemma BasesRead(c: Command, b: Bases, o: Bases6)
    requires PageAddress(b.general) && PageAddress(b.surface) && PageAddress(b.dynamicState)
    requires PageAddress(b.indirect) && PageAddress(b.instruction)
    requires b.dynamicPages < 0x10_0000 && b.bindlessStates < 0x10_0000 && CarriesBases(c, b)
    ensures BasesIn(c, o) ==
            Bases6(Base(b.general, 0), Base(b.surface, 0), Base(b.dynamicState, 0), Base(b.indirect, 0),
                   Base(b.instruction, 2), Base(b.surface, 0), 0xf_ffff, b.dynamicPages, 0xf_ffff, 0xf_ffff,
                   b.bindlessStates, 2)
  {
    hide BaseField, SizeField, BaseIn, SizeIn, PageAddress;
    StatesBack(b.bindlessStates);
    BaseReadsBack(c, 1, b.general, 0, o.general);
    BaseReadsBack(c, 4, b.surface, 0, o.surface);
    BaseReadsBack(c, 6, b.dynamicState, 0, o.dynamicState);
    BaseReadsBack(c, 8, b.indirect, 0, o.indirect);
    BaseReadsBack(c, 10, b.instruction, 2, o.instruction);
    BaseReadsBack(c, 16, b.surface, 0, o.bindless);
    SizeReadsBack(c, 12, 0xf_ffff, o.generalPages);
    SizeReadsBack(c, 13, b.dynamicPages, o.dynamicPages);
    SizeReadsBack(c, 14, 0xf_ffff, o.indirectPages);
    SizeReadsBack(c, 15, 0xf_ffff, o.instructionPages);
  }

  lemma SetsBases(g: Gpu, b: Bases)
    requires PageAddress(b.general) && PageAddress(b.surface) && PageAddress(b.dynamicState)
    requires PageAddress(b.indirect) && PageAddress(b.instruction)
    requires b.dynamicPages < 0x10_0000 && b.bindlessStates < 0x10_0000
    ensures OperationOf(StateBaseAddress(b)) != StartWalk
    ensures Execute(g, StateBaseAddress(b)) ==
            g.(bases := Bases6(Base(b.general, 0), Base(b.surface, 0), Base(b.dynamicState, 0), Base(b.indirect, 0),
                               Base(b.instruction, 2), Base(b.surface, 0), 0xf_ffff, b.dynamicPages, 0xf_ffff, 0xf_ffff,
                               b.bindlessStates, 2))
  {
    hide BasesIn, PageAddress, CarriesBases, OperationOf;
    BasesCarried(b);
    BasesOperation(b);
    hide StateBaseAddress;
    BasesRead(StateBaseAddress(b), b, g.bases);
  }

  lemma BasesCarried(b: Bases)
    ensures CarriesBases(StateBaseAddress(b), b)
  {
    hide BaseField, SizeField, Gfx;
  }

  lemma BasesOperation(b: Bases)
    ensures |StateBaseAddress(b)| == 19 && OperationOf(StateBaseAddress(b)) == SetBases
  {
    hide BaseField, SizeField, Gfx, FieldAt;
    BasesHeader(b);
    OperationOfGfx(StateBaseAddress(b), 19, 0x11, 1, 1, 0);
  }

  lemma BasesHeader(b: Bases)
    ensures |StateBaseAddress(b)| == 19 && StateBaseAddress(b)[0] == Gfx(0x11, 1, 1, 0)
  {
    hide BaseField, SizeField, Gfx, FieldAt;
  }

  lemma SetsNothing(g: Gpu, flags: uint32, address: nat, tag: uint32)
    ensures Execute(g, PipeControl(flags)) == g && Execute(g, MediaStateFlush()) == g && Execute(g, BatchBufferEnd()) == g
    ensures Execute(g, BatchBufferStart(address)) == g
    ensures flags + WRITE_IMMEDIATE < TWO_32 ==> Execute(g, PipeControlWrite(flags, address, tag)) == g
    ensures OperationOf(PipeControl(flags)) == OperationOf(MediaStateFlush()) == OperationOf(BatchBufferEnd())
            == OperationOf(BatchBufferStart(address)) == Nothing
    ensures flags + WRITE_IMMEDIATE < TWO_32 ==> OperationOf(PipeControlWrite(flags, address, tag)) == Nothing
  {
    GfxHeader(4, 0, 2, 3);
    GfxHeader(0, 4, 0, 2);
    MiHeader(0, 0xa);
    MiHeader(0x101, 0x31);
    hide Gfx, Mi, FieldAt, Low, High;
  }

  lemma WalkerOperation(w: Walk)
    ensures OperationOf(GpgpuWalker(w)) == StartWalk
  {
    OperationOfGfx(GpgpuWalker(w), 15, 0xd, 5, 1, 2);
    hide Gfx, FieldAt, Low;
  }

  lemma StartsWalk(g: Gpu, w: Walk)
    ensures OperationOf(GpgpuWalker(w)) == StartWalk && Execute(g, GpgpuWalker(w)) == g
  {
    WalkerOperation(w);
    hide OperationOf, GpgpuWalker;
  }

  /** What a walker says: all groups from zero up to the counts, in 32 bits; so many threads, their lanes, and masks;
      the first descriptor; and the place of the data. */
  lemma WalkerSays(w: Walk, x: nat, y: nat, z: nat)
    requires w.simdSize == 1 || w.simdSize == 8 || w.simdSize == 16 || w.simdSize == 32
    ensures var c := GpgpuWalker(w);
            && |c| == 15
            && (WalksGroup(c, x, y, z) <==> x < w.groupsX % TWO_32 && y < w.groupsY % TWO_32 && z < w.groupsZ % TWO_32)
            && ThreadsOfGroup(c) == (w.threads + TWO_32 - 1) % TWO_32 % 0x40 + 1
            && LanesOfThread(c) == (if w.simdSize == 1 then 32 else w.simdSize)
            && c[1] == 0 && c[2] == w.indirectLength % 0x2_0000 && c[13] == w.rightMask % TWO_32 && c[14] == 0xffff_ffff
            && Part(c[3], 0x40, 0x400_0000) == w.indirectStart / 0x40 % 0x400_0000
  {
    hide Gfx;
    var t, s := (w.threads + TWO_32 - 1) % TWO_32 % 0x40, if w.simdSize == 1 then 2 else w.simdSize / 0x10;
    assert GpgpuWalker(w)[4] == t + s % 4 * 0x4000_0000;
    assert Pow2(0) == 1 && Pow2(1) == 2 && Pow2(2) == 4;
    CounterParts(t, s);
    PlaceParts(w.indirectStart / 0x40 % 0x400_0000);
  }

  lemma CounterParts(t: nat, s: nat)
    requires t < 0x40 && s < 4
    ensures var d := t + s * 0x4000_0000;
            d % 0x40 == t && d / 0x100 % 0x40 == 0 && d / 0x1_0000 % 0x40 == 0 && d / 0x4000_0000 % 4 == s
  {
  }

  lemma PlaceParts(q: nat)
    requires q < 0x400_0000
    ensures q * 0x40 / 0x40 % 0x400_0000 == q
  {
  }

  // ---------- bits outside the fields ----------

  /** A base-address dword whose bits beside page, caching index and modify bit are clear. */
  predicate CleanBase(d: uint32) { d / 2 % 0x10 == 0 && d / 0x800 % 2 == 0 }

  predicate CleanSize(d: uint32) { d / 2 % 0x800 == 0 }

  /** A command whose reserved bits, and the bits of features that are not used, are clear. */
  predicate Clean(c: Command)
  {
    match OperationOf(c)
    case SelectPipeline => c[0] / 4 % 4 == 0 && c[0] / 0x20 % 8 == 0 && c[0] / 0x400 % 4 == 0 && c[0] / 0x2000 % 8 == 0
    case LoadRegister => c[0] / 0x1000 % 0x800 == 0 && c[1] % 4 == 0 && c[1] / 0x80_0000 == 0
    case SetPreemption => c[1] % 0x1000 == 0
    case SetFrontEnd =>
      && c[1] / 0x100 % 4 == 0 && c[2] / 0x1_0000 == 0 && c[3] % 0x100 == 0 && c[4] == 0 && c[5] % 0x1_0000 == 0
      && c[6] == c[7] == c[8] == 0
    case SetBases =>
      && CleanBase(c[1]) && CleanBase(c[4]) && CleanBase(c[6]) && CleanBase(c[8]) && CleanBase(c[10]) && CleanBase(c[16])
      && CleanSize(c[12]) && CleanSize(c[13]) && CleanSize(c[14]) && CleanSize(c[15])
      && c[3] % 0x2_0000 == 0 && c[3] / 0x80_0000 == 0 && c[18] % 0x1000 == 0
    case SetSystemRoutine => c[1] % 0x10 == 0
    case LoadDescriptors => c[1] == 0 && c[2] / 0x2_0000 == 0
    case StartWalk =>
      && c[1] / 0x40 == 0 && c[2] / 0x2_0000 == 0 && c[3] % 0x40 == 0 && c[6] == 0 && c[9] == 0
      && c[4] / 0x40 % 4 == 0 && c[4] / 0x4000 % 4 == 0 && c[4] / 0x40_0000 % 0x100 == 0
    case Nothing => |c| == 2 ==> c[1] == 0
  }

  /** What the commands of a launch are to the GPU. */
  lemma OperationsOf(register: nat, data: uint32, address: nat, pointer: nat, maxThreads: nat, scratchPerThread: nat,
                     hasScratch: bool, length: uint32, start: uint32)
    ensures OperationOf(PipelineSelect()) == SelectPipeline && OperationOf(LoadRegisterImm(register, data)) == LoadRegister
    ensures OperationOf(GpgpuCsrBaseAddress(address)) == SetPreemption && OperationOf(StateSip(pointer)) == SetSystemRoutine
    ensures OperationOf(MediaVfeState(maxThreads, scratchPerThread, hasScratch)) == SetFrontEnd
    ensures OperationOf(MediaInterfaceDescriptorLoad(length, start)) == LoadDescriptors
  {
    assert PipelineSelect()[0] == 0x6904_1312;
    MiHeader(1, 0x22);
    DivModUnique(Mi(1, 0x22), 0x100, 0x11_0000, 1);
    OperationOfGfx(GpgpuCsrBaseAddress(address), 3, 1, 4, 1, 0);
    OperationOfGfx(StateSip(pointer), 3, 1, 2, 1, 0);
    OperationOfGfx(MediaVfeState(maxThreads, scratchPerThread, hasScratch), 9, 7, 0, 0, 2);
    OperationOfGfx(MediaInterfaceDescriptorLoad(length, start), 4, 2, 2, 0, 2);
    hide Gfx, Mi, FieldAt, Low, High;
  }

  lemma CleanSelect()
    ensures Clean(PipelineSelect())
  {
    var c := PipelineSelect();
    assert c[0] == 0x6904_1312;
  }

  lemma CleanLoad(register: nat, data: uint32)
    requires register % 4 == 0 && register < 0x80_0000
    ensures Clean(LoadRegisterImm(register, data))
  {
    MiHeader(1, 0x22);
    DivModUnique(Mi(1, 0x22), 0x1000, 0x1_1000, 1);
    DivModUnique(Mi(1, 0x22), 0x100, 0x11_0000, 1);
    hide Mi;
    var q := register / 4;
    assert register == 4 * q;
    DivModUnique(4 * q, 4, q, 0);
    assert OperationOf(LoadRegisterImm(register, data)) == LoadRegister;
  }

  lemma CleanAddresses(address: nat, pointer: nat)
    ensures Clean(GpgpuCsrBaseAddress(address)) && Clean(StateSip(pointer))
  {
    OperationOfGfx(GpgpuCsrBaseAddress(address), 3, 1, 4, 1, 0);
    OperationOfGfx(StateSip(pointer), 3, 1, 2, 1, 0);
    hide Gfx, High;
    LowAligned(address / 0x1000, 0x1000, 0x10_0000);
    LowAligned(pointer / 0x10, 0x10, 0x1000_0000);
    assert OperationOf(GpgpuCsrBaseAddress(address)) == SetPreemption;
    assert OperationOf(StateSip(pointer)) == SetSystemRoutine;
  }

  /** The low dword of a multiple of a unit that divides 2^32 is one. */
  lemma LowAligned(n: nat, unit: nat, units: nat)
    requires unit >= 1 && units >= 1 && unit * units == TWO_32
    ensures n * unit % TWO_32 % unit == 0
  {
    var q, r := n / units, n % units;
    assert n == units * q + r;
    assert n * unit == TWO_32 * q + r * unit by { Distribute(unit, units * q, r); Regrouped(unit, units, q); }
    MulMonotone(unit, r + 1, units);
    Distribute(unit, r, 1);
    DivModUnique(n * unit, TWO_32, q, r * unit);
    DivModUnique(r * unit, unit, r, 0);
  }

  lemma Regrouped(a: nat, b: nat, c: nat)
    ensures a * (b * c) == a * b * c
  {
  }

  lemma CleanFrontEnd(maxThreads: nat, scratchPerThread: nat, hasScratch: bool)
    ensures Clean(MediaVfeState(maxThreads, scratchPerThread, hasScratch))
  {
    var c := MediaVfeState(maxThreads, scratchPerThread, hasScratch);
    OperationOfGfx(c, 9, 7, 0, 0, 2);
    hide Gfx;
    var t, s := (maxThreads + TWO_32 - 1) % TWO_32 % 0x1_0000, scratchPerThread % 0x10;
    var pointer := if hasScratch then 0x1000 else 0;
    assert c[1] == s + s * 0x10 + pointer && c[3] == 0x100 + t * 0x1_0000 && c[5] == 0x782_0000;
    FrontEndGaps(t, s, pointer);
    assert OperationOf(c) == SetFrontEnd;
  }

  lemma FrontEndGaps(t: nat, s: nat, pointer: nat)
    requires t < 0x1_0000 && s < 0x10 && (pointer == 0x1000 || pointer == 0)
    ensures (s + s * 0x10 + pointer) / 0x100 % 4 == 0 && (0x100 + t * 0x1_0000) % 0x100 == 0
  {
  }

  lemma CleanBases(b: Bases)
    requires b.dynamicPages < 0x10_0000
    ensures Clean(StateBaseAddress(b))
  {
    hide OperationOf, BaseField, SizeField, CleanBase, CleanSize;
    BasesCarried(b);
    BasesOperation(b);
    CleanBaseField(b.general, 0);
    CleanBaseField(b.surface, 0);
    CleanBaseField(b.dynamicState, 0);
    CleanBaseField(b.indirect, 0);
    CleanBaseField(b.instruction, 2);
    CleanSizeField(0xf_ffff);
    CleanSizeField(b.dynamicPages);
    DivModUnique(b.bindlessStates % 0x10_0000 * 0x1000, 0x1000, b.bindlessStates % 0x10_0000, 0);
    hide StateBaseAddress;
  }

  lemma CleanBaseField(a: nat, caching: nat)
    requires caching < 0x40
    ensures CleanBase(BaseField(a, caching).0)
  {
    var low: nat := Low(a / 0x1000 * 0x1000);
    CleanBaseBits(low / 0x1000, caching);
    hide Low, High;
  }

  lemma CleanBaseBits(page: nat, caching: nat)
    requires caching < 0x40
    ensures var d := page * 0x1000 + 0x20 * caching + 1; d / 2 % 0x10 == 0 && d / 0x800 % 2 == 0
  {
    var d := page * 0x1000 + 0x20 * caching + 1;
    DivModUnique(d, 2, page * 0x800 + 0x10 * caching, 1);
    DivModUnique(page * 0x800 + 0x10 * caching, 0x10, page * 0x80 + caching, 0);
    DivModUnique(d, 0x800, page * 2, 0x20 * caching + 1);
  }

  lemma CleanSizeField(pages: nat)
    requires pages < 0x10_0000
    ensures CleanSize(SizeField(pages))
  {
    DivModUnique(1 + pages * 0x1000, 2, pages * 0x800, 1);
    DivModUnique(pages * 0x800, 0x800, pages, 0);
  }

  lemma CleanWalker(w: Walk)
    ensures Clean(GpgpuWalker(w))
  {
    OperationOfGfx(GpgpuWalker(w), 15, 0xd, 5, 1, 2);
    hide Gfx, Low;
    var t, s := (w.threads + TWO_32 - 1) % TWO_32 % 0x40, if w.simdSize == 1 then 2 else w.simdSize / 0x10;
    assert GpgpuWalker(w)[4] == t + s % 4 * 0x4000_0000;
    CounterGaps(t, s % 4);
    PlaceGap(w.indirectStart / 0x40 % 0x400_0000);
    assert OperationOf(GpgpuWalker(w)) == StartWalk;
  }

  lemma CleanDescriptorLoad(length: uint32, start: uint32)
    ensures Clean(MediaInterfaceDescriptorLoad(length, start))
  {
    OperationOfGfx(MediaInterfaceDescriptorLoad(length, start), 4, 2, 2, 0, 2);
    hide Gfx;
    assert OperationOf(MediaInterfaceDescriptorLoad(length, start)) == LoadDescriptors;
  }

  lemma CleanNothing(flags: uint32, address: nat, tag: uint32)
    ensures Clean(PipeControl(flags)) && Clean(MediaStateFlush()) && Clean(BatchBufferEnd()) && Clean(BatchBufferStart(address))
    ensures flags + WRITE_IMMEDIATE < TWO_32 ==> Clean(PipeControlWrite(flags, address, tag))
  {
    GfxHeader(4, 0, 2, 3);
    GfxHeader(0, 4, 0, 2);
    MiHeader(0, 0xa);
    MiHeader(0x101, 0x31);
    hide Gfx, Mi, FieldAt, Low, High;
  }

  lemma CounterGaps(t: nat, s: nat)
    requires t < 0x40 && s < 4
    ensures var d := t + s * 0x4000_0000; d / 0x40 % 4 == 0 && d / 0x4000 % 4 == 0 && d / 0x40_0000 % 0x100 == 0
  {
  }

  lemma PlaceGap(q: nat)
    ensures q * 0x40 % 0x40 == 0
  {
    DivModUnique(0x40 * q, 0x40, q, 0);
  }
}
