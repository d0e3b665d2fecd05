/** The commands one launch appends to its two streams, and what the command streamer makes of them. */
module LaunchStream {
  import opened Options
  import opened Bits
  import opened Words
  import opened DriverUtils
  import opened Commands

  /** What the task stream is told: the interface descriptor's place, the walk, and the tag to write. */
  datatype Task = Task(descriptorStart: uint32, walk: Walk, tagAddress: nat, tag: uint32)

  /** `createCommandStreamTask`. */
  function TaskCommands(t: Task): seq<Command>
  {
    [ MediaStateFlush(),
      MediaInterfaceDescriptorLoad(32, t.descriptorStart),
      GpgpuWalker(t.walk),
      MediaStateFlush(),
      PipeControl(CS_STALL),
      PipeControlWrite(CS_STALL + NOTIFY + DC_FLUSH, t.tagAddress, t.tag),
      BatchBufferEnd() ]
  }

  /** What the receiver stream is told. */
  datatype Receiver = Receiver(usesSharedLocalMemory: bool, preemptionAddress: nat, maxVfeThreads: nat,
                               scratchPerThread: nat, hasScratch: bool, bases: Bases, sip: nat)

  /** `createCommandStreamReceiver`, with the jump to the task at the end. */
  function ReceiverCommands(r: Receiver, taskAddress: nat): seq<Command>
  {
    [ PipelineSelect(),
      LoadRegisterImm(0x7034, if r.usesSharedLocalMemory then 0x6000_0321 else 0x8000_0340),
      PipeControl(CS_STALL),
      LoadRegisterImm(0xe404, 0x100),
      GpgpuCsrBaseAddress(r.preemptionAddress),
      PipeControl(CS_STALL + RENDER_TARGET_FLUSH + DEPTH_FLUSH + DC_FLUSH),
      MediaVfeState(r.maxVfeThreads, r.scratchPerThread, r.hasScratch),
      LoadRegisterImm(0x2580, 0x6_0000),
      PipeControl(CS_STALL + TEXTURE_INVALIDATE + DC_FLUSH),
      StateBaseAddress(r.bases),
      StateSip(r.sip),
      PipeControl(CS_STALL),
      BatchBufferStart(taskAddress) ]
  }

  /** The address arithmetic the launch relies on: dword-aligned and below the 48-bit limit. */
  predicate GoodAddresses(t: Task, taskAddress: nat)
  {
    taskAddress % 4 == 0 && taskAddress < TWO_48 && t.tagAddress % 4 == 0 && t.tagAddress < TWO_64
  }

  // ---------- every command parses as what it is ----------

  lemma TagWrite(t: Task)
    requires t.tagAddress % 4 == 0 && t.tagAddress < TWO_64
    ensures WriteOf(TaskCommands(t)[5]) == Some((t.tagAddress, t.tag))
  {
    hide WriteOf, PipeControlWrite;
    WriteReadsBack(t.tagAddress, t.tag);
  }

  lemma WriteReadsBack(address: nat, tag: uint32)
    requires address % 4 == 0 && address < TWO_64
    ensures WriteOf(PipeControlWrite(CS_STALL + NOTIFY + DC_FLUSH, address, tag)) == Some((address, tag))
  {
    hide WellFormed, KindOf, FieldAt, High, Gfx;
    WriteHeader(address, tag);
    SplitTagAddress(address);
  }

  /** The two halves of a dword-aligned address, as the fields of the command carry them. */
  lemma SplitTagAddress(a: nat)
    requires a % 4 == 0 && a < TWO_64
    ensures var low: nat := FieldAt(a % TWO_32 / 4, 4, 0x4000_0000);
            low < TWO_32 && low / 4 * 4 + TWO_32 * High(a) == a
  {
    var q := a / 4;
    assert a == 4 * q;
    var h, r := q / 0x4000_0000, q % 0x4000_0000;
    DivModUnique(a, TWO_32, h, 4 * r);
    DivModUnique(4 * r, 4, r, 0);
  }

  /** A command that is not a jump, an end, a walker or a memory write. */
  predicate Quiet(c: Command) { Plain(c) && !IsWalker(c) && WriteOf(c) == None }

  lemma QuietPipe(flags: uint32)
    requires flags / 0x4000 % 4 == 0
    ensures Quiet(PipeControl(flags))
  {
    GfxHeader(4, 0, 2, 3);
    hide Gfx;
  }

  lemma QuietStall()
    ensures Quiet(PipeControl(CS_STALL))
  {
    QuietPipe(CS_STALL);
  }

  lemma QuietFlushes()
    ensures Quiet(PipeControl(CS_STALL + RENDER_TARGET_FLUSH + DEPTH_FLUSH + DC_FLUSH))
    ensures Quiet(PipeControl(CS_STALL + TEXTURE_INVALIDATE + DC_FLUSH))
  {
    QuietPipe(0x10_1021);
    QuietPipe(0x10_0420);
  }

  lemma QuietSetup(register: nat, data: uint32, address: nat, pointer: nat)
    ensures Quiet(PipelineSelect()) && Quiet(LoadRegisterImm(register, data))
    ensures Quiet(GpgpuCsrBaseAddress(address)) && Quiet(StateSip(pointer))
  {
    GfxHeader(1, 4, 1, 0);
    GfxHeader(1, 2, 1, 0);
    MiHeader(1, 0x22);
    hide Gfx, Mi;
  }

  lemma QuietVfe(maxThreads: nat, scratchPerThread: nat, hasScratch: bool)
    ensures Quiet(MediaVfeState(maxThreads, scratchPerThread, hasScratch))
  {
    GfxHeader(7, 0, 0, 2);
    hide Gfx, FieldAt;
  }

  lemma QuietBases(b: Bases)
    ensures Quiet(StateBaseAddress(b))
  {
    GfxHeader(0x11, 1, 1, 0);
    hide BaseField, SizeField, Gfx, FieldAt;
  }

  lemma TaskHeaders(t: Task)
    ensures var cs := TaskCommands(t);
            && |cs| == 7 && (forall i | 0 <= i < 6 :: Plain(cs[i]))
            && WellFormed(cs[6]) && KindOf(cs[6]) == End
            && cs[2] == GpgpuWalker(t.walk) && IsWalker(cs[2]) && (forall i | 0 <= i < 7 && i != 2 :: !IsWalker(cs[i]))
            && (forall i | 0 <= i < 7 && i != 5 :: WriteOf(cs[i]) == None)
  {
    var cs := TaskCommands(t);
    QuietStall();
    QuietFlush();
    QuietMedia(t.descriptorStart);
    WalkerHeader(t.walk);
    WriteHeader(t.tagAddress, t.tag);
    EndHeader();
    hide Plain, WellFormed, KindOf, IsWalker, WriteOf, MediaStateFlush, MediaInterfaceDescriptorLoad, GpgpuWalker,
         PipeControl, PipeControlWrite, BatchBufferEnd;
    assert cs[0] == cs[3] == MediaStateFlush() && cs[1] == MediaInterfaceDescriptorLoad(32, t.descriptorStart);
    assert cs[2] == GpgpuWalker(t.walk) && cs[4] == PipeControl(CS_STALL) && cs[6] == BatchBufferEnd();
    assert cs[5] == PipeControlWrite(CS_STALL + NOTIFY + DC_FLUSH, t.tagAddress, t.tag);
  }

  lemma QuietFlush()
    ensures Quiet(MediaStateFlush())
  {
    GfxHeader(0, 4, 0, 2);
    hide Gfx;
  }

  lemma QuietMedia(start: uint32)
    ensures Quiet(MediaInterfaceDescriptorLoad(32, start))
  {
    GfxHeader(2, 2, 0, 2);
    hide Gfx;
  }

  lemma WalkerHeader(w: Walk)
    ensures Plain(GpgpuWalker(w)) && IsWalker(GpgpuWalker(w)) && WriteOf(GpgpuWalker(w)) == None
  {
    GfxHeader(0xd, 5, 1, 2);
    hide Gfx, FieldAt, Low;
  }

  lemma WriteHeader(address: nat, tag: uint32)
    ensures var c := PipeControlWrite(CS_STALL + NOTIFY + DC_FLUSH, address, tag);
            Plain(c) && KindOf(c) == Pipe && !IsWalker(c)
  {
    GfxHeader(4, 0, 2, 3);
    hide Gfx, FieldAt, High;
  }

  lemma EndHeader()
    ensures var c := BatchBufferEnd(); WellFormed(c) && KindOf(c) == End && !IsWalker(c) && WriteOf(c) == None
  {
    MiHeader(0, 0xa);
    hide Mi;
  }

  lemma JumpHeader(address: nat)
    ensures var c := BatchBufferStart(address);
            WellFormed(c) && KindOf(c) == Jump && |c| == 3 && !IsWalker(c) && WriteOf(c) == None
  {
    MiHeader(0x101, 0x31);
    hide Mi, Low, High;
  }

  lemma ReceiverFirstHalf(r: Receiver, taskAddress: nat)
    ensures var cs := ReceiverCommands(r, taskAddress);
            Quiet(cs[0]) && Quiet(cs[1]) && Quiet(cs[2]) && Quiet(cs[3]) && Quiet(cs[4]) && Quiet(cs[5])
  {
    hide Quiet, PipelineSelect, LoadRegisterImm, PipeControl, GpgpuCsrBaseAddress, MediaVfeState, StateBaseAddress,
         StateSip, BatchBufferStart;
    QuietSetup(0x7034, if r.usesSharedLocalMemory then 0x6000_0321 else 0x8000_0340, r.preemptionAddress, r.sip);
    QuietSetup(0xe404, 0x100, 0, 0);
    QuietStall();
    QuietFlushes();
  }

  lemma ReceiverSecondHalf(r: Receiver, taskAddress: nat)
    ensures var cs := ReceiverCommands(r, taskAddress);
            && Quiet(cs[6]) && Quiet(cs[7]) && Quiet(cs[8]) && Quiet(cs[9]) && Quiet(cs[10]) && Quiet(cs[11])
            && |cs| == 13 && cs[12] == BatchBufferStart(taskAddress)
  {
    hide Quiet, PipelineSelect, LoadRegisterImm, PipeControl, GpgpuCsrBaseAddress, MediaVfeState, StateBaseAddress,
         StateSip, BatchBufferStart;
    QuietVfe(r.maxVfeThreads, r.scratchPerThread, r.hasScratch);
    QuietSetup(0x2580, 0x6_0000, 0, r.sip);
    QuietStall();
    QuietFlushes();
    QuietBases(r.bases);
  }

  lemma ReceiverHeaders(r: Receiver, taskAddress: nat)
    ensures var cs := ReceiverCommands(r, taskAddress);
            && |cs| == 13 && cs[12] == BatchBufferStart(taskAddress)
            && (forall i | 0 <= i < 12 :: Quiet(cs[i]))
            && WellFormed(cs[12]) && KindOf(cs[12]) == Jump && |cs[12]| == 3
            && !IsWalker(cs[12]) && WriteOf(cs[12]) == None
  {
    hide ReceiverCommands, Quiet, WellFormed, KindOf, IsWalker, WriteOf, BatchBufferStart;
    ReceiverFirstHalf(r, taskAddress);
    ReceiverSecondHalf(r, taskAddress);
    JumpHeader(taskAddress);
  }

  lemma JumpGoesToTask(taskAddress: nat)
    requires taskAddress % 4 == 0 && taskAddress < TWO_48
    ensures Target(BatchBufferStart(taskAddress)) == taskAddress
  {
    hide Mi;
    var q := taskAddress / 4;
    assert taskAddress == 4 * q;
    var h, r := q / 0x4000_0000, q % 0x4000_0000;
    DivModUnique(taskAddress, TWO_32, h, 4 * r);
    DivModUnique(4 * r, 4, r, 0);
    DivModUnique(taskAddress, TWO_48, 0, taskAddress);
    assert Low(taskAddress) == 4 * r && High(taskAddress) == h;
    hide Low, High;
  }

  // ---------- executing a launch ----------

  /** The commands a launch should execute, and where they lie. */
  function LaunchTrace(r: Receiver, t: Task, receiverAt: nat, taskAt: nat): seq<Executed>
  {
    Placed(ReceiverCommands(r, taskAt), receiverAt) + Placed(TaskCommands(t), taskAt)
  }

  lemma {:induction false} PlacedCommands(cs: seq<Command>, a: nat)
    ensures |Placed(cs, a)| == |cs| && forall i | 0 <= i < |cs| :: Placed(cs, a)[i].command == cs[i]
  {
    if cs != [] { PlacedCommands(cs[1..], a + 4 * |cs[0]|); }
  }

  lemma {:induction false} PlacedSplit(xs: seq<Command>, c: Command, a: nat)
    ensures Flatten(xs + [c]) == Flatten(xs) + c
    ensures Placed(xs + [c], a) == Placed(xs, a) + [Executed(a + 4 * |Flatten(xs)|, c)]
  {
    if xs == [] {
      assert [] + [c] == [c];
      FirstOf(c, [], a);
      assert c + [] == c;
    } else {
      PlacedSplit(xs[1..], c, a + 4 * |xs[0]|);
      assert xs + [c] == [xs[0]] + (xs[1..] + [c]) && xs == [xs[0]] + xs[1..];
      FirstOf(xs[0], xs[1..] + [c], a);
      FirstOf(xs[0], xs[1..], a);
    }
  }

  /** A list whose last command is a jump or an end runs through to it. */
  lemma RunList(m: Memory, a: nat, cs: seq<Command>, trace: seq<Executed>)
    requires cs != [] && Holds(m, a, Flatten(cs)) && forall i | 0 <= i < |cs| - 1 :: Plain(cs[i])
    requires var c := cs[|cs| - 1]; WellFormed(c) && (KindOf(c) == End || (KindOf(c) == Jump && |c| == 3))
    ensures var c, done := cs[|cs| - 1], trace + Placed(cs, a);
            Run(m, Running(a, trace), |cs|) == if KindOf(c) == End then Stopped(done) else Running(Target(c), done)
  {
    hide Step, Holds, Plain, WellFormed, KindOf, Flatten, Placed, Fetch;
    var k := |cs| - 1;
    var c := cs[k];
    var last := a + 4 * |Flatten(cs[..k])|;
    assert Holds(m, last, c) && Run(m, Running(a, trace), k) == Running(last, trace + Placed(cs[..k], a)) by {
      RunPlain(m, a, cs, trace, k);
      assert cs[k..] == [c];
      OnlyCommand(c);
    }
    assert cs == cs[..k] + [c];
    PlacedSplit(cs[..k], c, a);
    StepCommand(m, last, c, trace + Placed(cs[..k], a));
    assert trace + Placed(cs[..k], a) + [Executed(last, c)] == trace + Placed(cs, a);
  }

  lemma OnlyCommand(c: Command)
    ensures Flatten([c]) == c
  {
    assert c + [] == c;
  }

  /** From a launch's receiver commands, the streamer executes exactly that launch's commands, in twenty
      steps, and stops. */
  lemma LaunchExecutes(m: Memory, r: Receiver, t: Task, receiverAt: nat, taskAt: nat)
    requires GoodAddresses(t, taskAt)
    requires Holds(m, receiverAt, Flatten(ReceiverCommands(r, taskAt))) && Holds(m, taskAt, Flatten(TaskCommands(t)))
    ensures Run(m, Running(receiverAt, []), 20) == Stopped(LaunchTrace(r, t, receiverAt, taskAt))
  {
    var receiver, task := ReceiverCommands(r, taskAt), TaskCommands(t);
    var first := Placed(receiver, receiverAt);
    assert |task| == 7;
    assert forall i | 0 <= i < 12 :: Quiet(receiver[i]) ==> Plain(receiver[i]);
    hide Run, Flatten, Placed, Holds, ReceiverCommands, TaskCommands, Plain, Quiet, WellFormed, KindOf, Target, WriteOf, IsWalker;
    ReceiverHeaders(r, taskAt);
    TaskHeaders(t);
    JumpGoesToTask(taskAt);
    RunList(m, receiverAt, receiver, []);
    assert [] + first == first;
    RunList(m, taskAt, task, first);
    RunSplit(m, Running(receiverAt, []), 13, 7);
  }

  // ---------- a launch cut short ----------

  /** What a step adds: at most one command at the end of the trace. */
  lemma {:induction false} RunGrows(m: Memory, s: Streamer, n: nat, k: nat)
    ensures Run(m, s, n).trace <= Run(m, s, n + k).trace
    ensures |Run(m, s, n + k).trace| <= |Run(m, s, n).trace| + k
  {
    hide Run, Step;
    if k > 0 {
      RunGrows(m, s, n, k - 1);
      RunLast(m, s, n + k - 1);
      StepGrows(m, Run(m, s, n + k - 1));
    }
  }

  lemma StepGrows(m: Memory, s: Streamer)
    ensures s.trace <= Step(m, s).trace && |Step(m, s).trace| <= |s.trace| + 1
  {
    hide Fetch, Classify, FetchMany;
  }

  /** Stopped after n commands (a hang, a reset), the streamer has executed the first n of the launch. */
  lemma PartialLaunch(m: Memory, r: Receiver, t: Task, receiverAt: nat, taskAt: nat, n: nat)
    requires GoodAddresses(t, taskAt)
    requires Holds(m, receiverAt, Flatten(ReceiverCommands(r, taskAt))) && Holds(m, taskAt, Flatten(TaskCommands(t)))
    ensures var all := LaunchTrace(r, t, receiverAt, taskAt);
            && |all| == 20
            && Run(m, Running(receiverAt, []), n).trace == all[..if n < 20 then n else 20]
  {
    hide Step, Holds, Flatten, GoodAddresses, ReceiverCommands, TaskCommands, LaunchTrace, Placed;
    var s, all := Running(receiverAt, []), LaunchTrace(r, t, receiverAt, taskAt);
    LaunchExecutes(m, r, t, receiverAt, taskAt);
    LaunchLength(r, t, receiverAt, taskAt);
    if n < 20 {
      RunGrows(m, s, n, 20 - n);
      RunGrows(m, s, 0, n);
    } else {
      RunSplit(m, s, 20, n - 20);
      StoppedStays(m, all, n - 20);
    }
  }

  /** The commands of a launch by position: thirteen for the receiver, seven for the task. */
  lemma LaunchLength(r: Receiver, t: Task, receiverAt: nat, taskAt: nat)
    ensures var all := LaunchTrace(r, t, receiverAt, taskAt);
            && |all| == 20
            && (forall i | 0 <= i < 13 :: all[i].command == ReceiverCommands(r, taskAt)[i])
            && (forall i | 13 <= i < 20 :: all[i].command == TaskCommands(t)[i - 13])
  {
    PlacedCommands(ReceiverCommands(r, taskAt), receiverAt);
    PlacedCommands(TaskCommands(t), taskAt);
    assert |ReceiverCommands(r, taskAt)| == 13 && |TaskCommands(t)| == 7;
    hide Placed, ReceiverCommands, TaskCommands;
  }

  /** The first n commands of a launch write the tag exactly when they reach the nineteenth, and walk once
      exactly when they reach the sixteenth. */
  lemma LaunchEffects(r: Receiver, t: Task, receiverAt: nat, taskAt: nat, n: nat, before: nat)
    requires GoodAddresses(t, taskAt) && n <= 20
    ensures |LaunchTrace(r, t, receiverAt, taskAt)| == 20
    ensures var trace := LaunchTrace(r, t, receiverAt, taskAt)[..n];
            && ValueAfter(trace, t.tagAddress, before) == (if n >= 19 then t.tag else before)
            && Walkers(trace) == (if n >= 16 then [GpgpuWalker(t.walk)] else [])
  {
    hide LaunchTrace, ReceiverCommands, TaskCommands, IsWalker, WriteOf, GpgpuWalker, WellFormed, KindOf;
    var all := LaunchTrace(r, t, receiverAt, taskAt);
    LaunchLength(r, t, receiverAt, taskAt);
    CommandEffects(r, t, taskAt);
    var trace := all[..n];
    forall i | 0 <= i < n
      ensures i != 18 ==> WriteOf(trace[i].command) == None
      ensures i == 18 ==> WriteOf(trace[i].command) == Some((t.tagAddress, t.tag))
      ensures i != 15 ==> !IsWalker(trace[i].command)
      ensures i == 15 ==> IsWalker(trace[i].command) && trace[i].command == GpgpuWalker(t.walk)
    {
    }
    WriteAtEnd(trace, 18, t.tagAddress, t.tag, before);
    WalkAtEnd(trace, 15);
  }

  lemma CommandEffects(r: Receiver, t: Task, taskAt: nat)
    requires t.tagAddress % 4 == 0 && t.tagAddress < TWO_64
    ensures var cs := ReceiverCommands(r, taskAt);
            |cs| == 13 && forall i | 0 <= i < 13 :: WriteOf(cs[i]) == None && !IsWalker(cs[i])
    ensures var cs := TaskCommands(t);
            && |cs| == 7 && cs[2] == GpgpuWalker(t.walk) && WriteOf(cs[5]) == Some((t.tagAddress, t.tag))
            && forall i | 0 <= i < 7 :: (i != 5 ==> WriteOf(cs[i]) == None) && (IsWalker(cs[i]) <==> i == 2)
  {
    hide ReceiverCommands, TaskCommands, IsWalker, WriteOf, Plain, WellFormed, KindOf;
    ReceiverHeaders(r, taskAt);
    TaskHeaders(t);
    TagWrite(t);
  }

  /** A trace whose only write is its k-th command. */
  lemma WriteAtEnd(trace: seq<Executed>, k: nat, address: nat, value: uint32, before: nat)
    requires forall i | 0 <= i < |trace| && i != k :: WriteOf(trace[i].command) == None
    requires k < |trace| ==> WriteOf(trace[k].command) == Some((address, value))
    ensures ValueAfter(trace, address, before) == if k < |trace| then value else before
  {
    if k < |trace| {
      NoWriteFrom(trace, k + 1, address, before);
      assert trace[..k + 1][|trace[..k + 1]| - 1] == trace[k];
    } else {
      NoWriteFrom(trace, 0, address, before);
    }
  }

  /** A trace whose only walker is its k-th command. */
  lemma WalkAtEnd(trace: seq<Executed>, k: nat)
    requires forall i | 0 <= i < |trace| :: IsWalker(trace[i].command) <==> i == k
    ensures Walkers(trace) == if k < |trace| then [trace[k].command] else []
  {
    if k < |trace| {
      NoWalkerFrom(trace, k + 1);
      var front := trace[..k + 1];
      assert front[k] == trace[k] && front[..k] == trace[..k];
      NoWalkerFrom(front[..k], 0);
    } else {
      NoWalkerFrom(trace, 0);
    }
  }
}
