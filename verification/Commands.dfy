/** The GPU commands of `driver/commandsGen9.h` as dwords, and a command streamer that executes them.

    Commands are built field by field as the driver's packed structures lay them out.  The streamer knows
    nothing of the driver: it reads a header dword, derives the command's kind and length from it, and
    follows batch-buffer jumps until the end command.
 */
module Commands {
  import opened Options
  import opened Words
  import opened DriverUtils
  import opened Bits

  type Command = seq<uint32>

  /** A bitfield that starts at bit position log2(unit) and is log2(span) bits wide. */
  function FieldAt(value: nat, unit: nat, span: nat): nat
    requires span >= 1
  {
    value % span * unit
  }

  /** Low and high dword of a 64-bit field. */
  function Low(v: nat): uint32 { v % TWO_32 }
  function High(v: nat): uint32 { v / TWO_32 % TWO_32 }

  // ---------- headers ----------

  /** Header of a render or media command. */
  function Gfx(length: nat, subOpcode: nat, opcode: nat, pipeline: nat): uint32
    requires length < 0x1_0000 && subOpcode < 0x100 && opcode < 8 && pipeline < 4
  {
    length + 0x1_0000 * subOpcode + 0x100_0000 * opcode + 0x800_0000 * pipeline + 0x2000_0000 * 3
  }

  /** Header of a memory-interface command. */
  function Mi(length: nat, opcode: nat): uint32
    requires length < 0x80_0000 && opcode < 0x40
  {
    length + 0x80_0000 * opcode
  }

  // ---------- the task stream's commands ----------

  function MediaStateFlush(): Command { [Gfx(0, 4, 0, 2), 0] }

  function MediaInterfaceDescriptorLoad(totalLength: uint32, start: uint32): Command
  {
    [Gfx(2, 2, 0, 2), 0, totalLength % 0x2_0000, start]
  }

  /** What the walker command is told about a launch. */
  datatype Walk = Walk(indirectLength: nat, indirectStart: nat, threads: nat, groupsX: nat, groupsY: nat, groupsZ: nat,
                       rightMask: nat, simdSize: nat)

  function GpgpuWalker(w: Walk): (c: Command)
    ensures |c| == 15
  {
    [ Gfx(0xd, 5, 1, 2), 0,
      FieldAt(w.indirectLength, 1, 0x2_0000),
      FieldAt(w.indirectStart / 0x40, 0x40, 0x400_0000),
      FieldAt((w.threads + TWO_32 - 1) % TWO_32, 1, 0x40)
      + FieldAt(if w.simdSize == 1 then 2 else w.simdSize / 0x10, 0x4000_0000, 4),
      0, 0, Low(w.groupsX), 0, 0, Low(w.groupsY), 0, Low(w.groupsZ), Low(w.rightMask), 0xffff_ffff ]
  }

  const CS_STALL := 0x10_0000
  const NOTIFY := 0x100
  const DC_FLUSH := 0x20
  const DEPTH_FLUSH := 1
  const RENDER_TARGET_FLUSH := 0x1000
  const TEXTURE_INVALIDATE := 0x400
  const WRITE_IMMEDIATE := 0x4000

  function PipeControl(flags: uint32): Command { [Gfx(4, 0, 2, 3), flags, 0, 0, 0, 0] }

  /** A pipe control that also writes a tag to memory once everything before it has finished. */
  function PipeControlWrite(flags: uint32, address: nat, tag: uint32): Command
    requires flags + WRITE_IMMEDIATE < TWO_32
  {
    [Gfx(4, 0, 2, 3), flags + WRITE_IMMEDIATE, FieldAt(address % TWO_32 / 4, 4, 0x4000_0000), High(address), tag, 0]
  }

  function BatchBufferEnd(): Command { [Mi(0, 0xa)] }

  // ---------- the command-streamer stream's commands ----------

  function PipelineSelect(): Command
  {
    [2 + 0x10 * 1 + 0x100 * 0x13 + 0x1_0000 * 4 + 0x100_0000 * 1 + 0x800_0000 * 1 + 0x2000_0000 * 3]
  }

  function LoadRegisterImm(register: nat, data: uint32): Command
  {
    [Mi(1, 0x22), FieldAt(register / 4, 4, 0x20_0000), data]
  }

  function GpgpuCsrBaseAddress(address: nat): Command
  {
    [Gfx(1, 4, 1, 0), Low(address / 0x1000 * 0x1000), High(address)]
  }

  function MediaVfeState(maxThreads: nat, scratchPerThread: nat, hasScratch: bool): Command
  {
    [ Gfx(7, 0, 0, 2),
      FieldAt(scratchPerThread, 1, 0x10) + FieldAt(scratchPerThread, 0x10, 0x10)
      + (if hasScratch then FieldAt(0x1000 / 0x400, 0x400, 0x40_0000) else 0),
      0, FieldAt(1, 0x100, 0x100) + FieldAt((maxThreads + TWO_32 - 1) % TWO_32, 0x1_0000, 0x1_0000),
      0, FieldAt(0x782, 0x1_0000, 0x1_0000), 0, 0, 0 ]
  }

  /** The base addresses a launch programs; sizes are in pages or surface states. */
  datatype Bases = Bases(general: nat, surface: nat, dynamicState: nat, indirect: nat, instruction: nat,
                         dynamicPages: nat, bindlessStates: nat)

  /** A base-address field: modify-enable, caching index, and the page number from bit 12 on. */
  function BaseField(address: nat, caching: nat): (uint32, uint32)
    requires caching < 0x40
  {
    (Low(address / 0x1000 * 0x1000) / 0x1000 * 0x1000 + 0x20 * caching + 1, High(address))
  }

  function SizeField(pages: nat): uint32 { 1 + FieldAt(pages, 0x1000, 0x10_0000) }

  const CONTROLLED := 0
  const AGGRESSIVE := 2
  const PAGES_OF_4GB: nat := 0xf_ffff

  function StateBaseAddress(b: Bases): Command
  {
    var general, surface := BaseField(b.general, CONTROLLED), BaseField(b.surface, CONTROLLED);
    var dynamicState, indirect := BaseField(b.dynamicState, CONTROLLED), BaseField(b.indirect, CONTROLLED);
    var instruction := BaseField(b.instruction, AGGRESSIVE);
    [ Gfx(0x11, 1, 1, 0), general.0, general.1, 0x2_0000 * AGGRESSIVE, surface.0, surface.1,
      dynamicState.0, dynamicState.1, indirect.0, indirect.1, instruction.0, instruction.1,
      SizeField(0xf_ffff), SizeField(b.dynamicPages), SizeField(PAGES_OF_4GB), SizeField(PAGES_OF_4GB),
      surface.0, surface.1, FieldAt(b.bindlessStates, 0x1000, 0x10_0000) ]
  }

  function StateSip(pointer: nat): Command
  {
    [Gfx(1, 2, 1, 0), Low(pointer / 0x10 * 0x10), High(pointer)]
  }

  /** A jump in the process's own address space; the address field holds bits 2 to 47. */
  function BatchBufferStart(address: nat): Command
  {
    var field := address / 4 * 4 % TWO_48;
    [Mi(1 + 0x100, 0x31), Low(field), High(field)]
  }

  // ---------- the hardware's view ----------

  datatype Kind = Noop | End | Jump | Walker | Pipe | Other

  /** Kind and length in dwords of the command with header h. */
  function Classify(h: uint32): Option<(Kind, nat)>
  {
    var clientType := h / 0x2000_0000;
    if clientType == 0 then
      var opcode := h / 0x80_0000 % 0x40;
      if opcode == 0 then Some((Noop, 1))
      else if opcode == 0xa then Some((End, 1))
      else if opcode == 0x31 then Some((Jump, h % 0x100 + 2))
      else if opcode == 0x22 then Some((Other, h % 0x100 + 2))
      else None
    else if clientType == 3 then
      var pipeline, opcode, subOpcode := h / 0x800_0000 % 4, h / 0x100_0000 % 8, h / 0x1_0000 % 0x100;
      if pipeline == 1 then (if opcode == 1 && subOpcode == 4 then Some((Other, 1)) else None)
      else if pipeline == 2 then Some((if opcode == 1 && subOpcode == 5 then Walker else Other, h % 0x1_0000 + 2))
      else Some((if pipeline == 3 && opcode == 2 && subOpcode == 0 then Pipe else Other, h % 0x100 + 2))
    else None
  }

  /** The fields of a render or media header read back as they were written. */
  lemma GfxHeader(length: nat, subOpcode: nat, opcode: nat, pipeline: nat)
    requires length < 0x1_0000 && subOpcode < 0x100 && opcode < 8 && pipeline < 4
    ensures var h := Gfx(length, subOpcode, opcode, pipeline);
            && h / 0x2000_0000 == 3 && h / 0x800_0000 % 4 == pipeline && h / 0x100_0000 % 8 == opcode
            && h / 0x1_0000 % 0x100 == subOpcode && h % 0x1_0000 == length && h % 0x100 == length % 0x100
  {
    var h: int := Gfx(length, subOpcode, opcode, pipeline);
    var low16, low24 := length, length + 0x1_0000 * subOpcode;
    DivModUnique(h, 0x1_0000, subOpcode + 0x100 * (opcode + 8 * (pipeline + 4 * 3)), low16);
    DivModUnique(h / 0x1_0000, 0x100, opcode + 8 * (pipeline + 4 * 3), subOpcode);
    DivModUnique(h, 0x100_0000, opcode + 8 * (pipeline + 4 * 3), low24);
    DivModUnique(h / 0x100_0000, 8, pipeline + 4 * 3, opcode);
    DivModUnique(h, 0x800_0000, pipeline + 4 * 3, low24 + 0x100_0000 * opcode);
    DivModUnique(h / 0x800_0000, 4, 3, pipeline);
    DivModUnique(h, 0x2000_0000, 3, low24 + 0x100_0000 * opcode + 0x800_0000 * pipeline);
    DivModUnique(h, 0x100, length / 0x100 + 0x100 * (subOpcode + 0x100 * (opcode + 8 * (pipeline + 4 * 3))), length % 0x100);
  }

  lemma MiHeader(length: nat, opcode: nat)
    requires length < 0x80_0000 && opcode < 0x40
    ensures var h := Mi(length, opcode);
            h / 0x2000_0000 == 0 && h / 0x80_0000 % 0x40 == opcode && h % 0x100 == length % 0x100
  {
    var h: int := Mi(length, opcode);
    DivModUnique(h, 0x2000_0000, 0, h);
    DivModUnique(h, 0x80_0000, opcode, length);
    DivModUnique(h, 0x100, length / 0x100 + 0x8000 * opcode, length % 0x100);
  }

  /** A command as the streamer sees it: its header gives exactly its length. */
  predicate WellFormed(c: Command)
  {
    c != [] && Classify(c[0]).Some? && Classify(c[0]).value.1 == |c|
  }

  function KindOf(c: Command): Kind
    requires WellFormed(c)
  {
    Classify(c[0]).value.0
  }

  /** The target of a jump. */
  function Target(c: Command): nat
    requires |c| == 3
  {
    var low: int, high: int := c[1], c[2];
    (low / 4 * 4 + TWO_32 * high) % TWO_48
  }

  /** Memory the GPU may fetch from: the two pinned command buffers. */
  datatype Region = Region(base: nat, bytes: seq<byte>)
  datatype Memory = Memory(task: Region, csr: Region)

  predicate Inside(r: Region, a: nat) { r.base <= a && a + 4 <= r.base + |r.bytes| }

  function Fetch(m: Memory, a: nat): Option<uint32>
  {
    if Inside(m.task, a) then Some(U32At(m.task.bytes, a - m.task.base))
    else if Inside(m.csr, a) then Some(U32At(m.csr.bytes, a - m.csr.base))
    else None
  }

  /** The n dwords at address a. */
  function FetchMany(m: Memory, a: nat, n: nat): Option<Command>
  {
    if n == 0 then Some([])
    else
      match FetchMany(m, a, n - 1)
      case None => None
      case Some(c) =>
        match Fetch(m, a + 4 * (n - 1))
        case None => None
        case Some(d) => Some(c + [d])
  }

  /** An executed command and the address it was fetched from. */
  datatype Executed = Executed(at: nat, command: Command)

  /** The streamer: running at an address, stopped at an end command, or faulted. */
  datatype Streamer = Running(pc: nat, trace: seq<Executed>) | Stopped(trace: seq<Executed>) | Faulted(trace: seq<Executed>)

  function Step(m: Memory, s: Streamer): Streamer
  {
    match s
    case Running(pc, trace) =>
      (match Fetch(m, pc)
       case None => Faulted(trace)
       case Some(header) =>
         match Classify(header)
         case None => Faulted(trace)
         case Some((kind, length)) =>
           match FetchMany(m, pc, length)
           case None => Faulted(trace)
           case Some(c) =>
             var done := trace + [Executed(pc, c)];
             if kind == End then Stopped(done)
             else if kind == Jump && |c| == 3 then Running(Target(c), done)
             else Running(pc + 4 * length, done))
    case _ => s
  }

  function Run(m: Memory, s: Streamer, n: nat): Streamer
  {
    if n == 0 then s else Step(m, Run(m, s, n - 1))
  }

  lemma RunLast(m: Memory, s: Streamer, n: nat)
    ensures Run(m, s, n + 1) == Step(m, Run(m, s, n))
  {
    hide Step;
  }

  // ---------- running a list of commands ----------

  function Flatten(cs: seq<Command>): seq<uint32>
  {
    if cs == [] then [] else cs[0] + Flatten(cs[1..])
  }

  /** Commands placed one after the other from address a on. */
  function Placed(cs: seq<Command>, a: nat): seq<Executed>
  {
    if cs == [] then [] else [Executed(a, cs[0])] + Placed(cs[1..], a + 4 * |cs[0]|)
  }

  /** Memory holds these dwords from address a on. */
  ghost predicate Holds(m: Memory, a: nat, ds: seq<uint32>)
  {
    forall i | 0 <= i < |ds| :: Fetch(m, a + 4 * i) == Some(ds[i])
  }

  predicate Plain(c: Command) { WellFormed(c) && KindOf(c) != End && KindOf(c) != Jump }

  lemma {:induction false} FetchHeld(m: Memory, a: nat, c: Command, n: nat)
    requires Holds(m, a, c) && n <= |c|
    ensures FetchMany(m, a, n) == Some(c[..n])
  {
    if n > 0 {
      FetchHeld(m, a, c, n - 1);
      assert Fetch(m, a + 4 * (n - 1)) == Some(c[n - 1]);
      assert c[..n] == c[..n - 1] + [c[n - 1]];
    }
  }

  /** One step over a command that memory holds. */
  lemma StepCommand(m: Memory, a: nat, c: Command, trace: seq<Executed>)
    requires WellFormed(c) && Holds(m, a, c) && (KindOf(c) == Jump ==> |c| == 3)
    ensures var done := trace + [Executed(a, c)];
            Step(m, Running(a, trace)) ==
            match KindOf(c)
            case End => Stopped(done)
            case Jump => Running(Target(c), done)
            case _ => Running(a + 4 * |c|, done)
  {
    FetchHeld(m, a, c, |c|);
    assert c[..|c|] == c;
    assert Fetch(m, a + 4 * 0) == Some(c[0]);
  }

  lemma HoldsParts(m: Memory, a: nat, xs: seq<uint32>, ys: seq<uint32>)
    requires Holds(m, a, xs + ys)
    ensures Holds(m, a, xs) && Holds(m, a + 4 * |xs|, ys)
  {
    var zs := xs + ys;
    forall i | 0 <= i < |xs| ensures Fetch(m, a + 4 * i) == Some(xs[i]) { assert zs[i] == xs[i]; }
    forall i | 0 <= i < |ys| ensures Fetch(m, a + 4 * |xs| + 4 * i) == Some(ys[i]) {
      assert zs[|xs| + i] == ys[i];
      assert Fetch(m, a + 4 * (|xs| + i)) == Some(zs[|xs| + i]);
    }
  }

  lemma {:induction false} RunSplit(m: Memory, s: Streamer, i: nat, j: nat)
    ensures Run(m, s, i + j) == Run(m, Run(m, s, i), j)
  {
    hide Step;
    if j > 0 { RunSplit(m, s, i, j - 1); }
  }

  /** The first n of a list of plain commands that memory holds are executed one by one, in n steps. */
  lemma {:induction false} RunPlain(m: Memory, a: nat, cs: seq<Command>, trace: seq<Executed>, n: nat)
    requires n <= |cs| && Holds(m, a, Flatten(cs)) && forall i | 0 <= i < n :: Plain(cs[i])
    ensures Run(m, Running(a, trace), n) == Running(a + 4 * |Flatten(cs[..n])|, trace + Placed(cs[..n], a))
    ensures Holds(m, a + 4 * |Flatten(cs[..n])|, Flatten(cs[n..]))
    decreases n
  {
    hide Step, Plain, Holds, Fetch, KindOf, WellFormed;
    if n == 0 {
      assert cs[..0] == [] && cs[0..] == cs;
      assert trace + [] == trace;
    } else {
      var c, rest := cs[0], cs[1..];
      HoldsParts(m, a, c, Flatten(rest));
      assert Plain(cs[0]);
      var next := Running(a + 4 * |c|, trace + [Executed(a, c)]);
      assert Step(m, Running(a, trace)) == next by { StepPlain(m, a, c, trace); }
      forall i | 0 <= i < n - 1 ensures Plain(rest[i]) { assert rest[i] == cs[i + 1]; }
      RunPlain(m, a + 4 * |c|, rest, trace + [Executed(a, c)], n - 1);
      assert Run(m, Running(a, trace), n) == Run(m, next, n - 1) by {
        RunSplit(m, Running(a, trace), 1, n - 1);
        assert Run(m, Running(a, trace), 0) == Running(a, trace);
      }
      assert cs[..n] == [c] + rest[..n - 1];
      FirstOf(c, rest[..n - 1], a);
      assert cs[n..] == rest[n - 1..];
      assert trace + ([Executed(a, c)] + Placed(rest[..n - 1], a + 4 * |c|))
          == (trace + [Executed(a, c)]) + Placed(rest[..n - 1], a + 4 * |c|);
    }
  }

  lemma FirstOf(c: Command, rest: seq<Command>, a: nat)
    ensures Flatten([c] + rest) == c + Flatten(rest)
    ensures Placed([c] + rest, a) == [Executed(a, c)] + Placed(rest, a + 4 * |c|)
  {
    assert ([c] + rest)[1..] == rest;
  }

  lemma StepPlain(m: Memory, a: nat, c: Command, trace: seq<Executed>)
    requires Plain(c) && Holds(m, a, c)
    ensures Step(m, Running(a, trace)) == Running(a + 4 * |c|, trace + [Executed(a, c)])
  {
    hide Step, Holds, Fetch;
    StepCommand(m, a, c, trace);
  }

  lemma {:induction false} StoppedStays(m: Memory, trace: seq<Executed>, n: nat)
    ensures Run(m, Stopped(trace), n) == Stopped(trace)
  {
    if n > 0 { StoppedStays(m, trace, n - 1); }
  }

  // ---------- what executing commands does ----------

  /** The memory write of a pipe control with the write-immediate post-sync operation. */
  function WriteOf(c: Command): Option<(nat, uint32)>
  {
    if |c| == 6 && WellFormed(c) && KindOf(c) == Pipe && c[1] / 0x4000 % 4 == 1 then
      var low: int, high: int := c[2], c[3];
      Some((low / 4 * 4 + TWO_32 * high, c[4]))
    else None
  }

  /** The dword at one address after the commands of a trace. */
  function ValueAfter(trace: seq<Executed>, address: nat, before: nat): nat
  {
    if trace == [] then before
    else
      match WriteOf(trace[|trace| - 1].command)
      case Some((a, v)) => if a == address then v else ValueAfter(trace[..|trace| - 1], address, before)
      case None => ValueAfter(trace[..|trace| - 1], address, before)
  }

  lemma {:induction false} NoWriteFrom(trace: seq<Executed>, k: nat, address: nat, before: nat)
    requires k <= |trace| && forall i | k <= i < |trace| :: WriteOf(trace[i].command) == None
    ensures ValueAfter(trace, address, before) == ValueAfter(trace[..k], address, before)
  {
    if k < |trace| {
      var shorter := trace[..|trace| - 1];
      NoWriteFrom(shorter, k, address, before);
      assert shorter[..k] == trace[..k];
    } else {
      assert trace[..k] == trace;
    }
  }

  /** The walkers of a trace, in order. */
  function Walkers(trace: seq<Executed>): seq<Command>
  {
    if trace == [] then []
    else
      var r, c := Walkers(trace[..|trace| - 1]), trace[|trace| - 1].command;
      if IsWalker(c) then r + [c] else r
  }

  predicate IsWalker(c: Command) { WellFormed(c) && KindOf(c) == Walker }

  lemma {:induction false} NoWalkerFrom(trace: seq<Executed>, k: nat)
    requires k <= |trace| && forall i | k <= i < |trace| :: !IsWalker(trace[i].command)
    ensures Walkers(trace) == Walkers(trace[..k])
  {
    if k < |trace| {
      var shorter := trace[..|trace| - 1];
      NoWalkerFrom(shorter, k);
      assert shorter[..k] == trace[..k];
    } else {
      assert trace[..k] == trace;
    }
  }
}
