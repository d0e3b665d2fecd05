/** The kernel object: its decoded argument table, and the set/reset protocol through which argument values
    reach the cross-thread data and the surface states.
 */
module KernelArgs {
  import opened Options
  import opened Bits
  import opened Words
  import opened DriverUtils
  import opened PatchTokens

  datatype Code = Success | InvalidKernelArg

  /** A buffer an argument may point to; `authentic` is its magic number being right. */
  datatype Buffer = Buffer(authentic: bool, size: nat, gpuAddress: nat)

  /** What the `void*` of an argument points to: plain bytes, or a buffer object (or nothing). */
  datatype ArgumentValue = Bytes(bytes: seq<byte>) | BufferPointer(buffer: Option<Buffer>)

  // ---------- immediate arguments ----------

  /** The number of bytes of the value an element takes. */
  function ElementBytes(e: Element, argSize: nat): nat
  {
    if e.sourceOffset >= argSize then 0
    else if e.size < argSize - e.sourceOffset then e.size else argSize - e.sourceOffset
  }

  predicate ElementFits(e: Element, argSize: nat, length: nat)
  {
    e.crossThreadDataOffset + ElementBytes(e, argSize) <= length
  }

  predicate ElementsFit(elements: seq<Element>, argSize: nat, length: nat)
  {
    forall i | 0 <= i < |elements| :: ElementFits(elements[i], argSize, length)
  }

  /** The data after the elements have been copied in order. */
  function Scatter(data: seq<byte>, elements: seq<Element>, value: seq<byte>): (r: seq<byte>)
    requires ElementsFit(elements, |value|, |data|)
    ensures |r| == |data|
  {
    if elements == [] then data
    else
      var e := elements[|elements| - 1];
      var before := Scatter(data, elements[..|elements| - 1], value);
      assert ElementFits(e, |value|, |data|);
      if e.sourceOffset < |value| then
        Patch(before, e.crossThreadDataOffset, value[e.sourceOffset..e.sourceOffset + ElementBytes(e, |value|)])
      else before
  }

  lemma ScatterNothing(data: seq<byte>, elements: seq<Element>, value: seq<byte>)
    ensures elements[..0] == [] && elements[..|elements|] == elements && Scatter(data, [], value) == data
  {
  }

  /** One element more: the bytes it takes are copied, if there are any left. */
  lemma ScatterNext(data: seq<byte>, elements: seq<Element>, value: seq<byte>, i: nat)
    requires i < |elements| && ElementsFit(elements, |value|, |data|)
    ensures var e := elements[i];
            && ElementsFit(elements[..i + 1], |value|, |data|) && ElementsFit(elements[..i], |value|, |data|)
            && if e.sourceOffset < |value| then
                 var rest := |value| - e.sourceOffset;
                 var n := if e.size < rest then e.size else rest;
                 && e.crossThreadDataOffset + n <= |data|
                 && Scatter(data, elements[..i + 1], value)
                    == Patch(Scatter(data, elements[..i], value), e.crossThreadDataOffset,
                             value[e.sourceOffset..e.sourceOffset + n])
               else Scatter(data, elements[..i + 1], value) == Scatter(data, elements[..i], value)
  {
    assert elements[..i + 1][..i] == elements[..i];
    hide Patch;
    assert ElementFits(elements[i], |value|, |data|);
  }

  /** A place that an element takes a byte of the value to. */
  predicate Covers(e: Element, argSize: nat, at: nat)
  {
    && e.crossThreadDataOffset <= at < e.crossThreadDataOffset + e.size
    && e.sourceOffset + (at - e.crossThreadDataOffset) < argSize
  }

  /** No byte belongs to two elements. */
  ghost predicate DisjointElements(elements: seq<Element>, argSize: nat)
  {
    forall i, j, at: nat | 0 <= i < j < |elements| :: !(Covers(elements[i], argSize, at) && Covers(elements[j], argSize, at))
  }

  /** With disjoint elements, element i's bytes are those of the value from its source offset on. */
  lemma {:induction false} ScatterPlacesElement(data: seq<byte>, elements: seq<Element>, value: seq<byte>, i: nat, at: nat)
    requires ElementsFit(elements, |value|, |data|)
    requires DisjointElements(elements, |value|)
    requires i < |elements| && at < |data| && Covers(elements[i], |value|, at)
    ensures Scatter(data, elements, value)[at]
            == value[elements[i].sourceOffset + (at - elements[i].crossThreadDataOffset)]
    decreases |elements|
  {
    var shorter, e := elements[..|elements| - 1], elements[|elements| - 1];
    if i < |shorter| {
      assert !Covers(e, |value|, at);
      assert forall k | 0 <= k < |shorter| :: shorter[k] == elements[k];
      ScatterPlacesElement(data, shorter, value, i, at);
    }
  }

  /** A byte outside every element is unchanged (whether or not the elements are disjoint). */
  lemma {:induction false} ScatterKeepsTheRest(data: seq<byte>, elements: seq<Element>, value: seq<byte>, at: nat)
    requires ElementsFit(elements, |value|, |data|)
    requires at < |data| && forall k | 0 <= k < |elements| :: !Covers(elements[k], |value|, at)
    ensures Scatter(data, elements, value)[at] == data[at]
    decreases |elements|
  {
    if elements != [] {
      var shorter, e := elements[..|elements| - 1], elements[|elements| - 1];
      assert !Covers(e, |value|, at);
      assert forall k | 0 <= k < |shorter| :: shorter[k] == elements[k];
      ScatterKeepsTheRest(data, shorter, value, at);
    }
  }

  // ---------- buffer arguments ----------

  /** The 16 dwords of a buffer's RENDER_SURFACE_STATE. */
  function SurfaceState(bufferSize: nat, address: nat): (r: seq<uint32>)
    requires address < TWO_64
    ensures |r| == 16
  {
    var length := (bufferSize - 1) % TWO_32;
    [ 4 * 0x2000_0000 + 0x1ff * 0x4_0000 + 1 * 0x1_0000 + 1 * 0x4000,    // buffer, raw, alignments of 4
      2 * 0x200_0000,                                                   // memory object control state
      length % 0x80 + length / 0x80 % 0x4000 * 0x1_0000,                // width, height
      length / 0x20_0000 * 0x20_0000,                                   // depth
      0,
      1 * 0x4000,                                                       // coherent with the CPU
      0, 0,
      address % TWO_32, address / TWO_32,
      0, 0, 0, 0, 0, 0 ]
  }

  /** What the hardware reads back from a surface state: width, height and depth make up the length. */
  function SurfaceLength(s: seq<uint32>): nat
    requires |s| == 16
  {
    var sizes: int, depth: int := s[2], s[3];
    sizes % 0x4000 + 0x80 * (sizes / 0x1_0000 % 0x4000) + 0x20_0000 * (depth / 0x20_0000) + 1
  }

  function SurfaceAddress(s: seq<uint32>): nat
    requires |s| == 16
  {
    var low: int, high: int := s[8], s[9];
    low + TWO_32 * high
  }

  /** The surface state names the buffer's address, and its length exactly for 1 byte to 4 GiB; an empty buffer spans
      4 GiB, and of a larger one the length modulo 4 GiB is left. */
  lemma SurfaceRoundTrip(bufferSize: nat, address: nat)
    requires address < TWO_64
    ensures SurfaceAddress(SurfaceState(bufferSize, address)) == address
    ensures SurfaceLength(SurfaceState(bufferSize, address)) == (bufferSize - 1) % TWO_32 + 1
    ensures SurfaceLength(SurfaceState(bufferSize, address)) == bufferSize <==> 1 <= bufferSize <= TWO_32
  {
    var length := (bufferSize - 1) % TWO_32;
    LengthSplits(length);
    var s := SurfaceState(bufferSize, address);
    assert s[2] == length % 0x80 + length / 0x80 % 0x4000 * 0x1_0000 && s[3] == length / 0x20_0000 * 0x20_0000;
    hide SurfaceState;
  }

  lemma LengthSplits(length: uint32)
    ensures var w, h, d := length % 0x80, length / 0x80 % 0x4000, length / 0x20_0000;
            && length == w + 0x80 * h + 0x20_0000 * d
            && (w + h * 0x1_0000) % 0x4000 == w && (w + h * 0x1_0000) / 0x1_0000 == h
            && d * 0x20_0000 / 0x20_0000 == d
  {
    var q := length / 0x80;
    assert q / 0x4000 == length / 0x20_0000;
  }

  /** What the state describes: a raw buffer with alignments of four, cached as the driver wants and coherent with the
      CPU, and nothing else. */
  predicate RawBuffer(s: seq<uint32>)
    requires |s| == 16
  {
    && s[0] / 0x2000_0000 == 4 && s[0] / 0x800_0000 % 4 == 0 && s[0] / 0x4_0000 % 0x200 == 0x1ff
    && s[0] / 0x1_0000 % 4 == 1 && s[0] / 0x4000 % 4 == 1 && s[0] % 0x4000 == 0
    && s[1] / 0x200_0000 % 0x40 == 2 && s[1] / 0x8000_0000 == 0 && s[1] % 0x200_0000 == 0
    && s[2] / 0x4000 % 4 == 0 && s[2] / 0x4000_0000 == 0 && s[3] % 0x20_0000 == 0
    && s[5] / 0x4000 % 2 == 1 && s[5] % 0x4000 == 0 && s[5] / 0x8000 == 0
    && s[4] == s[6] == s[7] == s[10] == s[11] == s[12] == s[13] == s[14] == s[15] == 0
  }

  lemma StateIsRawBuffer(bufferSize: nat, address: nat)
    requires address < TWO_64
    ensures RawBuffer(SurfaceState(bufferSize, address))
  {
    var length := (bufferSize - 1) % TWO_32;
    SizesLeaveGaps(length % 0x80, length / 0x80 % 0x4000);
    DepthLeavesGap(length / 0x20_0000);
    var s := SurfaceState(bufferSize, address);
    assert s[0] == 0x87fd_4000 && s[1] == 0x400_0000 && s[5] == 0x4000;
    assert s[2] == length % 0x80 + length / 0x80 % 0x4000 * 0x1_0000 && s[3] == length / 0x20_0000 * 0x20_0000;
    hide SurfaceState;
  }

  lemma SizesLeaveGaps(w: nat, h: nat)
    requires w < 0x80 && h < 0x4000
    ensures (w + h * 0x1_0000) / 0x4000 % 4 == 0 && (w + h * 0x1_0000) / 0x4000_0000 == 0
  {
    DivModUnique(w + h * 0x1_0000, 0x4000, h * 4, w);
    DivModUnique(h * 4, 4, h, 0);
  }

  lemma DepthLeavesGap(d: nat)
    ensures d * 0x20_0000 % 0x20_0000 == 0
  {
    DivModUnique(0x20_0000 * d, 0x20_0000, d, 0);
  }

  /** Rounded up to dwords, a buffer's size is spanned by its surface exactly for 1 byte to 4 GiB. */
  lemma SpanIff(size: nat, length: nat)
    requires size < TWO_64 && length == (AlignUp(size, 4) - 1) % TWO_32 + 1
    ensures size <= length < size + 4 <==> 1 <= size <= TWO_32
    ensures size <= length < size + 4 ==> length % 4 == 0
  {
    hide AlignUp, Pow2, Ceil;
    assert Pow2(2) == 4 by { TwoBits(); }
    AlignUpRoundsUp(size, 2);
    CeilIsLeastMultiple(size, 4, TWO_32);
    SpanOf(size, AlignUp(size, 4), length);
  }

  lemma TwoBits()
    ensures Pow2(2) == 4
  {
    assert Pow2(0) == 1 && Pow2(1) == 2;
  }

  lemma SpanOf(size: nat, rounded: nat, length: nat)
    requires length == (rounded - 1) % TWO_32 + 1 && (size + 4 <= TWO_64 ==> size <= rounded < size + 4 && rounded % 4 == 0)
    requires (size <= TWO_32 ==> rounded <= TWO_32)
    ensures size <= length < size + 4 <==> 1 <= size <= TWO_32
    ensures size <= length < size + 4 ==> length % 4 == 0
  {
  }

  function U64Bytes(v: nat): seq<byte>
    requires v < TWO_64
  {
    U32Bytes(v % TWO_32) + U32Bytes(v / TWO_32)
  }

  /** They are the number's eight bytes, the low one first. */
  lemma BytesOfPointer(v: nat)
    requires v < TWO_64
    ensures |U64Bytes(v)| == 8 && forall j | 0 <= j < 8 :: U64Bytes(v)[j] == ByteOf(v, j)
  {
    hide U32Bytes, ByteOf;
    forall j | 0 <= j < 8 ensures U64Bytes(v)[j] == ByteOf(v, j)
    {
      BytesOfHalves(v, j);
      BytesOfDword(if j < 4 then v % TWO_32 else v / TWO_32, if j < 4 then j else j - 4);
    }
  }

  /** Eight such bytes are read as the number. */
  lemma PointerReadsBack(m: seq<byte>, p: nat, v: nat)
    requires v < TWO_64 && p + 8 <= |m| && forall j | 0 <= j < 8 :: m[p + j] == ByteOf(v, j)
    ensures U32At(m, p) + TWO_32 * U32At(m, p + 4) == v
  {
    hide ByteOf, U32At;
    forall j | 0 <= j < 8
      ensures ByteOf(v, j) == if j < 4 then ByteOf(v % TWO_32, j) else ByteOf(v / TWO_32, j - 4)
    {
      BytesOfHalves(v, j);
    }
    U32IsBytes(m, p, v % TWO_32);
    forall j | 0 <= j < 4 ensures m[p + 4 + j] == ByteOf(v / TWO_32, j) { assert m[p + (4 + j)] == ByteOf(v, 4 + j); }
    U32IsBytes(m, p + 4, v / TWO_32);
  }

  lemma PatchedPointer(m: seq<byte>, p: nat, v: nat)
    requires v < TWO_64 && p + 8 <= |m|
    ensures |U64Bytes(v)| == 8
    ensures U32At(Patch(m, p, U64Bytes(v)), p) + TWO_32 * U32At(Patch(m, p, U64Bytes(v)), p + 4) == v
  {
    hide U64Bytes, ByteOf, U32At;
    BytesOfPointer(v);
    PointerReadsBack(Patch(m, p, U64Bytes(v)), p, v);
  }

  /** A surface state in memory is read as a raw buffer of this size at this address. */
  predicate DescribesBuffer(s: seq<uint32>, bufferSize: nat, address: nat)
    requires |s| == 16
  {
    && RawBuffer(s) && SurfaceAddress(s) == address && SurfaceLength(s) == (bufferSize - 1) % TWO_32 + 1
  }

  lemma PatchedState(m: seq<byte>, p: nat, bufferSize: nat, address: nat)
    requires address < TWO_64 && p + 64 <= |m|
    ensures |DwordBytes(SurfaceState(bufferSize, address))| == 64
    ensures DescribesBuffer(DwordsAt(Patch(m, p, DwordBytes(SurfaceState(bufferSize, address))), p, 16), bufferSize, address)
  {
    hide SurfaceState, RawBuffer, SurfaceAddress, SurfaceLength, DwordBytes, DwordsAt;
    var s := SurfaceState(bufferSize, address);
    SurfaceRoundTrip(bufferSize, address);
    StateIsRawBuffer(bufferSize, address);
    var after := Patch(m, p, DwordBytes(s));
    assert after[p..p + 64] == DwordBytes(s);
    DwordsReadBack(after, p, s);
  }

  // ---------- the set/reset protocol ----------

  /** Per slot: no descriptor, or whether its argument is set. */
  type Flags = seq<Option<bool>>

  function FlagsOf(args: seq<Option<ArgDescriptor>>): (f: Flags)
    ensures |f| == |args|
  {
    seq(|args|, i requires 0 <= i < |args| => if args[i].None? then None else Some(args[i].value.argIsSet))
  }

  datatype Call = SetArgument(argIndex: nat) | ResetArguments

  /** Whether a call runs an argument handler, and the flags after it.  The handler's outcome does not
      matter: success and failure both leave the flag set. */
  predicate RunsHandler(f: Flags, c: Call) { c.SetArgument? && c.argIndex < |f| && f[c.argIndex] == Some(false) }

  function After(f: Flags, c: Call): (r: Flags)
    ensures |r| == |f|
  {
    match c
    case ResetArguments => seq(|f|, i requires 0 <= i < |f| => if f[i].None? then None else Some(false))
    case SetArgument(a) => if RunsHandler(f, c) then f[a := Some(true)] else f
  }

  function AfterAll(f: Flags, calls: seq<Call>): (r: Flags)
    ensures |r| == |f|
    decreases |calls|
  {
    if calls == [] then f else AfterAll(After(f, calls[0]), calls[1..])
  }

  /** How often the handler of one argument runs in a sequence of calls. */
  function HandlerRuns(f: Flags, calls: seq<Call>, a: nat): nat
    decreases |calls|
  {
    if calls == [] then 0
    else
      (if RunsHandler(f, calls[0]) && calls[0].argIndex == a then 1 else 0)
      + HandlerRuns(After(f, calls[0]), calls[1..], a)
  }

  /** Between two resets, the handler of an argument runs exactly once if the argument exists, was open and
      is set at least once, and never otherwise. */
  lemma {:induction false} OneRunBetweenResets(f: Flags, calls: seq<Call>, a: nat)
    requires ResetArguments !in calls
    ensures HandlerRuns(f, calls, a) ==
            if a < |f| && f[a] == Some(false) && SetArgument(a) in calls then 1 else 0
    decreases |calls|
  {
    if calls != [] {
      OneRunBetweenResets(After(f, calls[0]), calls[1..], a);
      assert calls == [calls[0]] + calls[1..];
    }
  }

  lemma ResetOpens(f: Flags)
    ensures !RunsHandler(f, ResetArguments)
    ensures forall i | 0 <= i < |f| :: After(f, ResetArguments)[i] == if f[i].None? then None else Some(false)
  {
  }

  lemma SlotsStay(f: Flags, c: Call)
    ensures forall i | 0 <= i < |f| :: After(f, c)[i].None? <==> f[i].None?
  {
  }

  /** Over any interleaving, the number of runs is the sum over the stretches between resets, and every
      reset opens all arguments that exist. */
  lemma {:induction false} ResetOpensEverything(f: Flags, before: seq<Call>, after: seq<Call>, a: nat)
    ensures var open := AfterAll(f, before + [ResetArguments]);
            && |open| == |f|
            && (forall i | 0 <= i < |f| :: open[i] == if f[i].None? then None else Some(false))
            && HandlerRuns(f, before + [ResetArguments] + after, a) == HandlerRuns(f, before, a) + HandlerRuns(open, after, a)
    decreases |before|
  {
    hide After, RunsHandler;
    var calls := before + [ResetArguments] + after;
    if before == [] {
      ResetOpens(f);
      assert calls[1..] == after;
      assert (before + [ResetArguments])[1..] == [];
    } else {
      SlotsStay(f, before[0]);
      ResetOpensEverything(After(f, before[0]), before[1..], after, a);
      assert calls[1..] == before[1..] + [ResetArguments] + after;
      assert (before + [ResetArguments])[1..] == before[1..] + [ResetArguments];
    }
  }

  // ---------- local-memory arguments ----------

  /** `alignUp` on the 32-bit local-memory offset; an alignment of zero yields zero. */
  function AlignSlm(slm: uint32, alignment: nat): uint32
    requires alignment < 0x1_0000
  {
    if alignment == 0 then 0 else AlignUp(slm, alignment) % TWO_32
  }

  /** The signed byte the driver reads as the argument's own offset, widened to 32 bits. */
  function SlmStart(b: byte): uint32 { if b < 0x80 then b else TWO_32 - 0x100 + b }

  /** The later arguments a local argument's size is propagated to. */
  predicate LocalsFit(args: seq<Option<ArgDescriptor>>, from: nat, length: nat)
  {
    forall j | from <= j < |args| ::
      args[j].Some? &&
      (args[j].value.ArgLocal? ==> args[j].value.crossThreadDataOffset + 4 <= length &&
                                   args[j].value.requiredSlmAlignment < 0x1_0000)
  }

  /** The offsets of the local arguments from index j on, written one after the other; and the last one. */
  function PlaceLocals(data: seq<byte>, args: seq<Option<ArgDescriptor>>, j: nat, slm: uint32): (r: (seq<byte>, uint32))
    requires LocalsFit(args, j, |data|)
    ensures |r.0| == |data|
    decreases |args| - j
  {
    if j >= |args| then (data, slm)
    else if !args[j].value.ArgLocal? then PlaceLocals(data, args, j + 1, slm)
    else
      var next := AlignSlm(slm, args[j].value.requiredSlmAlignment);
      PlaceLocals(Patch(data, args[j].value.crossThreadDataOffset, U32Bytes(next)), args, j + 1, next)
  }

  /** The offset that local argument i receives when placing starts at index j. */
  function LocalOffset(args: seq<Option<ArgDescriptor>>, j: nat, slm: uint32, i: nat): uint32
    requires j <= i < |args| && forall a | j <= a < |args| :: args[a].Some? && AlignmentOf(args, a) < 0x1_0000
    requires IsLocal(args, i)
    decreases i - j
  {
    if !IsLocal(args, j) then LocalOffset(args, j + 1, slm, i)
    else
      var next := AlignSlm(slm, AlignmentOf(args, j));
      if i == j then next else LocalOffset(args, j + 1, next, i)
  }

  predicate IsLocal(args: seq<Option<ArgDescriptor>>, i: nat)
    requires i < |args| && args[i].Some?
  {
    args[i].value.ArgLocal?
  }

  function AlignmentOf(args: seq<Option<ArgDescriptor>>, i: nat): nat
    requires i < |args| && args[i].Some?
  {
    if args[i].value.ArgLocal? then args[i].value.requiredSlmAlignment else 1
  }

  /** A later local argument whose place no still later one overwrites reads back its offset. */
  lemma {:induction false} LocalsArePlaced(data: seq<byte>, args: seq<Option<ArgDescriptor>>, j: nat, slm: uint32, i: nat)
    requires LocalsFit(args, j, |data|) && j <= i < |args| && IsLocal(args, i)
    requires forall a | i < a < |args| && IsLocal(args, a) ::
               var p, q := args[i].value.crossThreadDataOffset, args[a].value.crossThreadDataOffset; p + 4 <= q || q + 4 <= p
    ensures U32At(PlaceLocals(data, args, j, slm).0, args[i].value.crossThreadDataOffset) == LocalOffset(args, j, slm, i)
    decreases i - j
  {
    hide U32At, U32Bytes, AlignSlm;
    if IsLocal(args, j) {
      var next := AlignSlm(slm, AlignmentOf(args, j));
      var p := args[j].value.crossThreadDataOffset;
      var patched := Patch(data, p, U32Bytes(next));
      if i == j {
        U32RoundTrip(data[..p], next, data[p + 4..]);
        LaterLocalsKeep(patched, args, j + 1, next, p);
      } else {
        LocalsArePlaced(patched, args, j + 1, next, i);
      }
    } else {
      LocalsArePlaced(data, args, j + 1, slm, i);
    }
  }

  lemma {:induction false} LaterLocalsKeep(data: seq<byte>, args: seq<Option<ArgDescriptor>>, j: nat, slm: uint32, p: nat)
    requires LocalsFit(args, j, |data|) && p + 4 <= |data|
    requires forall a | j <= a < |args| && IsLocal(args, a) ::
               p + 4 <= args[a].value.crossThreadDataOffset || args[a].value.crossThreadDataOffset + 4 <= p
    ensures U32At(PlaceLocals(data, args, j, slm).0, p) == U32At(data, p)
    decreases |args| - j
  {
    hide U32At, U32Bytes, AlignSlm;
    if j < |args| {
      if IsLocal(args, j) {
        var next := AlignSlm(slm, AlignmentOf(args, j));
        var patched := Patch(data, args[j].value.crossThreadDataOffset, U32Bytes(next));
        U32Local(patched, p, data, p);
        LaterLocalsKeep(patched, args, j + 1, next, p);
      } else {
        LaterLocalsKeep(data, args, j + 1, slm, p);
      }
    }
  }

  /** Every such offset is aligned as its argument asks. */
  lemma {:induction false} LocalOffsetIsAligned(args: seq<Option<ArgDescriptor>>, j: nat, slm: uint32, i: nat, b: nat)
    requires j <= i < |args| && forall a | j <= a < |args| :: args[a].Some? && AlignmentOf(args, a) < 0x1_0000
    requires IsLocal(args, i) && b < 16 && AlignmentOf(args, i) == Pow2(b)
    ensures LocalOffset(args, j, slm, i) % Pow2(b) == 0
    decreases i - j
  {
    hide AlignSlm;
    if IsLocal(args, j) {
      var next := AlignSlm(slm, AlignmentOf(args, j));
      if i == j { AlignSlmRounds(slm, b); } else { LocalOffsetIsAligned(args, j + 1, next, i, b); }
    } else {
      LocalOffsetIsAligned(args, j + 1, slm, i, b);
    }
  }

  /** The first local argument from index j on. */
  lemma {:induction false} FirstLocal(args: seq<Option<ArgDescriptor>>, j: nat, slm: uint32, i: nat)
    requires j <= i < |args| && forall a | j <= a < |args| :: args[a].Some? && AlignmentOf(args, a) < 0x1_0000
    requires IsLocal(args, i) && forall a | j <= a < i :: !IsLocal(args, a)
    ensures LocalOffset(args, j, slm, i) == AlignSlm(slm, AlignmentOf(args, i))
    decreases i - j
  {
    hide AlignSlm;
    if j < i { FirstLocal(args, j + 1, slm, i); }
  }

  /** Of two local arguments with none between, the second one's offset is the first one's rounded up. */
  lemma {:induction false} NextLocal(args: seq<Option<ArgDescriptor>>, j: nat, slm: uint32, i: nat, n: nat)
    requires j <= i < n < |args| && forall a | j <= a < |args| :: args[a].Some? && AlignmentOf(args, a) < 0x1_0000
    requires IsLocal(args, i) && IsLocal(args, n) && forall a | i < a < n :: !IsLocal(args, a)
    ensures LocalOffset(args, j, slm, n) == AlignSlm(LocalOffset(args, j, slm, i), AlignmentOf(args, n))
    decreases i - j
  {
    hide AlignSlm;
    if !IsLocal(args, j) {
      NextLocal(args, j + 1, slm, i, n);
    } else {
      var next := AlignSlm(slm, AlignmentOf(args, j));
      if i == j { FirstLocal(args, j + 1, next, n); } else { NextLocal(args, j + 1, next, i, n); }
    }
  }

  /** The sizes of later local arguments are not added: however large the first of two is, the second one's offset is
      less than one alignment behind it, and the same exactly when that is aligned already. */
  lemma NextLocalCoincidesIff(args: seq<Option<ArgDescriptor>>, j: nat, slm: uint32, i: nat, n: nat, b: nat)
    requires j <= i < n < |args| && forall a | j <= a < |args| :: args[a].Some? && AlignmentOf(args, a) < 0x1_0000
    requires IsLocal(args, i) && IsLocal(args, n) && forall a | i < a < n :: !IsLocal(args, a)
    requires b < 16 && AlignmentOf(args, n) == Pow2(b) && LocalOffset(args, j, slm, i) + Pow2(b) <= TWO_32
    ensures var first, second := LocalOffset(args, j, slm, i), LocalOffset(args, j, slm, n);
            && first <= second < first + Pow2(b)
            && (second == first <==> first % Pow2(b) == 0)
  {
    hide AlignSlm, LocalOffset, Pow2, Ceil, IsLocal;
    var first := LocalOffset(args, j, slm, i);
    NextLocal(args, j, slm, i, n);
    AlignSlmRounds(first, b);
    CeilIsLeastMultiple(first, Pow2(b), if first % Pow2(b) == 0 then first else 0);
  }

  lemma AlignSlmRounds(slm: uint32, b: nat)
    requires b < 16
    ensures 1 <= Pow2(b) < 0x1_0000 && AlignSlm(slm, Pow2(b)) % Pow2(b) == 0
    ensures slm + Pow2(b) <= TWO_32 ==> AlignSlm(slm, Pow2(b)) == Ceil(slm, Pow2(b))
  {
    hide Pow2, AlignUp, Ceil;
    var a := Pow2(b);
    PowersBelow(b);
    AlignUpRoundsUp(slm, b);
    CeilIsLeastMultiple(slm, a, 0);
    Pow2Add(b, 32 - b);
    var q, wraps := Ceil(slm, a) / a, if Ceil(slm, a) >= TWO_32 then 1 else 0;
    var c := Pow2(32 - b);
    assert Ceil(slm, a) == a * q && TWO_32 == a * c;
    assert Ceil(slm, a) % TWO_32 == a * q - wraps * TWO_32;
    Distribute(a, q, -wraps * c);
    DivModUnique(a * q - wraps * TWO_32, a, q - wraps * c, 0);
  }

  lemma PowersBelow(b: nat)
    requires b < 16
    ensures 1 <= Pow2(b) < 0x1_0000 && Pow2(32) == TWO_32
  {
    Pow2Constants();
    Pow2Monotone(b, 15);
    Pow2Step(16);
  }

  /** The start read through a signed byte is the stored 32-bit offset exactly when that offset is below 128, or among
      the last 128 before 2^32. */
  lemma SignedStartIff(offset: uint32)
    ensures SlmStart(U32Bytes(offset)[0]) == offset <==> offset < 0x80 || offset >= TWO_32 - 0x80
  {
    LowByte(offset);
    var low, q: int := offset % 0x100, offset / 0x100;
    assert offset == 0x100 * q + low && 0 <= q < 0x100_0000;
    hide U32Bytes;
    if low < 0x80 {
      assert SlmStart(low) == offset <==> q == 0;
    } else {
      assert SlmStart(low) == offset <==> q == 0xff_ffff;
    }
  }

  lemma LowByte(v: uint32)
    ensures U32Bytes(v)[0] == v % 0x100
  {
  }

  // ---------- one argument ----------

  /** What a value must be for the handler of a descriptor to be called with it. */
  predicate SuitsMemory(desc: ArgDescriptor, args: seq<Option<ArgDescriptor>>, argIndex: nat, argSize: nat,
                        value: ArgumentValue, dataLength: nat, sshLength: nat)
  {
    match desc
    case ArgValue(_, elements) =>
      && value.Bytes? && |value.bytes| == argSize
      && ElementsFit(elements, argSize, dataLength)
    case ArgBuffer(_, ssh, offset) =>
      && value.BufferPointer?
      && (value.buffer.Some? ==> value.buffer.value.gpuAddress < TWO_64 && value.buffer.value.size < TWO_64)
      && ssh + 64 <= sshLength && (offset != 0 ==> offset + 8 <= dataLength)
    case ArgLocal(_, offset, _) =>
      offset < dataLength && LocalsFit(args, argIndex + 1, dataLength)
  }

  /** The code a handler returns, and cross-thread data and surface states after it. */
  datatype Outcome = Outcome(code: Code, data: seq<byte>, ssh: seq<byte>)

  function Handle(desc: ArgDescriptor, args: seq<Option<ArgDescriptor>>, argIndex: nat, argSize: nat, value: ArgumentValue,
                  data: seq<byte>, ssh: seq<byte>): Outcome
    requires SuitsMemory(desc, args, argIndex, argSize, value, |data|, |ssh|)
  {
    match desc
    case ArgValue(_, elements) =>
      if argSize == 0 then Outcome(InvalidKernelArg, data, ssh)
      else Outcome(Success, Scatter(data, elements, value.bytes), ssh)
    case ArgBuffer(_, place, offset) =>
      if value.buffer.Some? && !value.buffer.value.authentic then Outcome(InvalidKernelArg, data, ssh)
      else
        var address := if value.buffer.Some? then value.buffer.value.gpuAddress else 0;
        var size := if value.buffer.Some? then AlignUp(value.buffer.value.size, 4) else 0;
        Outcome(Success, if offset == 0 then data else Patch(data, offset, U64Bytes(address)),
                Patch(ssh, place, DwordBytes(SurfaceState(size, address))))
    case ArgLocal(_, offset, _) =>
      Outcome(Success, PlaceLocals(data, args, argIndex + 1, (SlmStart(data[offset]) + argSize) % TWO_32).0, ssh)
  }

  /** The local argument behind one that is set starts where that ends, rounded up to its own alignment, as long as the
      one that is set starts below 128. */
  lemma NextLocalStartsBehind(args: seq<Option<ArgDescriptor>>, a: nat, argSize: nat, value: ArgumentValue, data: seq<byte>,
                              ssh: seq<byte>, i: nat, b: nat)
    requires a < i < |args| && args[a].Some? && args[a].value.ArgLocal?
    requires SuitsMemory(args[a].value, args, a, argSize, value, |data|, |ssh|)
    requires args[i].Some? && IsLocal(args, i) && b < 16 && AlignmentOf(args, i) == Pow2(b)
    requires forall j | a < j < i :: args[j].Some? && !IsLocal(args, j)
    requires forall j | i < j < |args| && IsLocal(args, j) ::
               var p, q := args[i].value.crossThreadDataOffset, args[j].value.crossThreadDataOffset; p + 4 <= q || q + 4 <= p
    requires args[a].value.crossThreadDataOffset + 4 <= |data|
    requires var own := U32At(data, args[a].value.crossThreadDataOffset); own < 0x80 && own + argSize + Pow2(b) <= TWO_32
    ensures args[i].value.crossThreadDataOffset + 4 <= |data| && 1 <= Pow2(b)
    ensures var own := U32At(data, args[a].value.crossThreadDataOffset);
            U32At(Handle(args[a].value, args, a, argSize, value, data, ssh).data, args[i].value.crossThreadDataOffset)
            == Ceil(own + argSize, Pow2(b))
  {
    hide U32At, AlignSlm, PlaceLocals, LocalOffset, SlmStart, Pow2, Ceil;
    var at := args[a].value.crossThreadDataOffset;
    var own := U32At(data, at);
    LowByteStarts(data, at);
    PowersBelow(b);
    assert (SlmStart(data[at]) + argSize) % TWO_32 == own + argSize;
    LocalsArePlaced(data, args, a + 1, own + argSize, i);
    FirstLocal(args, a + 1, own + argSize, i);
    AlignSlmRounds(own + argSize, b);
  }

  /** Where placing ends is the offset of the last local argument, if there is one. */
  lemma {:induction false} PlacingEnds(data: seq<byte>, args: seq<Option<ArgDescriptor>>, j: nat, slm: uint32, i: nat)
    requires LocalsFit(args, j, |data|) && j <= i < |args| && IsLocal(args, i)
    requires forall a | i < a < |args| :: !IsLocal(args, a)
    ensures PlaceLocals(data, args, j, slm).1 == LocalOffset(args, j, slm, i)
    decreases |args| - j
  {
    hide AlignSlm, U32Bytes;
    if IsLocal(args, j) {
      var next := AlignSlm(slm, AlignmentOf(args, j));
      var patched := Patch(data, args[j].value.crossThreadDataOffset, U32Bytes(next));
      if j == i { NoMoreLocals(patched, args, j + 1, next); } else { PlacingEnds(patched, args, j + 1, next, i); }
    } else {
      PlacingEnds(data, args, j + 1, slm, i);
    }
  }

  lemma {:induction false} NoMoreLocals(data: seq<byte>, args: seq<Option<ArgDescriptor>>, j: nat, slm: uint32)
    requires LocalsFit(args, j, |data|) && forall a | j <= a < |args| :: !IsLocal(args, a)
    ensures PlaceLocals(data, args, j, slm) == (data, slm)
    decreases |args| - j
  {
    if j < |args| {
      assert !IsLocal(args, j);
      NoMoreLocals(data, args, j + 1, slm);
    }
  }

  /** In whole kilobytes, what is added to the total is enough for what ends there. */
  lemma KilobytesCover(before: uint32, slm: uint32)
    requires before + slm + KILO_BYTE <= TWO_32
    ensures slm <= (before + AlignUp(slm, KILO_BYTE)) % TWO_32 - before < slm + KILO_BYTE
  {
    hide AlignUp, Pow2, Ceil;
    Pow2Constants();
    Pow2Add(6, 4);
    AlignUpRoundsUp(slm, 10);
    CeilIsLeastMultiple(slm, KILO_BYTE, 0);
    var total := before + AlignUp(slm, KILO_BYTE);
    DivModUnique(total, TWO_32, 0, total);
  }

  lemma LowByteStarts(data: seq<byte>, at: nat)
    requires at + 4 <= |data| && U32At(data, at) < 0x80
    ensures SlmStart(data[at]) == U32At(data, at)
  {
    var b, c, d: int := data[at + 1], data[at + 2], data[at + 3];
    assert b == 0 && c == 0 && d == 0;
  }

  // ---------- several arguments ----------

  /** A byte of the cross-thread data that an argument's handler may write. */
  ghost predicate MayWrite(args: seq<Option<ArgDescriptor>>, s: Setting, at: nat)
  {
    s.argIndex < |args| && args[s.argIndex].Some? &&
    match args[s.argIndex].value
    case ArgValue(_, elements) => exists i :: 0 <= i < |elements| && Covers(elements[i], s.argSize, at)
    case ArgBuffer(_, _, offset) => offset != 0 && offset <= at < offset + 8
    case ArgLocal(_, _, _) => exists j :: s.argIndex < j < |args| && PlacedAt(args[j], at)
  }

  /** A local argument's offset takes four bytes. */
  predicate PlacedAt(arg: Option<ArgDescriptor>, at: nat)
  {
    arg.Some? && arg.value.ArgLocal? && arg.value.crossThreadDataOffset <= at < arg.value.crossThreadDataOffset + 4
  }

  /** The byte an argument has for a place of the cross-thread data: a byte of the value, or of the buffer's address. */
  ghost predicate Delivers(args: seq<Option<ArgDescriptor>>, s: Setting, at: nat, b: byte)
  {
    s.argIndex < |args| && args[s.argIndex].Some? &&
    match args[s.argIndex].value
    case ArgValue(_, elements) =>
      && s.value.Bytes? && s.argSize == |s.value.bytes| && DisjointElements(elements, s.argSize)
      && exists i :: 0 <= i < |elements| && ElementByte(elements[i], s.value.bytes, at, b)
    case ArgBuffer(_, _, offset) =>
      && s.value.BufferPointer? && (s.value.buffer.Some? ==> s.value.buffer.value.authentic)
      && (s.value.buffer.Some? ==> s.value.buffer.value.gpuAddress < TWO_64)
      && offset != 0 && offset <= at < offset + 8
      && b == ByteOf(if s.value.buffer.Some? then s.value.buffer.value.gpuAddress else 0, at - offset)
    case ArgLocal(_, _, _) => false
  }

  predicate ElementByte(e: Element, value: seq<byte>, at: nat, b: byte)
  {
    Covers(e, |value|, at) && value[e.sourceOffset + (at - e.crossThreadDataOffset)] == b
  }

  /** One call of `setArgument` that runs its handler. */
  datatype Setting = Setting(argIndex: nat, argSize: nat, value: ArgumentValue)

  predicate Fit(args: seq<Option<ArgDescriptor>>, s: Setting, dataLength: nat, sshLength: nat)
  {
    && s.argIndex < |args| && args[s.argIndex].Some?
    && SuitsMemory(args[s.argIndex].value, args, s.argIndex, s.argSize, s.value, dataLength, sshLength)
  }

  function Apply(args: seq<Option<ArgDescriptor>>, s: Setting, data: seq<byte>, ssh: seq<byte>): (o: Outcome)
    requires Fit(args, s, |data|, |ssh|)
    ensures |o.data| == |data| && |o.ssh| == |ssh|
  {
    Handle(args[s.argIndex].value, args, s.argIndex, s.argSize, s.value, data, ssh)
  }

  /** Cross-thread data and surface states after the calls in order. */
  function SetAll(args: seq<Option<ArgDescriptor>>, settings: seq<Setting>, data: seq<byte>, ssh: seq<byte>)
    : (r: (seq<byte>, seq<byte>))
    requires forall i | 0 <= i < |settings| :: Fit(args, settings[i], |data|, |ssh|)
    ensures |r.0| == |data| && |r.1| == |ssh|
    decreases |settings|
  {
    if settings == [] then (data, ssh)
    else
      var o := Apply(args, settings[0], data, ssh);
      SetAll(args, settings[1..], o.data, o.ssh)
  }

  /** Handlers do not look at the flags, so the table stays the same for all calls of a sequence. */
  predicate SameArguments(a: seq<Option<ArgDescriptor>>, b: seq<Option<ArgDescriptor>>)
  {
    |a| == |b| && forall i | 0 <= i < |a| :: SameArgument(a[i], b[i])
  }

  predicate SameArgument(a: Option<ArgDescriptor>, b: Option<ArgDescriptor>)
  {
    a == b || (a.Some? && b.Some? && a.value.(argIsSet := false) == b.value.(argIsSet := false))
  }

  lemma {:induction false} LocalsIgnoreFlags(a: seq<Option<ArgDescriptor>>, b: seq<Option<ArgDescriptor>>, data: seq<byte>,
                                             j: nat, slm: uint32)
    requires SameArguments(a, b) && LocalsFit(a, j, |data|)
    ensures LocalsFit(b, j, |data|) && PlaceLocals(data, a, j, slm) == PlaceLocals(data, b, j, slm)
    decreases |a| - j
  {
    hide AlignSlm, U32Bytes;
    forall i | j <= i < |a| ensures SameArgument(a[i], b[i]) {}
    if j < |a| {
      assert SameArgument(a[j], b[j]);
      if a[j].value.ArgLocal? {
        var next := AlignSlm(slm, a[j].value.requiredSlmAlignment);
        LocalsIgnoreFlags(a, b, Patch(data, a[j].value.crossThreadDataOffset, U32Bytes(next)), j + 1, next);
      } else {
        LocalsIgnoreFlags(a, b, data, j + 1, slm);
      }
    }
  }

  lemma HandlersIgnoreFlags(a: seq<Option<ArgDescriptor>>, b: seq<Option<ArgDescriptor>>, s: Setting, data: seq<byte>,
                            ssh: seq<byte>)
    requires SameArguments(a, b) && Fit(a, s, |data|, |ssh|)
    ensures Fit(b, s, |data|, |ssh|) && Apply(a, s, data, ssh) == Apply(b, s, data, ssh)
  {
    hide PlaceLocals, Scatter, SurfaceState, LocalsFit;
    assert SameArgument(a[s.argIndex], b[s.argIndex]);
    if a[s.argIndex].value.ArgLocal? {
      var start := (SlmStart(data[a[s.argIndex].value.crossThreadDataOffset]) + s.argSize) % TWO_32;
      LocalsIgnoreFlags(a, b, data, s.argIndex + 1, start);
    }
  }

  /** So each further call, on the table as the calls before it left it, lengthens the sequence by one. */
  lemma {:induction false} SetOneMore(a: seq<Option<ArgDescriptor>>, b: seq<Option<ArgDescriptor>>, settings: seq<Setting>,
                                      s: Setting, data: seq<byte>, ssh: seq<byte>)
    requires SameArguments(a, b) && forall j | 0 <= j < |settings| :: Fit(a, settings[j], |data|, |ssh|)
    requires Fit(b, s, |data|, |ssh|)
    ensures Fit(a, s, |data|, |ssh|)
    ensures var (d, h) := SetAll(a, settings, data, ssh);
            var o := Apply(b, s, d, h);
            SetAll(a, settings + [s], data, ssh) == (o.data, o.ssh)
    decreases |settings|
  {
    hide Apply, Fit, SameArguments;
    OtherWayRound(a, b);
    if settings == [] {
      HandlersIgnoreFlags(b, a, s, data, ssh);
      assert (settings + [s])[1..] == [];
    } else {
      var o := Apply(a, settings[0], data, ssh);
      SetOneMore(a, b, settings[1..], s, o.data, o.ssh);
      assert (settings + [s])[1..] == settings[1..] + [s];
    }
  }

  lemma OtherWayRound(a: seq<Option<ArgDescriptor>>, b: seq<Option<ArgDescriptor>>)
    requires SameArguments(a, b)
    ensures SameArguments(b, a)
  {
    forall i | 0 <= i < |b| ensures SameArgument(b[i], a[i]) { assert SameArgument(a[i], b[i]); }
  }

  /** A byte that a handler may not write stays. */
  lemma ApplyKeeps(args: seq<Option<ArgDescriptor>>, s: Setting, data: seq<byte>, ssh: seq<byte>, at: nat)
    requires Fit(args, s, |data|, |ssh|) && at < |data| && !MayWrite(args, s, at)
    ensures Apply(args, s, data, ssh).data[at] == data[at]
  {
    hide PlaceLocals, Scatter, SurfaceState, Covers, ElementsFit;
    match args[s.argIndex].value
    case ArgValue(_, elements) =>
      if s.argSize > 0 { ScatterKeepsTheRest(data, elements, s.value.bytes, at); }
    case ArgBuffer(_, _, _) =>
    case ArgLocal(_, offset, _) =>
      OtherBytesOfLocals(data, args, s.argIndex + 1, (SlmStart(data[offset]) + s.argSize) % TWO_32, at);
  }

  lemma {:induction false} OtherBytesOfLocals(data: seq<byte>, args: seq<Option<ArgDescriptor>>, j: nat, slm: uint32, at: nat)
    requires LocalsFit(args, j, |data|) && at < |data| && forall i | j <= i < |args| :: !PlacedAt(args[i], at)
    ensures PlaceLocals(data, args, j, slm).0[at] == data[at]
    decreases |args| - j
  {
    hide AlignSlm, U32Bytes;
    if j < |args| {
      assert !PlacedAt(args[j], at);
      if args[j].value.ArgLocal? {
        var next := AlignSlm(slm, args[j].value.requiredSlmAlignment);
        OtherBytesOfLocals(Patch(data, args[j].value.crossThreadDataOffset, U32Bytes(next)), args, j + 1, next, at);
      } else {
        OtherBytesOfLocals(data, args, j + 1, slm, at);
      }
    }
  }

  lemma ApplyDelivers(args: seq<Option<ArgDescriptor>>, s: Setting, data: seq<byte>, ssh: seq<byte>, at: nat, b: byte)
    requires Fit(args, s, |data|, |ssh|) && at < |data| && Delivers(args, s, at, b)
    ensures Apply(args, s, data, ssh).data[at] == b
  {
    hide PlaceLocals, Scatter, SurfaceState, ElementsFit, DisjointElements;
    match args[s.argIndex].value
    case ArgValue(_, elements) =>
      var i :| 0 <= i < |elements| && ElementByte(elements[i], s.value.bytes, at, b);
      ScatterPlacesElement(data, elements, s.value.bytes, i, at);
    case ArgBuffer(_, _, offset) =>
      BytesOfPointer(if s.value.buffer.Some? then s.value.buffer.value.gpuAddress else 0);
      hide ByteOf, U64Bytes;
  }

  /** Whatever is set in between, a byte that call i has for a place is there in the end, unless a later call may write
      the same place. */
  lemma {:induction false} ArgumentStays(args: seq<Option<ArgDescriptor>>, settings: seq<Setting>, data: seq<byte>,
                                         ssh: seq<byte>, i: nat, at: nat, b: byte)
    requires forall j | 0 <= j < |settings| :: Fit(args, settings[j], |data|, |ssh|)
    requires i < |settings| && at < |data| && Delivers(args, settings[i], at, b)
    requires forall j | i < j < |settings| :: !MayWrite(args, settings[j], at)
    ensures SetAll(args, settings, data, ssh).0[at] == b
    decreases |settings|
  {
    hide Apply, Delivers, MayWrite, Fit;
    var o, rest := Apply(args, settings[0], data, ssh), settings[1..];
    if i == 0 {
      ApplyDelivers(args, settings[0], data, ssh, at, b);
      LaterSettingsKeep(args, rest, o.data, o.ssh, at);
    } else {
      ArgumentStays(args, rest, o.data, o.ssh, i - 1, at, b);
    }
  }

  lemma {:induction false} LaterSettingsKeep(args: seq<Option<ArgDescriptor>>, settings: seq<Setting>, data: seq<byte>,
                                             ssh: seq<byte>, at: nat)
    requires forall j | 0 <= j < |settings| :: Fit(args, settings[j], |data|, |ssh|)
    requires at < |data| && forall j | 0 <= j < |settings| :: !MayWrite(args, settings[j], at)
    ensures SetAll(args, settings, data, ssh).0[at] == data[at]
    decreases |settings|
  {
    hide Apply, MayWrite, Fit;
    if settings != [] {
      var o := Apply(args, settings[0], data, ssh);
      ApplyKeeps(args, settings[0], data, ssh, at);
      LaterSettingsKeep(args, settings[1..], o.data, o.ssh, at);
    }
  }

  /** A call that may write the surface state at this place. */
  predicate MayWriteState(args: seq<Option<ArgDescriptor>>, s: Setting, place: nat)
  {
    && s.argIndex < |args| && args[s.argIndex].Some? && args[s.argIndex].value.ArgBuffer?
    && place < args[s.argIndex].value.surfaceStateHeapOffset + 64 && args[s.argIndex].value.surfaceStateHeapOffset < place + 64
  }

  /** A pointer argument's value: none, or a buffer of 64-bit address and size. */
  predicate PointerValue(s: Setting)
  {
    && s.value.BufferPointer?
    && (s.value.buffer.Some? ==> s.value.buffer.value.gpuAddress < TWO_64 && s.value.buffer.value.size < TWO_64)
  }

  /** A call that sets a pointer argument, to an authentic buffer or to none, with its surface state at this place. */
  predicate SetsPointer(args: seq<Option<ArgDescriptor>>, s: Setting, place: nat)
  {
    && s.argIndex < |args| && args[s.argIndex].Some? && args[s.argIndex].value.ArgBuffer?
    && args[s.argIndex].value.surfaceStateHeapOffset == place
    && PointerValue(s) && (s.value.buffer.Some? ==> s.value.buffer.value.authentic)
  }

  /** The state that such a call writes. */
  function StateOf(s: Setting): (r: seq<uint32>)
    requires PointerValue(s)
    ensures |r| == 16
  {
    match s.value.buffer
    case None => SurfaceState(0, 0)
    case Some(b) => SurfaceState(AlignUp(b.size, 4), b.gpuAddress)
  }

  lemma ApplyWritesState(args: seq<Option<ArgDescriptor>>, s: Setting, data: seq<byte>, ssh: seq<byte>, place: nat)
    requires Fit(args, s, |data|, |ssh|) && SetsPointer(args, s, place)
    ensures place + 64 <= |ssh| && Apply(args, s, data, ssh).ssh[place..place + 64] == DwordBytes(StateOf(s))
  {
    hide PlaceLocals, Scatter, SurfaceState, U64Bytes, ElementsFit, LocalsFit, AlignUp, DwordBytes;
  }

  lemma ApplyKeepsState(args: seq<Option<ArgDescriptor>>, s: Setting, data: seq<byte>, ssh: seq<byte>, place: nat)
    requires Fit(args, s, |data|, |ssh|) && !MayWriteState(args, s, place) && place + 64 <= |ssh|
    ensures Apply(args, s, data, ssh).ssh[place..place + 64] == ssh[place..place + 64]
  {
    hide PlaceLocals, Scatter, SurfaceState, U64Bytes, ElementsFit, LocalsFit, AlignUp, DwordBytes;
  }

  lemma {:induction false} LaterKeepState(args: seq<Option<ArgDescriptor>>, settings: seq<Setting>, data: seq<byte>,
                                          ssh: seq<byte>, place: nat)
    requires forall j | 0 <= j < |settings| :: Fit(args, settings[j], |data|, |ssh|)
    requires place + 64 <= |ssh| && forall j | 0 <= j < |settings| :: !MayWriteState(args, settings[j], place)
    ensures SetAll(args, settings, data, ssh).1[place..place + 64] == ssh[place..place + 64]
    decreases |settings|
  {
    hide Apply, MayWriteState, Fit;
    if settings != [] {
      var o := Apply(args, settings[0], data, ssh);
      ApplyKeepsState(args, settings[0], data, ssh, place);
      LaterKeepState(args, settings[1..], o.data, o.ssh, place);
    }
  }

  /** Whatever is set in between, the state that call i writes is there in the end, unless a later call may write there. */
  lemma {:induction false} StateStays(args: seq<Option<ArgDescriptor>>, settings: seq<Setting>, data: seq<byte>,
                                      ssh: seq<byte>, i: nat, place: nat)
    requires forall j | 0 <= j < |settings| :: Fit(args, settings[j], |data|, |ssh|)
    requires i < |settings| && SetsPointer(args, settings[i], place)
    requires forall j | i < j < |settings| :: !MayWriteState(args, settings[j], place)
    ensures place + 64 <= |ssh|
    ensures SetAll(args, settings, data, ssh).1[place..place + 64] == DwordBytes(StateOf(settings[i]))
    decreases |settings|
  {
    hide Apply, MayWriteState, Fit, SetsPointer, DwordBytes, StateOf;
    assert PointerValue(settings[i]) by { SetsValue(args, settings[i], place); }
    var o, rest := Apply(args, settings[0], data, ssh), settings[1..];
    if i == 0 {
      ApplyWritesState(args, settings[0], data, ssh, place);
      LaterKeepState(args, rest, o.data, o.ssh, place);
    } else {
      StateStays(args, rest, o.data, o.ssh, i - 1, place);
    }
  }

  lemma SetsValue(args: seq<Option<ArgDescriptor>>, s: Setting, place: nat)
    requires SetsPointer(args, s, place)
    ensures PointerValue(s)
  {
  }

  /** Read back, it is a raw buffer at the buffer's address, which spans the buffer exactly for 1 byte to 4 GiB. */
  lemma StateDescribes(s: Setting)
    requires PointerValue(s)
    ensures var state := StateOf(s);
            && RawBuffer(state)
            && match s.value.buffer
               case None => SurfaceAddress(state) == 0
               case Some(b) =>
                 && SurfaceAddress(state) == b.gpuAddress
                 && (b.size <= SurfaceLength(state) < b.size + 4 <==> 1 <= b.size <= TWO_32)
  {
    hide SurfaceState, RawBuffer, SurfaceAddress, SurfaceLength, AlignUp;
    match s.value.buffer
    case None =>
      SurfaceRoundTrip(0, 0);
      StateIsRawBuffer(0, 0);
    case Some(b) =>
      SurfaceRoundTrip(AlignUp(b.size, 4), b.gpuAddress);
      StateIsRawBuffer(AlignUp(b.size, 4), b.gpuAddress);
      SpanIff(b.size, (AlignUp(b.size, 4) - 1) % TWO_32 + 1);
  }

  // ---------- the kernel object ----------

  class Kernel {
    var decoded: Decoded
    const crossThreadData: array<byte>
    const sshLocal: array<byte>
    var execData: seq<Option<Buffer>>
    var sharedLocalMemorySize: uint32

    predicate Valid()
      reads this
    {
      |decoded.localWorkSize| == 3 && |decoded.localWorkSize2| == 3 && crossThreadData != sshLocal
    }

    /** A kernel before its metadata is decoded. */
    constructor (crossThreadDataSize: nat, ssh: seq<byte>)
      ensures Valid() && decoded == NOTHING && execData == []
      ensures fresh(crossThreadData) && fresh(sshLocal)
      ensures crossThreadData.Length == crossThreadDataSize && sshLocal[..] == ssh
      ensures forall i | 0 <= i < crossThreadDataSize :: crossThreadData[i] == 0
    {
      decoded := NOTHING;
      crossThreadData := new byte[crossThreadDataSize](_ => 0);
      sshLocal := new byte[|ssh|](i requires 0 <= i < |ssh| => ssh[i]);
      execData := [];
      sharedLocalMemorySize := 0;
    }

    method DecodeToken(t: Token)
      requires Valid()
      modifies this`decoded
      ensures Valid() && decoded == Decode(old(decoded), t)
    {
      decoded := Decode(decoded, t);
    }

    /** `decodePatchtokensList2`: the fields end up as if the visited tokens were decoded in order. */
    method DecodePatchtokensList2(blob: seq<byte>)
      requires Valid() && Walk2(blob).Some?
      modifies this`decoded
      ensures Valid() && decoded == DecodeAll(old(decoded), Walk2(blob).value)
    {
      hide U32At, Head, Decode, DecodeAll;
      var pos := 0;
      ghost var visited := [];
      DecodeOneMore(decoded, [], Token(0, []));
      assert blob[0..] == blob;
      while |blob| - pos > 8
        invariant 0 <= pos <= |blob| && Valid()
        invariant Walk2(blob[pos..]).Some? && visited + Walk2(blob[pos..]).value == Walk2(blob).value
        invariant decoded == DecodeAll(old(decoded), visited)
        decreases |blob| - pos
      {
        var rest := blob[pos..];
        Walk2Step(rest);
        var token := Head(rest);
        DecodeOneMore(old(decoded), visited, token);
        DecodeToken(token);
        visited := visited + [token];
        assert blob[pos + U32At(rest, 4)..] == rest[U32At(rest, 4)..];
        pos := pos + U32At(rest, 4);
      }
      assert visited + [] == visited;
    }

    /** `decodePatchtokensList1`. */
    method DecodePatchtokensList1(blob: seq<byte>)
      requires Valid() && Walk1(blob).Some?
      modifies this`decoded
      ensures Valid() && decoded == DecodeAll(old(decoded), Walk1(blob).value)
    {
      hide U32At, Head, Decode, DecodeAll;
      var pos := 0;
      ghost var visited := [];
      DecodeOneMore(decoded, [], Token(0, []));
      assert blob[0..] == blob;
      while |blob| - pos > 8
        invariant 0 <= pos <= |blob| && Valid()
        invariant Walk1(blob[pos..]).Some? && visited + Walk1(blob[pos..]).value == Walk1(blob).value
        invariant decoded == DecodeAll(old(decoded), visited)
        decreases |blob| - pos
      {
        var rest := blob[pos..];
        if U32At(rest, 0) != 41 && U32At(rest, 0) != 42 {
          break;
        }
        Walk1Step(rest);
        var token := Head(rest);
        DecodeOneMore(old(decoded), visited, token);
        DecodeToken(token);
        visited := visited + [token];
        assert blob[pos + U32At(rest, 4)..] == rest[U32At(rest, 4)..];
        pos := pos + U32At(rest, 4);
      }
      assert visited + [] == visited;
    }

    /** What a value must be for the handler of a descriptor to be called with it. */
    predicate Suits(desc: ArgDescriptor, argIndex: nat, argSize: nat, value: ArgumentValue)
      reads this
    {
      SuitsMemory(desc, decoded.argDescriptor, argIndex, argSize, value, crossThreadData.Length, sshLocal.Length)
    }

    /** `setArgument`: refused unless the argument exists and is open; otherwise its handler runs once and
        the argument is closed, whether the handler accepts the value or not. */
    method SetArgument(argIndex: nat, argSize: nat, argValue: ArgumentValue) returns (r: Code)
      requires Valid() && argSize < TWO_64
      requires RunsHandler(FlagsOf(decoded.argDescriptor), Call.SetArgument(argIndex)) ==>
                 Suits(decoded.argDescriptor[argIndex].value, argIndex, argSize, argValue)
      modifies this, crossThreadData, sshLocal
      ensures Valid()
      ensures FlagsOf(decoded.argDescriptor) == After(old(FlagsOf(decoded.argDescriptor)), Call.SetArgument(argIndex))
      ensures SameArguments(old(decoded).argDescriptor, decoded.argDescriptor)
      ensures RunsHandler(old(FlagsOf(decoded.argDescriptor)), Call.SetArgument(argIndex)) ==>
                var args := old(decoded).argDescriptor;
                Outcome(r, crossThreadData[..], sshLocal[..])
                == Handle(args[argIndex].value, args, argIndex, argSize, argValue, old(crossThreadData[..]), old(sshLocal[..]))
      ensures !RunsHandler(old(FlagsOf(decoded.argDescriptor)), Call.SetArgument(argIndex)) ==>
                && r == InvalidKernelArg && decoded == old(decoded) && execData == old(execData)
                && crossThreadData[..] == old(crossThreadData[..]) && sshLocal[..] == old(sshLocal[..])
    {
      hide Scatter, PlaceLocals, SurfaceState, U64Bytes, DwordBytes, Patch, ElementsFit, LocalsFit, AlignUp, SlmStart;
      if argIndex >= |decoded.argDescriptor| {
        return InvalidKernelArg;
      }
      if decoded.argDescriptor[argIndex].None? {
        return InvalidKernelArg;
      }
      var desc := decoded.argDescriptor[argIndex].value;
      if desc.argIsSet {
        return InvalidKernelArg;
      }
      match desc {
        case ArgValue(_, _) => r := SetArgImmediate(argIndex, argSize, argValue.bytes);
        case ArgBuffer(_, _, _) => r := SetArgBuffer(argIndex, argValue.buffer);
        case ArgLocal(_, _, _) => r := SetArgLocal(argIndex, argSize);
      }
      if r != Success {
        Close(argIndex);
      }
    }

    /** `argIsSet = true`. */
    method Close(argIndex: nat)
      requires Valid() && argIndex < |decoded.argDescriptor| && decoded.argDescriptor[argIndex].Some?
      modifies this`decoded
      ensures Valid()
      ensures decoded == old(decoded).(argDescriptor :=
                old(decoded).argDescriptor[argIndex := Some(old(decoded).argDescriptor[argIndex].value.(argIsSet := true))])
      ensures SameArguments(old(decoded).argDescriptor, decoded.argDescriptor)
    {
      var closed := decoded.argDescriptor[argIndex].value.(argIsSet := true);
      decoded := decoded.(argDescriptor := decoded.argDescriptor[argIndex := Some(closed)]);
    }

    /** `setArgImmediate`: the elements are copied; only a size of zero is refused. */
    method SetArgImmediate(argIndex: nat, argSize: nat, value: seq<byte>) returns (r: Code)
      requires Valid() && argIndex < |decoded.argDescriptor| && decoded.argDescriptor[argIndex].Some?
      requires decoded.argDescriptor[argIndex].value.ArgValue?
      requires Suits(decoded.argDescriptor[argIndex].value, argIndex, argSize, Bytes(value))
      modifies this`decoded, crossThreadData
      ensures Valid()
      ensures SameArguments(old(decoded).argDescriptor, decoded.argDescriptor)
      ensures argSize == 0 ==>
                r == InvalidKernelArg && decoded == old(decoded) && crossThreadData[..] == old(crossThreadData[..])
      ensures argSize > 0 ==>
                && r == Success
                && crossThreadData[..]
                   == Scatter(old(crossThreadData[..]), old(decoded).argDescriptor[argIndex].value.elements, value)
                && FlagsOf(decoded.argDescriptor) == FlagsOf(old(decoded).argDescriptor)[argIndex := Some(true)]
    {
      if argSize == 0 {
        return InvalidKernelArg;
      }
      CopyElements(decoded.argDescriptor[argIndex].value.elements, argSize, value);
      Close(argIndex);
      return Success;
    }

    /** The loop over an argument's elements. */
    method CopyElements(elements: seq<Element>, argSize: nat, value: seq<byte>)
      requires |value| == argSize && ElementsFit(elements, argSize, crossThreadData.Length)
      modifies crossThreadData
      ensures crossThreadData[..] == Scatter(old(crossThreadData[..]), elements, value)
    {
      hide Scatter, ElementFits, ElementBytes, Patch;
      ghost var before := crossThreadData[..];
      ScatterNothing(before, elements, value);
      for i := 0 to |elements|
        invariant crossThreadData[..] == Scatter(before, elements[..i], value)
      {
        var e := elements[i];
        ScatterNext(before, elements, value, i);
        if e.sourceOffset < argSize {
          var maxBytesToCopy := argSize - e.sourceOffset;
          var bytesToCopy := if e.size < maxBytesToCopy then e.size else maxBytesToCopy;
          CopyInto(crossThreadData, e.crossThreadDataOffset, value[e.sourceOffset..e.sourceOffset + bytesToCopy]);
        }
      }
    }

    /** `setArgBuffer`: the buffer's address goes to the cross-thread data (unless its offset is zero) and its
        surface state to the surface heap; a null pointer stands for address and size zero. */
    method SetArgBuffer(argIndex: nat, buffer: Option<Buffer>) returns (r: Code)
      requires Valid() && argIndex < |decoded.argDescriptor| && decoded.argDescriptor[argIndex].Some?
      requires decoded.argDescriptor[argIndex].value.ArgBuffer?
      requires Suits(decoded.argDescriptor[argIndex].value, argIndex, 0, BufferPointer(buffer))
      modifies this`decoded, this`execData, crossThreadData, sshLocal
      ensures Valid()
      ensures SameArguments(old(decoded).argDescriptor, decoded.argDescriptor)
      ensures r == Success <==> buffer.None? || buffer.value.authentic
      ensures r != Success ==>
                && decoded == old(decoded) && execData == old(execData)
                && crossThreadData[..] == old(crossThreadData[..]) && sshLocal[..] == old(sshLocal[..])
      ensures r == Success ==>
                var address := if buffer.Some? then buffer.value.gpuAddress else 0;
                var size := if buffer.Some? then AlignUp(buffer.value.size, 4) else 0;
                var desc := old(decoded).argDescriptor[argIndex].value;
                && FlagsOf(decoded.argDescriptor) == FlagsOf(old(decoded).argDescriptor)[argIndex := Some(true)]
                && crossThreadData[..] == (if desc.crossThreadDataOffset == 0 then old(crossThreadData[..])
                                           else Patch(old(crossThreadData[..]), desc.crossThreadDataOffset, U64Bytes(address)))
                && sshLocal[..] == Patch(old(sshLocal[..]), desc.surfaceStateHeapOffset, DwordBytes(SurfaceState(size, address)))
      ensures r == Success ==>
                var address := if buffer.Some? then buffer.value.gpuAddress else 0;
                var size := if buffer.Some? then AlignUp(buffer.value.size, 4) else 0;
                var desc := old(decoded).argDescriptor[argIndex].value;
                var data, offset := crossThreadData[..], desc.crossThreadDataOffset;
                && (offset != 0 ==> U32At(data, offset) + TWO_32 * U32At(data, offset + 4) == address)
                && DescribesBuffer(DwordsAt(sshLocal[..], desc.surfaceStateHeapOffset, 16), size, address)
      ensures r == Success && buffer.Some? ==>
                var state := DwordsAt(sshLocal[..], old(decoded).argDescriptor[argIndex].value.surfaceStateHeapOffset, 16);
                var n := buffer.value.size;
                n <= SurfaceLength(state) < n + 4 <==> 1 <= n <= TWO_32
      ensures r == Success && buffer.Some? ==> argIndex < |execData| && execData[argIndex] == buffer
    {
      hide SurfaceState, U32Bytes, AlignUp, RawBuffer, SurfaceLength, SurfaceAddress, DwordsAt, U32At;
      if buffer.Some? && !buffer.value.authentic {
        return InvalidKernelArg;
      }
      var desc := decoded.argDescriptor[argIndex].value;
      var address := if buffer.Some? then buffer.value.gpuAddress else 0;
      if desc.crossThreadDataOffset != 0 {
        PatchedPointer(crossThreadData[..], desc.crossThreadDataOffset, address);
        CopyInto(crossThreadData, desc.crossThreadDataOffset, U64Bytes(address));
      }
      var size := if buffer.Some? then AlignUp(buffer.value.size, 4) else 0;
      if buffer.Some? {
        SpanIff(buffer.value.size, (size - 1) % TWO_32 + 1);
      }
      PatchedState(sshLocal[..], desc.surfaceStateHeapOffset, size, address);
      CopyInto(sshLocal, desc.surfaceStateHeapOffset, DwordBytes(SurfaceState(size, address)));
      if buffer.Some? {
        execData := execData + seq(if |execData| <= argIndex then argIndex + 1 - |execData| else 0, _ => None);
        execData := execData[argIndex := buffer];
      }
      Close(argIndex);
      return Success;
    }

    /** `setArgLocal`: the size is added to the argument's own offset and handed on, aligned, to the local
        arguments after it. */
    method SetArgLocal(argIndex: nat, argSize: nat) returns (r: Code)
      requires Valid() && argIndex < |decoded.argDescriptor| && decoded.argDescriptor[argIndex].Some?
      requires decoded.argDescriptor[argIndex].value.ArgLocal?
      requires Suits(decoded.argDescriptor[argIndex].value, argIndex, argSize, Bytes([]))
      modifies this`decoded, this`sharedLocalMemorySize, crossThreadData
      ensures Valid() && r == Success
      ensures SameArguments(old(decoded).argDescriptor, decoded.argDescriptor)
      ensures FlagsOf(decoded.argDescriptor) == FlagsOf(old(decoded).argDescriptor)[argIndex := Some(true)]
      ensures var args := old(decoded).argDescriptor;
              var start := (SlmStart(old(crossThreadData[args[argIndex].value.crossThreadDataOffset])) + argSize) % TWO_32;
              var (data, slm) := PlaceLocals(old(crossThreadData[..]), args, argIndex + 1, start);
              && crossThreadData[..] == data
              && sharedLocalMemorySize == (old(sharedLocalMemorySize) + AlignUp(slm, KILO_BYTE)) % TWO_32
              && (old(sharedLocalMemorySize) + slm + KILO_BYTE <= TWO_32 ==>
                    slm <= sharedLocalMemorySize - old(sharedLocalMemorySize) < slm + KILO_BYTE)
    {
      var args := decoded.argDescriptor;
      var start: uint32 := (SlmStart(crossThreadData[args[argIndex].value.crossThreadDataOffset]) + argSize) % TWO_32;
      hide AlignUp, PlaceLocals, LocalsFit, SlmStart;
      var slmOffset := PlaceFurther(argIndex + 1, start);
      if sharedLocalMemorySize + slmOffset + KILO_BYTE <= TWO_32 {
        KilobytesCover(sharedLocalMemorySize, slmOffset);
      }
      sharedLocalMemorySize := (sharedLocalMemorySize + AlignUp(slmOffset, KILO_BYTE)) % TWO_32;
      Close(argIndex);
      return Success;
    }

    /** The loop over the arguments behind it. */
    method PlaceFurther(from: nat, start: uint32) returns (slmOffset: uint32)
      requires Valid() && LocalsFit(decoded.argDescriptor, from, crossThreadData.Length)
      modifies crossThreadData
      ensures Valid()
      ensures (crossThreadData[..], slmOffset) == PlaceLocals(old(crossThreadData[..]), decoded.argDescriptor, from, start)
    {
      hide AlignSlm;
      var args := decoded.argDescriptor;
      slmOffset := start;
      var j := from;
      while j < |args|
        invariant from <= j && LocalsFit(args, j, crossThreadData.Length)
        invariant PlaceLocals(crossThreadData[..], args, j, slmOffset)
                  == PlaceLocals(old(crossThreadData[..]), args, from, start)
      {
        if args[j].value.ArgLocal? {
          slmOffset := AlignSlm(slmOffset, args[j].value.requiredSlmAlignment);
          CopyInto(crossThreadData, args[j].value.crossThreadDataOffset, U32Bytes(slmOffset));
        }
        j := j + 1;
      }
    }

    /** `resetArguments`: every argument that exists is open again. */
    method ResetArguments()
      requires Valid()
      modifies this`decoded
      ensures Valid()
      ensures decoded == old(decoded).(argDescriptor := decoded.argDescriptor)
      ensures SameArguments(old(decoded).argDescriptor, decoded.argDescriptor)
      ensures FlagsOf(decoded.argDescriptor) == After(old(FlagsOf(decoded.argDescriptor)), Call.ResetArguments)
    {
      for i := 0 to |decoded.argDescriptor|
        invariant Valid() && |decoded.argDescriptor| == |old(decoded).argDescriptor|
        invariant decoded == old(decoded).(argDescriptor := decoded.argDescriptor)
        invariant forall k | 0 <= k < |decoded.argDescriptor| ::
                    decoded.argDescriptor[k] ==
                    if k < i && old(decoded).argDescriptor[k].Some?
                    then Some(old(decoded).argDescriptor[k].value.(argIsSet := false))
                    else old(decoded).argDescriptor[k]
      {
        if decoded.argDescriptor[i].Some? {
          var open := decoded.argDescriptor[i].value.(argIsSet := false);
          decoded := decoded.(argDescriptor := decoded.argDescriptor[i := Some(open)]);
        }
      }
    }
  }
}
