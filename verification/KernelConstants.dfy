/** The work sizes that `createIndirectObjectHeap` writes into a kernel's cross-thread data before copying it. */
module KernelConstants {
  import opened Options
  import opened Words
  import opened DriverUtils

  /** Where the kernel wants which work size, per dimension; a kernel may want any of them, or none. */
  datatype Payload = Payload(localWorkSize: seq<Option<nat>>, localWorkSize2: seq<Option<nat>>,
                             enqueuedLocalWorkSize: seq<Option<nat>>, globalWorkSize: seq<Option<nat>>,
                             numWorkGroups: seq<Option<nat>>, workDimensions: Option<nat>)
  {
    predicate Valid()
    {
      |localWorkSize| == |localWorkSize2| == |enqueuedLocalWorkSize| == |globalWorkSize| == |numWorkGroups| == 3
    }
  }

  /** A launch's work sizes, three of each. */
  datatype Sizes = Sizes(local: seq<nat>, global: seq<nat>, groups: seq<nat>, workDim: nat)
  {
    predicate Valid() { |local| == |global| == |groups| == 3 }
  }

  /** A 32-bit write, if there is a place for it. */
  datatype Write = Write(offset: Option<nat>, value: nat)
  {
    predicate Fits(length: nat) { offset.Some? ==> offset.value + 4 <= length }
  }

  function Put(data: seq<byte>, w: Write): (r: seq<byte>)
    requires w.Fits(|data|)
    ensures |r| == |data|
  {
    if w.offset.None? then data else Patch(data, w.offset.value, U32Bytes(w.value % TWO_32))
  }

  predicate AllFit(ws: seq<Write>, length: nat) { forall i | 0 <= i < |ws| :: ws[i].Fits(length) }

  function PutAll(data: seq<byte>, ws: seq<Write>): (r: seq<byte>)
    requires AllFit(ws, |data|)
    ensures |r| == |data|
  {
    if ws == [] then data else Put(PutAll(data, ws[..|ws| - 1]), ws[|ws| - 1])
  }

  /** The writes of one dimension, and all writes of a launch, in the driver's order. */
  function DimensionWrites(p: Payload, s: Sizes, i: nat): (ws: seq<Write>)
    requires p.Valid() && s.Valid() && i < 3
    ensures |ws| == 5
  {
    [ Write(p.localWorkSize[i], s.local[i]), Write(p.localWorkSize2[i], s.local[i]),
      Write(p.enqueuedLocalWorkSize[i], s.local[i]), Write(p.globalWorkSize[i], s.global[i]),
      Write(p.numWorkGroups[i], s.groups[i]) ]
  }

  function Writes(p: Payload, s: Sizes, n: nat): seq<Write>
    requires p.Valid() && s.Valid() && n <= 3
  {
    if n == 0 then [] else Writes(p, s, n - 1) + DimensionWrites(p, s, n - 1)
  }

  function LaunchWrites(p: Payload, s: Sizes): seq<Write>
    requires p.Valid() && s.Valid()
  {
    Writes(p, s, 3) + [Write(p.workDimensions, s.workDim)]
  }

  lemma PutOneMore(data: seq<byte>, ws: seq<Write>, w: Write)
    requires AllFit(ws, |data|) && w.Fits(|data|)
    ensures AllFit(ws + [w], |data|) && PutAll(data, ws + [w]) == Put(PutAll(data, ws), w)
  {
    assert (ws + [w])[..|ws|] == ws;
  }

  /** `patchKernelConstant`. */
  method PatchKernelConstant(data: array<byte>, info: Option<nat>, kernelConstant: nat)
    requires Write(info, kernelConstant).Fits(data.Length)
    modifies data
    ensures data[..] == Put(old(data[..]), Write(info, kernelConstant))
  {
    match info {
      case None =>
      case Some(patchOffset) => CopyInto(data, patchOffset, U32Bytes(kernelConstant % TWO_32));
    }
  }

  /** One more patch behind those already done. */
  method PatchNext(data: array<byte>, ghost before: seq<byte>, ghost done: seq<Write>, info: Option<nat>, kernelConstant: nat)
    requires Write(info, kernelConstant).Fits(data.Length) && |before| == data.Length
    requires AllFit(done, |before|) && data[..] == PutAll(before, done)
    modifies data
    ensures AllFit(done + [Write(info, kernelConstant)], |before|)
    ensures data[..] == PutAll(before, done + [Write(info, kernelConstant)])
  {
    hide Put, PutAll;
    PutOneMore(before, done, Write(info, kernelConstant));
    PatchKernelConstant(data, info, kernelConstant);
  }

  /** The five patches of dimension i. */
  method PatchDimension(data: array<byte>, ghost before: seq<byte>, p: Payload, s: Sizes, i: nat)
    requires p.Valid() && s.Valid() && i < 3 && |before| == data.Length
    requires AllFit(Writes(p, s, i + 1), |before|) && AllFit(Writes(p, s, i), |before|)
    requires data[..] == PutAll(before, Writes(p, s, i))
    modifies data
    ensures data[..] == PutAll(before, Writes(p, s, i + 1))
  {
    hide PutAll, AllFit;
    ghost var done, ws := Writes(p, s, i), DimensionWrites(p, s, i);
    DimensionFits(p, s, i, |before|);
    PatchNext(data, before, done, p.localWorkSize[i], s.local[i]);
    PatchNext(data, before, done + [ws[0]], p.localWorkSize2[i], s.local[i]);
    PatchNext(data, before, done + [ws[0]] + [ws[1]], p.enqueuedLocalWorkSize[i], s.local[i]);
    PatchNext(data, before, done + [ws[0]] + [ws[1]] + [ws[2]], p.globalWorkSize[i], s.global[i]);
    PatchNext(data, before, done + [ws[0]] + [ws[1]] + [ws[2]] + [ws[3]], p.numWorkGroups[i], s.groups[i]);
    assert done + [ws[0]] + [ws[1]] + [ws[2]] + [ws[3]] + [ws[4]] == Writes(p, s, i + 1);
  }

  lemma DimensionFits(p: Payload, s: Sizes, i: nat, length: nat)
    requires p.Valid() && s.Valid() && i < 3 && AllFit(Writes(p, s, i + 1), length)
    ensures var ws := DimensionWrites(p, s, i);
            ws[0].Fits(length) && ws[1].Fits(length) && ws[2].Fits(length) && ws[3].Fits(length) && ws[4].Fits(length)
  {
    var done, ws := Writes(p, s, i), DimensionWrites(p, s, i);
    forall k: nat | k < 5 ensures ws[k].Fits(length) { assert Writes(p, s, i + 1)[|done| + k] == ws[k]; }
  }

  lemma {:induction false} EarlierFit(p: Payload, s: Sizes, n: nat, length: nat)
    requires p.Valid() && s.Valid() && n <= 3 && AllFit(LaunchWrites(p, s), length)
    ensures AllFit(Writes(p, s, n), length)
    decreases 3 - n
  {
    if n < 3 {
      EarlierFit(p, s, n + 1, length);
      assert Writes(p, s, n) <= Writes(p, s, n + 1);
    } else {
      assert Writes(p, s, 3) <= LaunchWrites(p, s);
    }
  }

  /** All patches of one launch. */
  method PatchWorkSizes(data: array<byte>, p: Payload, s: Sizes)
    requires p.Valid() && s.Valid() && AllFit(LaunchWrites(p, s), data.Length)
    modifies data
    ensures data[..] == PutAll(old(data[..]), LaunchWrites(p, s))
  {
    hide Put, AllFit, DimensionWrites;
    ghost var before := data[..];
    EarlierFit(p, s, 0, |before|);
    assert PutAll(before, Writes(p, s, 0)) == before;
    for i := 0 to 3
      invariant AllFit(Writes(p, s, i), |before|) && data[..] == PutAll(before, Writes(p, s, i))
    {
      EarlierFit(p, s, i + 1, |before|);
      PatchDimension(data, before, p, s, i);
    }
    LastFits(p, s, |before|);
    PatchNext(data, before, Writes(p, s, 3), p.workDimensions, s.workDim);
  }

  lemma LastFits(p: Payload, s: Sizes, length: nat)
    requires p.Valid() && s.Valid() && AllFit(LaunchWrites(p, s), length)
    ensures Write(p.workDimensions, s.workDim).Fits(length)
  {
    var ws := LaunchWrites(p, s);
    assert ws[|ws| - 1] == Write(p.workDimensions, s.workDim);
  }

  // ---------- what a kernel reads ----------

  predicate Touches(w: Write, at: nat) { w.offset.Some? && w.offset.value <= at < w.offset.value + 4 }

  /** A place no later write touches reads back the size written there. */
  lemma {:induction false} WriteReadsBack(data: seq<byte>, ws: seq<Write>, j: nat)
    requires AllFit(ws, |data|) && j < |ws| && ws[j].offset.Some?
    requires forall k, at: nat | j < k < |ws| && Touches(ws[k], at) :: !Touches(ws[j], at)
    ensures U32At(PutAll(data, ws), ws[j].offset.value) == ws[j].value % TWO_32
    decreases |ws|
  {
    hide U32At, U32Bytes;
    var shorter, w, p := ws[..|ws| - 1], ws[|ws| - 1], ws[j].offset.value;
    assert AllFit(shorter, |data|);
    var before := PutAll(data, shorter);
    if j == |shorter| {
      U32RoundTrip(before[..p], w.value % TWO_32, before[p + 4..]);
    } else {
      WriteReadsBack(data, shorter, j);
      WriteElsewhere(before, w, p, ws[j]);
    }
  }

  lemma WriteElsewhere(data: seq<byte>, w: Write, p: nat, other: Write)
    requires w.Fits(|data|) && p + 4 <= |data| && other.offset == Some(p)
    requires forall at: nat | Touches(w, at) :: !Touches(other, at)
    ensures U32At(Put(data, w), p) == U32At(data, p)
  {
    if w.offset.Some? {
      assert Touches(w, w.offset.value) && Touches(w, w.offset.value + 3);
      assert Touches(other, p) && Touches(other, p + 3);
      U32Local(Put(data, w), p, data, p);
    }
  }

  /** A byte outside all places is unchanged. */
  lemma {:induction false} OtherBytesStay(data: seq<byte>, ws: seq<Write>, at: nat)
    requires AllFit(ws, |data|) && at < |data| && forall i | 0 <= i < |ws| :: !Touches(ws[i], at)
    ensures PutAll(data, ws)[at] == data[at]
    decreases |ws|
  {
    if ws != [] {
      assert AllFit(ws[..|ws| - 1], |data|);
      OtherBytesStay(data, ws[..|ws| - 1], at);
      assert !Touches(ws[|ws| - 1], at);
    }
  }

  /** No two writes touch the same byte. */
  ghost predicate Separate(ws: seq<Write>)
  {
    forall j, k, at: nat | 0 <= j < k < |ws| && Touches(ws[k], at) :: !Touches(ws[j], at)
  }

  predicate ReadsAs(data: seq<byte>, offset: Option<nat>, value: nat)
  {
    offset.Some? ==> offset.value + 4 <= |data| && U32At(data, offset.value) == value % TWO_32
  }

  lemma WriteAt(p: Payload, s: Sizes, i: nat, c: nat)
    requires p.Valid() && s.Valid() && i < 3 && c < 5
    ensures |LaunchWrites(p, s)| == 16 && LaunchWrites(p, s)[5 * i + c] == DimensionWrites(p, s, i)[c]
    ensures LaunchWrites(p, s)[15] == Write(p.workDimensions, s.workDim)
  {
    hide DimensionWrites;
    var w0, w1, w2 := DimensionWrites(p, s, 0), DimensionWrites(p, s, 1), DimensionWrites(p, s, 2);
    assert Writes(p, s, 0) == [] && [] + w0 == w0;
    assert Writes(p, s, 1) == w0 && Writes(p, s, 2) == w0 + w1 && Writes(p, s, 3) == w0 + w1 + w2;
  }

  lemma SeparateReads(data: seq<byte>, ws: seq<Write>, j: nat)
    requires AllFit(ws, |data|) && Separate(ws) && j < |ws|
    ensures ReadsAs(PutAll(data, ws), ws[j].offset, ws[j].value)
  {
    if ws[j].offset.Some? { WriteReadsBack(data, ws, j); }
  }

  /** With separate places the kernel reads, in every dimension, its group's size, the global size and the number
      of groups, wherever it asked for them. */
  lemma KernelReadsItsSizes(data: seq<byte>, p: Payload, s: Sizes, i: nat)
    requires p.Valid() && s.Valid() && i < 3 && AllFit(LaunchWrites(p, s), |data|) && Separate(LaunchWrites(p, s))
    ensures var after := PutAll(data, LaunchWrites(p, s));
            && ReadsAs(after, p.localWorkSize[i], s.local[i]) && ReadsAs(after, p.localWorkSize2[i], s.local[i])
            && ReadsAs(after, p.enqueuedLocalWorkSize[i], s.local[i])
            && ReadsAs(after, p.globalWorkSize[i], s.global[i]) && ReadsAs(after, p.numWorkGroups[i], s.groups[i])
            && ReadsAs(after, p.workDimensions, s.workDim)
  {
    hide PutAll, ReadsAs, LaunchWrites, AllFit, Separate;
    forall c: nat | c < 5
      ensures ReadsAs(PutAll(data, LaunchWrites(p, s)), DimensionWrites(p, s, i)[c].offset, DimensionWrites(p, s, i)[c].value)
    {
      WriteAt(p, s, i, c);
      SeparateReads(data, LaunchWrites(p, s), 5 * i + c);
    }
    WriteAt(p, s, i, 0);
    SeparateReads(data, LaunchWrites(p, s), 15);
    var ws := DimensionWrites(p, s, i);
    assert ws[0].value == ws[1].value == ws[2].value == s.local[i];
    assert ws[3].value == s.global[i] && ws[4].value == s.groups[i];
  }
}
