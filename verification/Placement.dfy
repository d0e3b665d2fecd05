/** Launches whose data is in the heaps, and what later launches leave of it. */
module Placement {
  import opened Words
  import opened Commands
  import opened DriverUtils
  import opened Launches
  import opened Dispatcher
  import opened GpuState
  import BufferObjects
  import Runs
  import SurfaceHeap
  import IndirectHeap
  import DynamicHeap
  import ThreadPayload
  import NdRange
  import LaunchState
  import Wiring
  import WorkGroup

  /** A launch that has been built: where its data starts in the heaps, what the heaps held when it had been placed,
      and all bytes of the indirect heap then. */
  datatype Placed = Placed(k: Launch, surfaceStart: nat, indirectStart: nat, descriptorStart: nat, heaps: Heaps,
                           image: seq<byte>)

  /** The surfaces as far as bytes are reserved for them. */
  predicate SurfacesIn(m: seq<byte>, start: nat, k: SurfaceHeap.Surfaces)
  {
    k.Valid() && k.count > 0 ==>
      forall at | start <= at < |m| && at < start + |k.blob| ::
        at - start < |SurfaceHeap.Relocated(k.blob, k.table, k.count, start)|
        && m[at] == SurfaceHeap.Relocated(k.blob, k.table, k.count, start)[at - start]
  }

  predicate DataIn(m: seq<byte>, start: nat, data: seq<byte>)
  {
    start + |data| <= |m| && m[start..start + |data|] == data
  }

  /** The heaps end with the launch. */
  ghost predicate WellPlaced(p: Placed)
  {
    && p.k.Valid()
    && |p.heaps.surfaces| == SurfaceHeap.NextOffset(p.surfaceStart, p.k.surfaces.count) >= 64
    && SurfacesIn(p.heaps.surfaces, p.surfaceStart, p.k.surfaces)
    && |p.heaps.indirect| == IndirectHeap.NextOffset(p.indirectStart, p.k.indirect)
    && DataIn(p.heaps.indirect, p.indirectStart, p.k.indirect.crossThreadData)
    && |p.heaps.dynamicState| == p.descriptorStart + 64
    && DataIn(p.heaps.dynamicState, p.descriptorStart,
              DwordBytes(DynamicHeap.Descriptor(InterfaceOf(p.k, |p.heaps.surfaces|))))
  }

  /** What the generator left behind the data, some of it past the end of what is reserved. */
  ghost predicate IdsPlaced(p: Placed)
    requires p.k.Valid()
  {
    var at := p.indirectStart + |p.k.indirect.crossThreadData|;
    && p.heaps.indirect <= p.image && at + 2 <= |p.image| && p.indirectStart % 64 == 0 && p.indirectStart < Runs.STREAM_SIZE
    && ThreadPayload.IdsIn(p.image, at, p.k.indirect)
  }

  /** The commands of s were built for the launch, and the heaps have only grown since. */
  ghost predicate Stands(p: Placed, places: Places, now: Heaps, s: Runs.Submission)
  {
    && places.Valid() && WellPlaced(p) && IdsPlaced(p) && Grows(p.heaps, now)
    && s.receiver == ReceiverOf(places, p.k)
    && s.task.descriptorStart == p.descriptorStart && s.task.walk == WalkOf(places, p.k, p.indirectStart)
  }

  lemma StandsOn(p: Placed, places: Places, now: Heaps, later: Heaps, s: Runs.Submission)
    requires Stands(p, places, now, s) && Grows(now, later)
    ensures Stands(p, places, later, s)
  {
    hide WellPlaced, IdsPlaced, Grows, WalkOf, ReceiverOf;
    assert p.k.Valid() by { BuiltIsValid(p, places, now, s); }
    GrowsOn(p.heaps, now, later);
  }

  lemma BuiltIsValid(p: Placed, places: Places, now: Heaps, s: Runs.Submission)
    requires Stands(p, places, now, s)
    ensures p.k.Valid() && places.Valid()
  {
  }

  /** The submitted launches, in order. */
  ghost predicate AllStand(ps: seq<Placed>, log: seq<Runs.Submission>, places: Places, now: Heaps)
  {
    |ps| == |log| && forall i | 0 <= i < |ps| :: Stands(ps[i], places, now, log[i])
  }

  lemma AllStandOn(ps: seq<Placed>, log: seq<Runs.Submission>, places: Places, now: Heaps, later: Heaps)
    requires AllStand(ps, log, places, now) && Grows(now, later)
    ensures AllStand(ps, log, places, later)
  {
    hide Stands, Grows;
    forall i | 0 <= i < |ps| ensures Stands(ps[i], places, later, log[i])
    {
      StandsOn(ps[i], places, now, later, log[i]);
    }
  }

  lemma AllStandMore(ps: seq<Placed>, log: seq<Runs.Submission>, places: Places, now: Heaps, p: Placed,
                     s: Runs.Submission)
    requires AllStand(ps, log, places, now) && Stands(p, places, now, s)
    ensures AllStand(ps + [p], log + [s], places, now)
  {
    hide Stands;
  }

  // ---------- what has just been built ----------

  ghost function PlacedNow(d: CommandDispatcher, k: Launch, surfaceStart: nat, indirectStart: nat, descriptorStart: nat):
    Placed
    requires d.iohAllocation != null
    reads d, d.sshAllocation, d.iohAllocation, d.dshAllocation, d.iohAllocation.cpuAddress
    reads if d.sshAllocation == null then {} else {d.sshAllocation.cpuAddress}
    reads if d.dshAllocation == null then {} else {d.dshAllocation.cpuAddress}
  {
    Placed(k, surfaceStart, indirectStart, descriptorStart, d.HeapBytes(), d.iohAllocation.cpuAddress[..])
  }

  lemma BuiltIsPlaced(d: CommandDispatcher, k: Launch, surfaceStart: nat, indirectStart: nat, descriptorStart: nat)
    requires d.Buffers() && k.Valid() && d.HeapsHold(k, surfaceStart, indirectStart, descriptorStart)
    requires IndirectHeap.Room(indirectStart, k.indirect, Runs.STREAM_SIZE) && indirectStart % 64 == 0
    ensures WellPlaced(PlacedNow(d, k, surfaceStart, indirectStart, descriptorStart))
    ensures IdsPlaced(PlacedNow(d, k, surfaceStart, indirectStart, descriptorStart))
  {
    hide SurfaceHeap.Relocated, SurfaceHeap.NextOffset, IndirectHeap.NextOffset, DynamicHeap.Descriptor,
         IndirectHeap.HoldsIds, ThreadPayload.IdsIn, DwordBytes;
    SurfacesPlaced(d.sshAllocation, surfaceStart, k.surfaces);
    IndirectPlaced(d.iohAllocation, indirectStart, k.indirect);
    DescriptorPlaced(d.dshAllocation, descriptorStart, DynamicHeap.Descriptor(InterfaceOf(k, d.sshAllocation.offset)));
  }

  lemma SurfacesPlaced(b: BufferObjects.BufferObject, start: nat, k: SurfaceHeap.Surfaces)
    requires b.Valid() && SurfacesAt(b, start, k)
    ensures |Content(b)| == b.offset && SurfacesIn(Content(b), start, k)
  {
    hide SurfaceHeap.Relocated;
    if k.Valid() && k.count > 0 {
      var relocated := SurfaceHeap.Relocated(k.blob, k.table, k.count, start);
      assert |relocated| == |k.blob|;
      forall at | start <= at < |Content(b)| && at < start + |k.blob|
        ensures Content(b)[at] == relocated[at - start]
      {
        assert b.cpuAddress[start..start + |k.blob|][at - start] == b.cpuAddress[at];
      }
    }
  }

  lemma IndirectPlaced(b: BufferObjects.BufferObject, start: nat, k: IndirectHeap.Indirect)
    requires b.Valid() && b.cpuAddress.Length == Runs.STREAM_SIZE && k.Valid() && IndirectAt(b, start, k)
    requires b.offset == IndirectHeap.NextOffset(start, k) && IndirectHeap.Room(start, k, Runs.STREAM_SIZE)
    ensures |Content(b)| == b.offset && Content(b) <= b.cpuAddress[..] && DataIn(Content(b), start, k.crossThreadData)
    ensures start + |k.crossThreadData| + 2 <= |b.cpuAddress[..]| && start < Runs.STREAM_SIZE
    ensures ThreadPayload.IdsIn(b.cpuAddress[..], start + |k.crossThreadData|, k)
  {
    hide IndirectHeap.HoldsIds, IndirectHeap.NextOffset, IndirectHeap.PerThreadDataSize, ThreadPayload.IdsIn,
         IndirectHeap.GeneratedSize;
    ThreadPayload.HeapHoldsIds(b.cpuAddress, start + |k.crossThreadData|, k);
    ThreadPayload.RoomForIds(start, k);
    IndirectHeap.RoomArithmetic(start, k);
    assert Content(b)[start..start + |k.crossThreadData|] == b.cpuAddress[start..start + |k.crossThreadData|];
  }

  lemma DescriptorPlaced(b: BufferObjects.BufferObject, start: nat, d: Command)
    requires b.Valid() && DescriptorAt(b, start, d) && |d| == 8 && b.offset == start + 64
    ensures |Content(b)| == b.offset && DataIn(Content(b), start, DwordBytes(d))
  {
    hide DwordBytes;
    DwordLength(d);
    assert Content(b)[start..start + 32] == b.cpuAddress[start..start + 32];
  }

  lemma {:induction false} DwordLength(d: Command)
    ensures |DwordBytes(d)| == 4 * |d|
  {
  }

  // ---------- what still stands ----------

  /** The descriptor that a walk of the launch names, as the dynamic-state heap holds it. */
  function DescriptorIn(m: seq<byte>, w: Walked, base: nat): (d: Command)
    requires |w.command| == 15 && base + 32 <= DescriptorOf(w) + 32 <= base + |m|
    ensures |d| == 8
  {
    DwordsAt(m, DescriptorOf(w) - base, 8)
  }

  /** The walk w is the launch's, and finds it in the heaps: its surfaces, as far as bytes are reserved for them, its
      cross-thread data, its descriptor, and for its threads the IDs with which every item of the whole range runs once, if
      any can. */
  ghost predicate Found(p: Placed, places: Places, now: Heaps, w: Walked)
    requires p.k.Valid() && places.Valid()
  {
    var surfaceEnd := SurfaceHeap.NextOffset(p.surfaceStart, p.k.surfaces.count);
    && Wiring.IsWalkOf(w, places, p.k, p.indirectStart, p.descriptorStart)
    && 64 <= surfaceEnd <= |now.surfaces| && SurfacesIn(now.surfaces[..surfaceEnd], p.surfaceStart, p.k.surfaces)
    && DataIn(now.indirect, p.indirectStart, p.k.indirect.crossThreadData)
    && p.descriptorStart + 32 <= |now.dynamicState|
    && var d := DescriptorIn(now.dynamicState, w, places.dynamicState);
       && Wiring.IsDescriptorOf(d, p.k)
       && DynamicHeap.TablePlace(d) == SurfaceHeap.BindingTablePlace(surfaceEnd)
       && (ThreadPayload.Exact(p.k.indirect) ==> RunsAll(now.indirect, Canonize(places.indirect), w, d, p.k))
  }

  /** The threads of a group run its items, and if the groups can be counted all groups' threads run the range. */
  ghost predicate RunsAll(m: seq<byte>, base: nat, w: Walked, d: Command, k: Launch)
    requires k.Valid() && |w.command| == 15 && |d| == 8
  {
    var g := ThreadPayload.ProgramOf(w, d);
    && ThreadPayload.RunsOnce(m, base, g, k.indirect)
    && (Wiring.Countable(k) ==> NdRange.RunsRange(m, base, w.command, g, k.indirect, NdRange.RangeOf(k)))
  }

  lemma OnceIsAll(m: seq<byte>, base: nat, w: Walked, d: Command, k: Launch)
    requires k.Valid() && Wiring.WalkIsMeant(w.command, k) && |d| == 8
    requires ThreadPayload.RunsOnce(m, base, ThreadPayload.ProgramOf(w, d), k.indirect)
    ensures RunsAll(m, base, w, d, k)
  {
    hide ThreadPayload.RunsOnce, ThreadPayload.ProgramOf, NdRange.RunsRange, NdRange.RangeOf, Launch.Valid, Wiring.Countable,
         Wiring.WalksEveryGroup, ThreadsOfGroup, LanesOfThread, Wiring.DataSize, WorkGroup.HwThreads;
    if Wiring.Countable(k) {
      NdRange.GroupsMakeRange(m, base, w.command, ThreadPayload.ProgramOf(w, d), k);
    }
  }

  /** However much has been appended since, and whatever state the GPU was in before. */
  lemma PlacedDataStands(p: Placed, places: Places, now: Heaps, s: Runs.Submission, g: Gpu)
    requires Stands(p, places, now, s)
    ensures p.k.Valid() && places.Valid()
    ensures Found(p, places, now, Walked(LaunchState.AtWalk(g, s.receiver, s.task), GpgpuWalker(s.task.walk)))
  {
    hide SurfacesIn, IdsPlaced, ThreadPayload.Exact, RunsAll, Canonize, DescriptorIn, DescriptorOf, DataOf, GpgpuWalker,
         LaunchState.AtWalk, DwordBytes, DynamicHeap.Descriptor, DynamicHeap.TablePlace, SurfaceHeap.BindingTablePlace,
         IndirectHeap.NextOffset, SurfaceHeap.NextOffset, IndirectHeap.Indirect.Valid, SurfaceHeap.Surfaces.Valid, WalkOf,
         ReceiverOf, InterfaceOf, IndirectHeap.PerThreadDataSize, WorkGroup.HwThreads, Wiring.WalkIsMeant, Wiring.IsSetUpFor,
         Wiring.IsDescriptorOf;
    var w := Walked(LaunchState.AtWalk(g, s.receiver, s.task), GpgpuWalker(s.task.walk));
    assert p.indirectStart % 64 == 0 && p.indirectStart < Runs.STREAM_SIZE by { IdsStart(p); }
    Wiring.WalkOfLaunch(g, places, p.k, s.task, p.indirectStart);
    assert now.surfaces[..|p.heaps.surfaces|] == p.heaps.surfaces;
    StaysIn(p.heaps.indirect, now.indirect, p.indirectStart, p.k.indirect.crossThreadData);
    DescriptorStands(p, places, now, w);
    if ThreadPayload.Exact(p.k.indirect) {
      IdsStand(p, places, now.indirect, w, DescriptorIn(now.dynamicState, w, places.dynamicState));
    }
  }

  lemma IdsStart(p: Placed)
    requires p.k.Valid() && IdsPlaced(p)
    ensures p.indirectStart % 64 == 0 && p.indirectStart < Runs.STREAM_SIZE
  {
    hide ThreadPayload.IdsIn;
  }

  /** The descriptor that the walk names is read from the heap. */
  lemma DescriptorStands(p: Placed, places: Places, now: Heaps, w: Walked)
    requires places.Valid() && WellPlaced(p) && Grows(p.heaps, now) && |w.command| == 15
    requires DescriptorOf(w) == places.dynamicState + p.descriptorStart
    ensures p.descriptorStart + 32 <= |now.dynamicState|
    ensures var d := DescriptorIn(now.dynamicState, w, places.dynamicState);
            && Wiring.IsDescriptorOf(d, p.k)
            && DynamicHeap.TablePlace(d) == SurfaceHeap.BindingTablePlace(|p.heaps.surfaces|)
  {
    hide SurfacesIn, DwordsAt, DwordBytes, DynamicHeap.Descriptor, DynamicHeap.TablePlace, SurfaceHeap.BindingTablePlace,
         IndirectHeap.NextOffset, SurfaceHeap.NextOffset, Launch.Valid, InterfaceOf, Wiring.IsDescriptorOf, DescriptorOf,
         Places.Valid;
    Wiring.InterfaceParts(p.k, |p.heaps.surfaces|);
    Wiring.DescriptorReadsBack(p.k, |p.heaps.surfaces|);
    var d := DynamicHeap.Descriptor(InterfaceOf(p.k, |p.heaps.surfaces|));
    DwordLength(d);
    StaysIn(p.heaps.dynamicState, now.dynamicState, p.descriptorStart, DwordBytes(d));
    DwordsReadBack(now.dynamicState, p.descriptorStart, d);
  }

  lemma StaysIn(m: seq<byte>, more: seq<byte>, start: nat, data: seq<byte>)
    requires m <= more && DataIn(m, start, data)
    ensures DataIn(more, start, data)
  {
    assert more[start..start + |data|] == m[start..start + |data|];
  }

  lemma IdsStand(p: Placed, places: Places, now: seq<byte>, w: Walked, d: Command)
    requires places.Valid() && WellPlaced(p) && IdsPlaced(p) && p.heaps.indirect <= now
    requires Wiring.Carries(w, d, p.k, Canonize(places.indirect) + p.indirectStart)
    requires ThreadPayload.Exact(p.k.indirect) && |w.command| == 15 && |d| == 8
    ensures RunsAll(now, Canonize(places.indirect), w, d, p.k)
  {
    hide SurfacesIn, ThreadPayload.IdsIn, ThreadPayload.Exact, ThreadPayload.RunsOnce, ThreadPayload.ProgramOf, RunsAll,
         Canonize, DwordBytes, DynamicHeap.Descriptor, IndirectHeap.NextOffset, SurfaceHeap.NextOffset,
         ThreadPayload.LaunchProgram, IndirectHeap.Indirect.Valid, SurfaceHeap.Surfaces.Valid, Wiring.WalkIsMeant,
         Wiring.IsDescriptorOf, DataOf, InterfaceOf;
    var k, i, base := p.k.indirect, p.indirectStart, Canonize(places.indirect);
    StaysIn(p.heaps.indirect, p.image, i, k.crossThreadData);
    ThreadPayload.OwnDataRunsOnce(w, d, p.k, p.image, base, i);
    ThreadPayload.CommandsCarryProgram(w, d, p.k, base + i);
    var g := ThreadPayload.ProgramOf(w, d);
    ThreadPayload.LaterBytesDoNotMatter(p.heaps.indirect, p.image, base, i, k, g.cross);
    ThreadPayload.LaterBytesDoNotMatter(p.heaps.indirect, now, base, i, k, g.cross);
    OnceIsAll(now, base, w, d, p.k);
  }
}
