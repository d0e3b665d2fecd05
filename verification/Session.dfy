/** A context together with the GPU it drives.

    The driver's methods and the GPU's steps are interleaved as `ExecuteKernel` and the hardware interleave
    them.  Every step here is the corresponding step of the machine of module Runs, on the real buffers, so
    the invariants proved there for every run hold of every sequence of calls.
 */
module Session {
  import opened Options
  import opened Commands
  import opened LaunchStream
  import opened Runs
  import opened Launches
  import opened Dispatcher
  import opened Placement
  import opened GpuState
  import LaunchState
  import Wiring
  import KernelArgs
  import SurfaceHeap
  import IndirectHeap
  import WorkSize

  /** The batch start offsets of submissions. */
  function Starts(log: seq<Submission>): seq<nat>
  {
    seq(|log|, i requires 0 <= i < |log| => log[i].receiverAt)
  }

  class Context {
    const dispatcher: CommandDispatcher
    const sizes: WorkSize.WorkSizes
    /** The word in the tag buffer, and the batch start offsets the GPU has not retired yet. */
    var tag: nat
    var pending: seq<nat>
    ghost var events: seq<Event>
    ghost var run: State
    /** The launches that have been submitted, and the one built last. */
    ghost var launches: seq<Placed>
    ghost var latest: Option<Placed>

    /** The buffers and fields are those of the run so far. */
    ghost predicate Matches()
      reads this, dispatcher, dispatcher.commandStreamTask, dispatcher.commandStreamCSR
      reads if dispatcher.commandStreamTask == null then {} else {dispatcher.commandStreamTask.cpuAddress}
      reads if dispatcher.commandStreamCSR == null then {} else {dispatcher.commandStreamCSR.cpuAddress}
    {
      && Reach(dispatcher.places.streams, events) == Some(run)
      && run.task == dispatcher.TaskBytes() && run.csr == dispatcher.ReceiverBytes()
      && run.completionTag == dispatcher.completionTag && run.tagValue == tag
      && |run.history| <= |run.log| && pending == Starts(run.log[|run.history|..])
      && (run.built.Some? ==>
            && dispatcher.Built() && dispatcher.commandStreamCSR.currentTaskOffset == 320
            && run.built.value.receiverAt + 320 == |run.csr|)
    }

    /** Every launch's data is still where its commands look for it. */
    ghost predicate Kept()
      reads this, dispatcher, dispatcher.sshAllocation, dispatcher.iohAllocation, dispatcher.dshAllocation
      reads if dispatcher.sshAllocation == null then {} else {dispatcher.sshAllocation.cpuAddress}
      reads if dispatcher.iohAllocation == null then {} else {dispatcher.iohAllocation.cpuAddress}
      reads if dispatcher.dshAllocation == null then {} else {dispatcher.dshAllocation.cpuAddress}
    {
      && AllStand(launches, run.log, dispatcher.places, dispatcher.HeapBytes())
      && (run.built.Some? ==>
            latest.Some? && Stands(latest.value, dispatcher.places, dispatcher.HeapBytes(), run.built.value))
    }

    /** No launch is under construction or waited for. */
    ghost predicate Idle()
      reads this
    {
      run.built == None && !run.awaiting
    }

    ghost function NextRun(e: Event): Option<State>
      reads this
    {
      if Enabled(run, e) then Some(Next(dispatcher.places.streams, run, e)) else None
    }

    constructor (places: Places, hw: WorkSize.HwInfo)
      requires places.Valid() && hw.Valid()
      ensures dispatcher.Buffers() && fresh(dispatcher) && dispatcher.places == places && sizes.hw == hw
      ensures Matches() && Kept() && Idle() && events == [] && run == START && sizes.Valid() && fresh(sizes)
    {
      dispatcher := new CommandDispatcher(places);
      sizes := new WorkSize.WorkSizes(hw);
      tag, pending := 0, [];
      events, run := [], START;
      launches, latest := [], None;
    }

    /** The GPU executes the next pending batch, up to n commands of it. */
    method Retire(n: nat)
      requires dispatcher.Buffers() && Matches() && Kept() && pending != []
      modifies this`tag, this`pending, this`events, this`run
      ensures Matches() && Kept() && Some(run) == old(NextRun(Event.Retire(n)))
      ensures events == old(events) + [Event.Retire(n)] && pending == old(pending)[1..]
    {
      hide Run, ValueAfter, Reach, AllStand, Stands;
      var l := dispatcher.places.streams;
      var memory := Memory(Region(l.taskBase, dispatcher.TaskBytes()), Region(l.csrBase, dispatcher.ReceiverBytes()));
      var trace := Run(memory, Running(l.csrBase + pending[0], []), n).trace;
      ReachNext(l, events, run, Event.Retire(n));
      run := Next(l, run, Event.Retire(n));
      events := events + [Event.Retire(n)];
      tag := ValueAfter(trace, l.tagAddress, tag);
      pending := pending[1..];
    }

    /** The event that building launch k is. */
    ghost function BuildOf(k: Launch, g: Grants): Event
      requires dispatcher.Buffers() && k.Valid()
      reads this, dispatcher, dispatcher.sshAllocation, dispatcher.iohAllocation, dispatcher.dshAllocation,
            dispatcher.commandStreamTask, dispatcher.commandStreamCSR
    {
      Build(ReceiverOf(dispatcher.places, k), dispatcher.DynamicEnd(),
            WalkOf(dispatcher.places, k, dispatcher.IndirectEnd()), dispatcher.Outcome(g))
    }

    method Construct(k: Launch, g: Grants, kernel: KernelArgs.Kernel) returns (ret: Code)
      requires dispatcher.Buffers() && Matches() && Idle() && k.Valid() && dispatcher.Room(k)
      requires dispatcher.Foreign(kernel.crossThreadData) && k.PatchesFrom(kernel.crossThreadData[..]) && Kept()
      modifies this`events, this`run, this`latest, dispatcher.Footprint(), kernel.crossThreadData
      ensures unchanged(sizes) && unchanged(kernel) && unchanged(this`tag) && unchanged(this`pending)
      ensures dispatcher.Buffers() && Matches() && Kept()
      ensures unchanged(this`launches)
      ensures ret == Success ==> kernel.crossThreadData[..] == k.indirect.crossThreadData
      ensures Some(run) == old(NextRun(BuildOf(k, g))) && events == old(events) + [old(BuildOf(k, g))]
      ensures ret == if old(dispatcher.Outcome(g)) == Complete then Success else BufferAllocationFailed
      ensures ret == Success ==> dispatcher.HeapsHold(k, old(dispatcher.SurfaceEnd()), old(dispatcher.IndirectEnd()),
                                                      old(dispatcher.DynamicEnd()))
      ensures run.log == old(run.log) && run.history == old(run.history) && !run.awaiting
      ensures if ret != Success then Idle()
              else run.built.Some? &&
                   run.built.value.task == TaskOf(dispatcher.places.streams, old(run), old(BuildOf(k, g)))
      ensures ret == Success ==>
                && latest.Some? && latest.value.k == k && latest.value.surfaceStart == old(dispatcher.SurfaceEnd())
                && latest.value.indirectStart == old(dispatcher.IndirectEnd())
                && latest.value.descriptorStart == old(dispatcher.DynamicEnd())
    {
      hide AppendTask, AppendReceiver, WalkOf, ReceiverOf, Reach, SurfaceHeap.NextOffset, IndirectHeap.NextOffset,
           IndirectHeap.Room, Next, Enabled, Starts, CommandDispatcher.HeapsHold, CommandDispatcher.Buffers,
           CommandDispatcher.Outcome, CommandDispatcher.Room, Launch.Valid, TaskOf, CommandDispatcher.NextTask, Content,
           CommandDispatcher.TaskBytes, CommandDispatcher.ReceiverBytes, CommandDispatcher.DynamicEnd,
           CommandDispatcher.IndirectEnd, CommandDispatcher.SurfaceEnd, Launch.PatchesFrom, Places.Valid,
           CommandDispatcher.Foreign, CommandDispatcher.Footprint, CommandDispatcher.HeapBytes, AllStand, Stands, Grows;
      var l := dispatcher.places.streams;
      ghost var e, before := BuildOf(k, g), dispatcher.HeapBytes();
      CanBuild(k, g);
      ReachNext(l, events, run, e);
      BuildNext(l, run, e);
      Elsewhere(kernel);
      ghost var surfaceStart, indirectStart, descriptorStart := dispatcher.SurfaceEnd(), dispatcher.IndirectEnd(),
                                                                dispatcher.DynamicEnd();
      ghost var task := TaskOf(l, run, e);
      RoomForData(k);
      ret := dispatcher.ConstructBufferObjects(k, g, kernel.crossThreadData);
      run := Next(l, run, e);
      events := events + [e];
      AllStandOn(launches, run.log, dispatcher.places, before, dispatcher.HeapBytes());
      if ret == Success {
        latest := Some(PlacedNow(dispatcher, k, surfaceStart, indirectStart, descriptorStart));
        LatestStands(k, surfaceStart, indirectStart, descriptorStart, run.built.value);
      }
    }

    lemma RoomForData(k: Launch)
      requires dispatcher.Buffers() && k.Valid() && dispatcher.Room(k)
      ensures IndirectHeap.Room(dispatcher.IndirectEnd(), k.indirect, STREAM_SIZE) && dispatcher.IndirectEnd() % 64 == 0
    {
    }

    lemma LatestStands(k: Launch, surfaceStart: nat, indirectStart: nat, descriptorStart: nat, s: Submission)
      requires dispatcher.Buffers() && k.Valid() && dispatcher.HeapsHold(k, surfaceStart, indirectStart, descriptorStart)
      requires IndirectHeap.Room(indirectStart, k.indirect, STREAM_SIZE) && indirectStart % 64 == 0
      requires s.receiver == ReceiverOf(dispatcher.places, k)
      requires s.task.descriptorStart == descriptorStart && s.task.walk == WalkOf(dispatcher.places, k, indirectStart)
      ensures dispatcher.iohAllocation != null
      ensures Stands(PlacedNow(dispatcher, k, surfaceStart, indirectStart, descriptorStart), dispatcher.places,
                     dispatcher.HeapBytes(), s)
    {
      hide WellPlaced, IdsPlaced, WalkOf, ReceiverOf, SurfaceHeap.NextOffset, IndirectHeap.NextOffset, IndirectHeap.Room;
      BuiltIsPlaced(dispatcher, k, surfaceStart, indirectStart, descriptorStart);
    }

    /** Construction touches neither the session nor the kernel object. */
    lemma Elsewhere(kernel: KernelArgs.Kernel)
      ensures this !in dispatcher.Footprint() && sizes !in dispatcher.Footprint() && kernel !in dispatcher.Footprint()
    {
    }

    lemma CanBuild(k: Launch, g: Grants)
      requires dispatcher.Buffers() && Matches() && Idle() && k.Valid() && dispatcher.Room(k)
      ensures Enabled(run, BuildOf(k, g)) && |run.task| % 64 == 0 && |run.csr| % 64 == 0
      ensures dispatcher.DynamicEnd() <= STREAM_SIZE
      ensures TaskOf(dispatcher.places.streams, run, BuildOf(k, g)) == dispatcher.NextTask(k)
      ensures dispatcher.NextTask(k).descriptorStart == dispatcher.DynamicEnd()
      ensures dispatcher.NextTask(k).walk == WalkOf(dispatcher.places, k, dispatcher.IndirectEnd())
    {
      hide Reach, WalkOf, ReceiverOf, SurfaceHeap.NextOffset, IndirectHeap.NextOffset, IndirectHeap.Room, Starts;
    }

    method Submit(k: Launch, kernel: KernelArgs.Kernel, accepted: bool) returns (ret: Code, pinned: seq<nat>)
      requires dispatcher.Buffers() && Matches() && Kept() && run.built.Some? && kernel.Valid() && k.Valid()
      modifies this`events, this`run, this`pending, this`launches, kernel`decoded
      ensures Kept() && launches == if accepted then old(launches + [latest.value]) else old(launches)
      ensures Matches() && Some(run) == old(NextRun(Event.Submit(accepted))) && events == old(events) + [Event.Submit(accepted)]
      ensures ret == (if accepted then Success else GemExecbufferFailed)
      ensures forall a :: a in pinned <==> Needed(dispatcher.places, k, kernel.execData, a)
      ensures pending == if accepted then old(pending) + [|run.csr| - 320] else old(pending)
      ensures run.history == old(run.history) && run.built == None
      ensures if accepted then run.awaiting && run.log == old(run.log + [run.built.value])
              else run.awaiting == old(run.awaiting) && run.log == old(run.log)
      ensures kernel.Valid() && KernelArgs.FlagsOf(kernel.decoded.argDescriptor)
                == KernelArgs.After(old(KernelArgs.FlagsOf(kernel.decoded.argDescriptor)), KernelArgs.Call.ResetArguments)
    {
      hide Reach, Needed, Stands, AllStand, CommandDispatcher.HeapBytes, CommandDispatcher.Buffers, Launch.Valid,
           KernelArgs.FlagsOf, KernelArgs.After, KernelArgs.Kernel.Valid;
      var l := dispatcher.places.streams;
      ReachNext(l, events, run, Event.Submit(accepted));
      var batchStartOffset, batchLength;
      ret, pinned, batchStartOffset, batchLength := dispatcher.PopulateAndSubmitExecBuffer(k, kernel, accepted);
      if accepted {
        pending := pending + [batchStartOffset];
        AllStandMore(launches, run.log, dispatcher.places, dispatcher.HeapBytes(), latest.value, run.built.value);
        launches := launches + [latest.value];
      }
      run := Next(l, run, Event.Submit(accepted));
      events := events + [Event.Submit(accepted)];
    }

    method Finish(waited: bool) returns (ret: Code)
      requires dispatcher.Buffers() && Matches() && Kept() && run.awaiting
      modifies this`events, this`run
      ensures Matches() && Kept() && Idle() && Some(run) == old(NextRun(Event.Finish(waited)))
      ensures events == old(events) + [Event.Finish(waited)]
      ensures ret == Success <==> old(FinishSucceeds(run, Event.Finish(waited)))
      ensures run.log == old(run.log) && run.history == old(run.history)
    {
      hide Reach, AllStand, Stands, CommandDispatcher.HeapBytes, Held, Apart;
      var l := dispatcher.places.streams;
      ReachNext(l, events, run, Event.Finish(waited));
      AwaitingIsBuilt(l, events, run);
      ret := dispatcher.FinishExecution(waited, tag);
      run := Next(l, run, Event.Finish(waited));
      events := events + [Event.Finish(waited)];
    }

    /** Whatever has been built since, whether or not the waits in between succeeded, and whatever state the GPU is in: the
        batch it retires next makes one walk, that of its own launch, and finds it in the heaps. */
    lemma NextRetireFindsItsData(n: nat, g: Gpu)
      requires dispatcher.Buffers() && Matches() && Kept() && |run.history| < |run.log| && n >= 20
      ensures dispatcher.places.Valid() && |launches| == |run.log|
      ensures var l, p, sub := dispatcher.places.streams, launches[|run.history|], run.log[|run.history|];
              && p.k.Valid()
              && OneWalk(p, dispatcher.places, dispatcher.HeapBytes(),
                         Run(MemoryOf(l, run), Running(l.csrBase + sub.receiverAt, []), n).trace, g)
    {
      hide Reach, Run, MemoryOf, OneWalk, Walkers, GpgpuWalker, Stands, Held, Apart, CommandDispatcher.HeapBytes, TraceOf;
      var p, sub := launches[|run.history|], run.log[|run.history|];
      assert Stands(p, dispatcher.places, dispatcher.HeapBytes(), sub);
      BuiltIsValid(p, dispatcher.places, dispatcher.HeapBytes(), sub);
      EveryRetireIsOwnLaunch(dispatcher.places.streams, events, run, n);
      LaunchMakesOneWalk(p, dispatcher.places, dispatcher.HeapBytes(), sub, 20, g);
      AllOfTrace(dispatcher.places.streams, sub);
    }

    /** While the driver waits the GPU retires some of the pending batches, the i-th of them after stops[i]
        commands or at its end; then the wait returns. */
    method WaitAndFinish(stops: seq<nat>, waited: bool) returns (ret: Code)
      requires dispatcher.Buffers() && Matches() && Kept() && run.awaiting && pending != [] && |stops| <= |pending|
      modifies this`tag, this`pending, this`events, this`run
      ensures Matches() && Kept() && Idle() && run.log == old(run.log) && run.log != []
      ensures ret == Success <==> waited && |stops| == |old(pending)| && stops[|stops| - 1] >= 19
      ensures ret == Success ==>
                && |run.history| == |run.log|
                && ReachedTag(run.history[|run.history| - 1], dispatcher.places.streams, run.log[|run.log| - 1])
    {
      hide ReachedTag, Next, FinishSucceeds, Held, Apart, Kept, Reach, Starts;
      PendingIsRest();
      RetireAll(stops);
      FinishOutcome(dispatcher.places.streams, events, run, waited);
      ret := Finish(waited);
    }

    lemma PendingIsRest()
      requires Matches()
      ensures |run.history| + |pending| == |run.log|
    {
      hide Reach;
    }

    /** The batches the GPU retires in the meantime. */
    method RetireAll(stops: seq<nat>)
      requires dispatcher.Buffers() && Matches() && Kept() && run.awaiting && |stops| <= |pending|
      modifies this`tag, this`pending, this`events, this`run
      ensures Matches() && Kept() && run.awaiting && run.log == old(run.log)
      ensures |run.history| == old(|run.history|) + |stops|
      ensures stops != [] ==>
                |run.history[|run.history| - 1]| == (var n := stops[|stops| - 1]; if n < 20 then n else 20)
    {
      hide ReachedTag, Next, Held, Apart, Kept, Reach, Starts;
      ghost var log, done, queued := run.log, |run.history|, pending;
      var i := 0;
      while i < |stops|
        invariant 0 <= i <= |stops| && Matches() && Kept() && run.awaiting
        invariant pending == queued[i..] && run.log == log && |run.history| == done + i
        invariant i > 0 ==> |run.history[|run.history| - 1]| == if stops[i - 1] < 20 then stops[i - 1] else 20
      {
        PendingIsRest();
        RetireNext(dispatcher.places.streams, events, run, stops[i]);
        Retire(stops[i]);
        i := i + 1;
      }
    }

    /** Nothing is under way, there is room for the launch, and its indirect data is what patching the kernel's makes. */
    ghost predicate CanLaunch(k: Launch, kernel: KernelArgs.Kernel)
      reads this, dispatcher, dispatcher.sshAllocation, dispatcher.iohAllocation, dispatcher.dshAllocation,
            dispatcher.commandStreamTask, dispatcher.commandStreamCSR
      reads if dispatcher.commandStreamTask == null then {} else {dispatcher.commandStreamTask.cpuAddress}
      reads if dispatcher.commandStreamCSR == null then {} else {dispatcher.commandStreamCSR.cpuAddress}
      reads kernel, kernel.crossThreadData
    {
      && dispatcher.Buffers() && Matches() && Idle() && k.Valid() && dispatcher.Room(k) && kernel.Valid()
      && dispatcher.Foreign(kernel.crossThreadData) && k.PatchesFrom(kernel.crossThreadData[..])
    }

    /** The heaps hold the launch's data from these offsets on, and whatever state the GPU had been in, its last batch made
        one walk, which is the launch's and found all of it. */
    ghost predicate HasRun(k: Launch, surfaceStart: nat, indirectStart: nat, descriptorStart: nat)
      requires k.Valid()
      reads this, dispatcher, dispatcher.sshAllocation, dispatcher.iohAllocation, dispatcher.dshAllocation
      reads if dispatcher.sshAllocation == null then {} else {dispatcher.sshAllocation.cpuAddress}
      reads if dispatcher.iohAllocation == null then {} else {dispatcher.iohAllocation.cpuAddress}
      reads if dispatcher.dshAllocation == null then {} else {dispatcher.dshAllocation.cpuAddress}
    {
      && dispatcher.places.Valid() && dispatcher.HeapsHold(k, surfaceStart, indirectStart, descriptorStart)
      && run.history != [] && launches != []
      && var p := launches[|launches| - 1];
         && p.k == k && p.surfaceStart == surfaceStart && p.indirectStart == indirectStart
         && p.descriptorStart == descriptorStart
         && MakesOneWalk(p, dispatcher.places, dispatcher.HeapBytes(), run.history[|run.history| - 1])
    }

    lemma LastHasRun(k: Launch, surfaceStart: nat, indirectStart: nat, descriptorStart: nat)
      requires Kept() && launches != [] && k.Valid() && |run.history| == |run.log|
      requires dispatcher.places.Valid() && dispatcher.HeapsHold(k, surfaceStart, indirectStart, descriptorStart)
      requires run.log != [] && ReachedTag(run.history[|run.history| - 1], dispatcher.places.streams, run.log[|run.log| - 1])
      requires var p := launches[|launches| - 1];
               && p.k == k && p.surfaceStart == surfaceStart && p.indirectStart == indirectStart
               && p.descriptorStart == descriptorStart
      ensures HasRun(k, surfaceStart, indirectStart, descriptorStart)
    {
      hide OneWalk, Stands, TraceOf, CommandDispatcher.HeapBytes, CommandDispatcher.HeapsHold, Launch.Valid, Places.Valid;
      var p, sub, trace := launches[|launches| - 1], run.log[|run.log| - 1], run.history[|run.history| - 1];
      assert Stands(p, dispatcher.places, dispatcher.HeapBytes(), sub);
      forall g: Gpu ensures OneWalk(p, dispatcher.places, dispatcher.HeapBytes(), trace, g)
      {
        LaunchMakesOneWalk(p, dispatcher.places, dispatcher.HeapBytes(), sub, |trace|, g);
      }
    }

    /** A launch whose sizes have been validated: build, submit, wait.  It succeeds exactly when every allocation, the
        submission and the wait did and the GPU has retired every batch, the launch's own at least up to its tag write;
        and then the GPU has walked this launch, once, from its own data.  The kernel's arguments are open afterwards
        if construction succeeded, and untouched otherwise. */
    method LaunchKernel(k: Launch, g: Grants, kernel: KernelArgs.Kernel, accepted: bool, stops: seq<nat>, waited: bool)
      returns (ret: Code)
      requires CanLaunch(k, kernel) && Kept() && |stops| <= |pending| + 1
      modifies this`tag, this`pending, this`events, this`run, this`launches, this`latest, kernel`decoded,
               kernel.crossThreadData, dispatcher.Footprint()
      ensures dispatcher.Buffers() && Matches() && Kept() && Idle() && kernel.Valid() && unchanged(sizes)
      ensures KernelArgs.FlagsOf(kernel.decoded.argDescriptor) ==
              var flags := old(KernelArgs.FlagsOf(kernel.decoded.argDescriptor));
              if old(dispatcher.Outcome(g)) == Complete then KernelArgs.After(flags, KernelArgs.Call.ResetArguments) else flags
      ensures ret == Success <==>
                && old(dispatcher.Outcome(g)) == Complete && accepted && waited
                && |stops| == |old(pending)| + 1 && stops[|stops| - 1] >= 19
      ensures ret == Success ==>
                && kernel.crossThreadData[..] == k.indirect.crossThreadData
                && HasRun(k, old(dispatcher.SurfaceEnd()), old(dispatcher.IndirectEnd()), old(dispatcher.DynamicEnd()))
    {
      hide WalkOf, ReceiverOf, CommandDispatcher.HeapsHold, HasRun, ReachedTag, Next, Matches, CommandDispatcher.SurfaceEnd,
           CommandDispatcher.IndirectEnd, CommandDispatcher.DynamicEnd, CommandDispatcher.Outcome,
           CommandDispatcher.Buffers, CommandDispatcher.Room, Places.Valid, Launch.Valid, KernelArgs.FlagsOf,
           KernelArgs.After, Launch.PatchesFrom, CommandDispatcher.Footprint, Kept;
      dispatcher.BuffersArePlaced();
      ghost var surfaceStart, indirectStart, descriptorStart := dispatcher.SurfaceEnd(), dispatcher.IndirectEnd(),
                                                                dispatcher.DynamicEnd();
      ret := Construct(k, g, kernel);
      if ret != Success {
        return;
      }
      var pinned;
      ret, pinned := Submit(k, kernel, accepted);
      if ret != Success {
        return;
      }
      ret := WaitAndFinish(stops, waited);
      if ret == Success {
        LastHasRun(k, surfaceStart, indirectStart, descriptorStart);
      }
    }
  }

  /** A trace of the submission's own commands, at least up to the one that writes its tag. */
  predicate ReachedTag(trace: seq<Executed>, l: Layout, sub: Submission)
  {
    |TraceOf(l, sub)| == 20 && 19 <= |trace| <= 20 && trace == TraceOf(l, sub)[..|trace|]
  }

  /** The executed commands make one walk, which is the launch's and finds it in the heaps. */
  ghost predicate OneWalk(p: Placed, places: Places, now: Heaps, trace: seq<Executed>, g: Gpu)
    requires p.k.Valid() && places.Valid()
  {
    var walks := Walks(g, CommandsOf(trace));
    |walks| == 1 && Found(p, places, now, walks[0])
  }

  /** Whatever state the GPU was in before. */
  ghost predicate MakesOneWalk(p: Placed, places: Places, now: Heaps, trace: seq<Executed>)
    requires p.k.Valid() && places.Valid()
  {
    forall g: Gpu :: OneWalk(p, places, now, trace, g)
  }

  /** The first commands of a launch, from the sixteenth on. */
  lemma LaunchMakesOneWalk(p: Placed, places: Places, now: Heaps, sub: Submission, n: nat, g: Gpu)
    requires Stands(p, places, now, sub) && 16 <= n <= 20
    ensures p.k.Valid() && places.Valid() && |TraceOf(places.streams, sub)| == 20
    ensures OneWalk(p, places, now, TraceOf(places.streams, sub)[..n], g)
  {
    hide WellPlaced, IdsPlaced, Grows, Found, Walks, LaunchTrace, GpgpuWalker, LaunchState.AtWalk, WalkOf, ReceiverOf,
         LaunchState.Programmable, CommandsOf;
    PlacedDataStands(p, places, now, sub, g);
    Wiring.IsProgrammable(places, p.k);
    var l := places.streams;
    LaunchState.LaunchWalksIn(g, sub.receiver, sub.task, l.csrBase + sub.receiverAt, l.taskBase + sub.taskAt, n);
  }

  lemma AllOfTrace(l: Layout, sub: Submission)
    requires |TraceOf(l, sub)| == 20
    ensures TraceOf(l, sub)[..20] == TraceOf(l, sub)
  {
  }

  /** One more event of a run. */
  lemma ReachNext(l: Layout, events: seq<Event>, s: State, e: Event)
    requires Reach(l, events) == Some(s) && Enabled(s, e)
    ensures Reach(l, events + [e]) == Some(Next(l, s, e))
  {
    hide Next, Enabled;
    assert (events + [e])[..|events|] == events;
  }

  lemma AwaitingIsBuilt(l: Layout, events: seq<Event>, s: State)
    requires l.Valid() && Reach(l, events) == Some(s) && s.awaiting
    ensures s.built == None
  {
    hide Reach, LogKept, HistoryKept, SizesKept;
    EveryRunKeeps(l, events);
  }

  /** What building a launch does to a run, field by field. */
  lemma BuildNext(l: Layout, s: State, e: Event)
    requires e.Build? && Enabled(s, e) && |s.task| % 64 == 0 && |s.csr| % 64 == 0
    ensures var t, s' := TaskOf(l, s, e), Next(l, s, e);
            && s'.task == (if e.progress == FailsBeforeTask then s.task else AppendTask(s.task, t))
            && s'.completionTag == (if e.progress == FailsBeforeTask then s.completionTag else t.tag)
            && s'.csr == (if e.progress == Complete then AppendReceiver(s.csr, e.receiver, l.taskBase + |s.task|) else s.csr)
            && s'.tagValue == s.tagValue && s'.log == s.log && s'.history == s.history && s'.awaiting == s.awaiting
            && (e.progress != Complete ==> s'.built == s.built)
            && (e.progress == Complete ==>
                  s'.built == Some(Submission(|s.csr|, |s.task|, e.receiver, t)) && |s'.csr| == |s.csr| + 320)
  {
    hide AppendTask, AppendReceiver;
    LaunchSizes(s.task, s.csr, TaskOf(l, s, e), e.receiver, l.taskBase + |s.task|);
  }

  /** What retiring a submission does to a run. */
  lemma RetireNext(l: Layout, events: seq<Event>, s: State, n: nat)
    requires l.Valid() && Reach(l, events) == Some(s) && |s.history| < |s.log|
    ensures var s' := Next(l, s, Event.Retire(n));
            && s'.log == s.log && |s'.history| == |s.history| + 1
            && |s'.history[|s.history|]| == (if n < 20 then n else 20)
            && s'.awaiting == s.awaiting && s'.built == s.built
  {
    hide Reach, Kept, TraceOf;
    EveryRunKeeps(l, events);
    RetireEffect(l, s, n);
    hide Run, ValueAfter;
  }

  /** What a finishing launch can count on. */
  lemma FinishOutcome(l: Layout, events: seq<Event>, s: State, waited: bool)
    requires l.Valid() && Reach(l, events) == Some(s) && s.awaiting
    ensures s.log != []
    ensures FinishSucceeds(s, Event.Finish(waited))
            <==> waited && |s.history| == |s.log| && |s.history[|s.history| - 1]| >= 19
    ensures FinishSucceeds(s, Event.Finish(waited)) ==> ReachedTag(s.history[|s.history| - 1], l, s.log[|s.log| - 1])
  {
    hide Reach, FinishSucceeds, Walkers, GpgpuWalker, TraceOf;
    var e := Event.Finish(waited);
    FinishIffExecuted(l, events, s, e);
    if FinishSucceeds(s, e) { SuccessMeansWalked(l, events, s, e); }
  }
}
