/** Whole runs of the driver and the GPU: launches are built into the two append-only streams, submitted,
    executed by the command streamer (completely, or only up to a hang) and waited for, in every order the
    driver and the GPU allow.
 */
module Runs {
  import opened Options
  import opened Words
  import opened DriverUtils
  import opened Commands
  import opened LaunchStream
  import opened BufferObjects

  const STREAM_SIZE: nat := 0x1_0000

  /** Where the command buffers and the tag lie in the GPU's address space. */
  datatype Layout = Layout(taskBase: nat, csrBase: nat, tagAddress: nat)
  {
    predicate Valid()
    {
      && taskBase % 4 == 0 && taskBase + STREAM_SIZE <= TWO_48
      && (csrBase + STREAM_SIZE <= taskBase || taskBase + STREAM_SIZE <= csrBase)
      && tagAddress % 4 == 0 && tagAddress < TWO_64
    }
  }

  /** A launch in the streams: where its commands start, and what they are. */
  datatype Submission = Submission(receiverAt: nat, taskAt: nat, receiver: Receiver, task: Task)

  /** Task and receiver stream after one more launch: its commands, then no-ops to the next cache line. */
  function AppendTask(stream: seq<byte>, t: Task): seq<byte>
  {
    var used := stream + DwordBytes(Flatten(TaskCommands(t)));
    used + Zeros(Ceil(|used|, CACHE_LINE_SIZE) - |used|)
  }

  function AppendReceiver(stream: seq<byte>, r: Receiver, taskAddress: nat): seq<byte>
  {
    var used := stream + DwordBytes(Flatten(ReceiverCommands(r, taskAddress)));
    used + Zeros(Ceil(|used|, CACHE_LINE_SIZE) - |used|)
  }

  /** The state of a run: the streams' contents, the driver's tag, the tag in memory, the launch that is built
      but not submitted, whether the driver waits, all submissions so far, and what the GPU executed of
      each of the submissions it has retired. */
  datatype State = State(task: seq<byte>, csr: seq<byte>, completionTag: nat, tagValue: nat,
                         built: Option<Submission>, awaiting: bool,
                         log: seq<Submission>, history: seq<seq<Executed>>)

  const START := State([], [], 0, 0, None, false, [], [])

  /** How far building a launch gets: an allocation may fail before the task stream is written, or after. */
  datatype Progress = Complete | FailsBeforeTask | FailsAfterTask

  datatype Event =
    | Build(receiver: Receiver, descriptorStart: uint32, walk: Walk, progress: Progress)
    | Submit(ok: bool)
    | Retire(executed: nat)
    | Finish(waitOk: bool)

  function MemoryOf(l: Layout, s: State): Memory
  {
    Memory(Region(l.taskBase, s.task), Region(l.csrBase, s.csr))
  }

  function TaskOf(l: Layout, s: State, e: Event): Task
    requires e.Build?
  {
    Task(e.descriptorStart, e.walk, l.tagAddress, (s.completionTag + 1) % TWO_32)
  }

  /** The order of events the driver allows; a launch is only built if the streams have room for it. */
  predicate Enabled(s: State, e: Event)
  {
    match e
    case Build(_, _, _, _) =>
      !s.awaiting && s.built == None && |s.task| + 192 <= STREAM_SIZE && |s.csr| + 320 <= STREAM_SIZE
    case Submit(_) => s.built.Some?
    case Retire(_) => |s.history| < |s.log|
    case Finish(_) => s.awaiting
  }

  function Next(l: Layout, s: State, e: Event): State
    requires Enabled(s, e)
  {
    match e
    case Build(r, _, _, progress) =>
      var t := TaskOf(l, s, e);
      (match progress
       case FailsBeforeTask => s
       case FailsAfterTask => s.(task := AppendTask(s.task, t), completionTag := t.tag)
       case Complete =>
         s.(task := AppendTask(s.task, t), completionTag := t.tag,
            csr := AppendReceiver(s.csr, r, l.taskBase + |s.task|),
            built := Some(Submission(|s.csr|, |s.task|, r, t))))
    case Submit(ok) =>
      if ok then s.(built := None, awaiting := true, log := s.log + [s.built.value]) else s.(built := None)
    case Retire(n) =>
      var trace := Run(MemoryOf(l, s), Running(l.csrBase + s.log[|s.history|].receiverAt, []), n).trace;
      s.(history := s.history + [trace], tagValue := ValueAfter(trace, l.tagAddress, s.tagValue))
    case Finish(_) => s.(awaiting := false)
  }

  /** What `finishExecution` returns. */
  predicate FinishSucceeds(s: State, e: Event) { e.Finish? && e.waitOk && s.tagValue == s.completionTag }

  /** The state after a run, if the driver and the GPU can take all its events in this order. */
  function Reach(l: Layout, events: seq<Event>): Option<State>
  {
    if events == [] then Some(START)
    else
      match Reach(l, events[..|events| - 1])
      case None => None
      case Some(s) =>
        var e := events[|events| - 1];
        if Enabled(s, e) then Some(Next(l, s, e)) else None
  }

  // ---------- sizes ----------

  lemma {:induction false} StreamSizes(t: Task, r: Receiver, taskAddress: nat)
    ensures |Flatten(TaskCommands(t))| == 36 && |Flatten(ReceiverCommands(r, taskAddress))| == 71
  {
    TaskLength(t);
    ReceiverLength(r, taskAddress);
  }

  lemma LengthOfSeven(cs: seq<Command>)
    requires |cs| == 7
    ensures |Flatten(cs)| == |cs[0]| + |cs[1]| + |cs[2]| + |cs[3]| + |cs[4]| + |cs[5]| + |cs[6]|
  {
    LengthOfThree(cs[..3]);
    LengthOfThree(cs[3..6]);
    LengthSplit(cs[..3], cs[3..]);
    LengthSplit(cs[3..6], cs[6..]);
    assert cs == cs[..3] + cs[3..] && cs[3..] == cs[3..6] + cs[6..] && cs[6..] == [cs[6]];
    OnlyCommand(cs[6]);
  }

  lemma LengthOfThree(cs: seq<Command>)
    requires |cs| == 3
    ensures |Flatten(cs)| == |cs[0]| + |cs[1]| + |cs[2]|
  {
    assert cs == [cs[0]] + ([cs[1]] + [cs[2]]);
    LengthSplit([cs[0]], [cs[1]] + [cs[2]]);
    LengthSplit([cs[1]], [cs[2]]);
    OnlyCommand(cs[0]);
    OnlyCommand(cs[1]);
    OnlyCommand(cs[2]);
  }

  lemma TaskLength(t: Task)
    ensures |Flatten(TaskCommands(t))| == 36
  {
    LengthOfSeven(TaskCommands(t));
    hide Flatten;
    var cs := TaskCommands(t);
    assert |cs[0]| == 2 && |cs[1]| == 4 && |cs[2]| == 15 && |cs[3]| == 2 && |cs[4]| == 6 && |cs[5]| == 6 && |cs[6]| == 1;
  }

  lemma ReceiverLength(r: Receiver, taskAddress: nat)
    ensures |Flatten(ReceiverCommands(r, taskAddress))| == 71
  {
    var cs := ReceiverCommands(r, taskAddress);
    assert cs == cs[..7] + (cs[7..10] + cs[10..]);
    LengthSplit(cs[..7], cs[7..10] + cs[10..]);
    LengthSplit(cs[7..10], cs[10..]);
    LengthOfSeven(cs[..7]);
    LengthOfThree(cs[7..10]);
    LengthOfThree(cs[10..]);
    hide Flatten;
    assert |cs[0]| == 1 && |cs[1]| == 3 && |cs[2]| == 6 && |cs[3]| == 3 && |cs[4]| == 3 && |cs[5]| == 6 && |cs[6]| == 9;
    assert |cs[7]| == 3 && |cs[8]| == 6 && |cs[9]| == 19 && |cs[10]| == 3 && |cs[11]| == 6 && |cs[12]| == 3;
  }

  /** Every launch takes 192 bytes of the task stream and 320 of the receiver stream. */
  lemma LaunchSizes(task: seq<byte>, csr: seq<byte>, t: Task, r: Receiver, taskAddress: nat)
    requires |task| % 64 == 0 && |csr| % 64 == 0
    ensures |AppendTask(task, t)| == |task| + 192 && |AppendReceiver(csr, r, taskAddress)| == |csr| + 320
  {
    hide Flatten, TaskCommands, ReceiverCommands;
    StreamSizes(t, r, taskAddress);
    var a, b := |task| / 64, |csr| / 64;
    assert (|task| + 144 + 63) % 64 == 15 && (|csr| + 284 + 63) % 64 == 27;
  }

  // ---------- what every run keeps ----------

  /** The commands of a submission are where they were put in the streams. */
  ghost predicate InStreams(l: Layout, task: seq<byte>, csr: seq<byte>, sub: Submission)
  {
    && sub.receiverAt + 320 <= |csr| && sub.taskAt + 192 <= |task| && sub.taskAt % 64 == 0 && |task| <= STREAM_SIZE
    && csr[..sub.receiverAt] + DwordBytes(Flatten(ReceiverCommands(sub.receiver, l.taskBase + sub.taskAt))) <= csr
    && task[..sub.taskAt] + DwordBytes(Flatten(TaskCommands(sub.task))) <= task
    && sub.task.tagAddress == l.tagAddress
  }

  /** What the GPU should execute for a submission. */
  function TraceOf(l: Layout, sub: Submission): seq<Executed>
  {
    LaunchTrace(sub.receiver, sub.task, l.csrBase + sub.receiverAt, l.taskBase + sub.taskAt)
  }

  ghost predicate SizesKept(s: State)
  {
    && |s.csr| % 64 == 0 && |s.csr| <= STREAM_SIZE && |s.task| <= STREAM_SIZE
    && |s.task| == 192 * s.completionTag
  }

  predicate Precedes(a: Submission, b: Submission)
  {
    a.task.tag < b.task.tag && a.receiverAt + 320 <= b.receiverAt && a.taskAt + 192 <= b.taskAt
  }

  /** Submissions are intact, lie apart in both streams, and carry growing tags. */
  ghost predicate LogKept(l: Layout, task: seq<byte>, csr: seq<byte>, log: seq<Submission>)
  {
    && (forall i | 0 <= i < |log| :: InStreams(l, task, csr, log[i]) && log[i].task.tag >= 1)
    && (forall i, j | 0 <= i < j < |log| :: Precedes(log[i], log[j]))
  }

  /** The launch in progress carries the driver's tag, and is the last one. */
  ghost predicate CurrentKept(l: Layout, s: State)
  {
    && (forall i | 0 <= i < |s.log| :: s.log[i].task.tag <= s.completionTag)
    && (s.built.Some? ==> s.built.value.task.tag == s.completionTag && LogKept(l, s.task, s.csr, s.log + [s.built.value]))
    && (s.awaiting ==> s.log != [] && s.log[|s.log| - 1].task.tag == s.completionTag && s.built == None)
  }

  /** Submission i reached its tag write, and its tag is in memory. */
  predicate Wrote(log: seq<Submission>, history: seq<seq<Executed>>, tagValue: nat, i: nat)
  {
    i < |history| && i < |log| && |history[i]| >= 19 && tagValue == log[i].task.tag
  }

  /** Retired submissions were executed from their own commands, and the tag in memory is that of the last one
      that got as far as its tag write. */
  ghost predicate HistoryKept(l: Layout, log: seq<Submission>, history: seq<seq<Executed>>, tagValue: nat)
  {
    && |history| <= |log|
    && (forall i | 0 <= i < |history| :: |history[i]| <= 20 && |TraceOf(l, log[i])| == 20 &&
                                         history[i] == TraceOf(l, log[i])[..|history[i]|])
    && (tagValue == 0 || exists i: nat :: Wrote(log, history, tagValue, i))
    && (history != [] && |history[|history| - 1]| >= 19 ==> tagValue == log[|history| - 1].task.tag)
  }

  ghost predicate Kept(l: Layout, s: State)
  {
    && SizesKept(s) && LogKept(l, s.task, s.csr, s.log) && CurrentKept(l, s)
    && HistoryKept(l, s.log, s.history, s.tagValue)
  }

  // ---------- building ----------

  lemma InStreamsKept(l: Layout, task: seq<byte>, csr: seq<byte>, task': seq<byte>, csr': seq<byte>, sub: Submission)
    requires InStreams(l, task, csr, sub) && csr <= csr' && task <= task' && |task'| <= STREAM_SIZE
    ensures InStreams(l, task', csr', sub)
  {
    hide DwordBytes, Flatten;
    assert csr'[..sub.receiverAt] == csr[..sub.receiverAt] && task'[..sub.taskAt] == task[..sub.taskAt];
  }

  lemma LogStaysKept(l: Layout, task: seq<byte>, csr: seq<byte>, task': seq<byte>, csr': seq<byte>, log: seq<Submission>)
    requires LogKept(l, task, csr, log) && csr <= csr' && task <= task' && |task'| <= STREAM_SIZE
    ensures LogKept(l, task', csr', log)
  {
    hide InStreams;
    forall i | 0 <= i < |log| ensures InStreams(l, task', csr', log[i]) {
      InStreamsKept(l, task, csr, task', csr', log[i]);
    }
  }

  lemma AppendsKeep(task: seq<byte>, csr: seq<byte>, t: Task, r: Receiver, taskAddress: nat)
    ensures task <= AppendTask(task, t) && csr <= AppendReceiver(csr, r, taskAddress)
    ensures task + DwordBytes(Flatten(TaskCommands(t))) <= AppendTask(task, t)
    ensures csr + DwordBytes(Flatten(ReceiverCommands(r, taskAddress))) <= AppendReceiver(csr, r, taskAddress)
  {
    hide DwordBytes, Flatten, TaskCommands, ReceiverCommands, Zeros, Ceil;
  }

  /** A launch just built is in the streams, behind every earlier one. */
  lemma BuiltIsInStreams(l: Layout, task: seq<byte>, csr: seq<byte>, t: Task, r: Receiver)
    requires |task| % 64 == 0 && |csr| % 64 == 0 && |task| + 192 <= STREAM_SIZE && t.tagAddress == l.tagAddress
    ensures InStreams(l, AppendTask(task, t), AppendReceiver(csr, r, l.taskBase + |task|), Submission(|csr|, |task|, r, t))
  {
    hide DwordBytes, Flatten, TaskCommands, ReceiverCommands, AppendTask, AppendReceiver;
    var task', csr' := AppendTask(task, t), AppendReceiver(csr, r, l.taskBase + |task|);
    AppendsKeep(task, csr, t, r, l.taskBase + |task|);
    LaunchSizes(task, csr, t, r, l.taskBase + |task|);
    assert task'[..|task|] == task && csr'[..|csr|] == csr;
  }

  lemma NewestIsLast(l: Layout, task: seq<byte>, csr: seq<byte>, log: seq<Submission>, sub: Submission,
                     task': seq<byte>, csr': seq<byte>)
    requires LogKept(l, task, csr, log) && LogKept(l, task', csr', log) && InStreams(l, task', csr', sub)
    requires sub.receiverAt == |csr| && sub.taskAt == |task|
    requires sub.task.tag >= 1 && forall i | 0 <= i < |log| :: log[i].task.tag < sub.task.tag
    ensures LogKept(l, task', csr', log + [sub])
  {
    hide DwordBytes, Flatten;
    forall i | 0 <= i < |log| ensures Precedes(log[i], sub) { assert InStreams(l, task, csr, log[i]); }
    hide InStreams;
  }

  lemma BuildKeeps(l: Layout, s: State, e: Event)
    requires l.Valid() && Kept(l, s) && Enabled(s, e) && e.Build?
    ensures Kept(l, Next(l, s, e))
  {
    hide AppendTask, AppendReceiver, LogKept, HistoryKept;
    var t := TaskOf(l, s, e);
    assert t.tag == s.completionTag + 1;
    var task', csr' := AppendTask(s.task, t), AppendReceiver(s.csr, e.receiver, l.taskBase + |s.task|);
    LaunchSizes(s.task, s.csr, t, e.receiver, l.taskBase + |s.task|);
    BuildKeepsLog(l, s, t, e.receiver);
  }

  lemma BuildKeepsLog(l: Layout, s: State, t: Task, r: Receiver)
    requires SizesKept(s) && |s.task| % 64 == 0 && |s.task| + 192 <= STREAM_SIZE && LogKept(l, s.task, s.csr, s.log)
    requires t.tagAddress == l.tagAddress && t.tag >= 1 && forall i | 0 <= i < |s.log| :: s.log[i].task.tag < t.tag
    ensures var task', csr' := AppendTask(s.task, t), AppendReceiver(s.csr, r, l.taskBase + |s.task|);
            && LogKept(l, task', s.csr, s.log) && LogKept(l, task', csr', s.log)
            && LogKept(l, task', csr', s.log + [Submission(|s.csr|, |s.task|, r, t)])
  {
    hide AppendTask, AppendReceiver, InStreams, LogKept;
    var task', csr' := AppendTask(s.task, t), AppendReceiver(s.csr, r, l.taskBase + |s.task|);
    LaunchSizes(s.task, s.csr, t, r, l.taskBase + |s.task|);
    AppendsKeep(s.task, s.csr, t, r, l.taskBase + |s.task|);
    LogStaysKept(l, s.task, s.csr, task', s.csr, s.log);
    LogStaysKept(l, s.task, s.csr, task', csr', s.log);
    BuiltIsInStreams(l, s.task, s.csr, t, r);
    NewestIsLast(l, s.task, s.csr, s.log, Submission(|s.csr|, |s.task|, r, t), task', csr');
  }

  // ---------- submitting and retiring ----------

  lemma SubmitKeeps(l: Layout, s: State, e: Event)
    requires Kept(l, s) && Enabled(s, e) && (e.Submit? || e.Finish?)
    ensures Kept(l, Next(l, s, e))
  {
    hide LogKept, TraceOf;
    var s' := Next(l, s, e);
    if s.tagValue != 0 {
      var i: nat :| Wrote(s.log, s.history, s.tagValue, i);
      assert Wrote(s'.log, s'.history, s'.tagValue, i);
    }
  }

  /** Executing any number of commands of a submission, whatever was built since, executes its own. */
  lemma RetireRunsOwnCommands(l: Layout, s: State, sub: Submission, n: nat)
    requires l.Valid() && |s.csr| <= STREAM_SIZE && InStreams(l, s.task, s.csr, sub)
    ensures |TraceOf(l, sub)| == 20
    ensures Run(MemoryOf(l, s), Running(l.csrBase + sub.receiverAt, []), n).trace
            == TraceOf(l, sub)[..if n < 20 then n else 20]
    ensures n >= 20 ==> Run(MemoryOf(l, s), Running(l.csrBase + sub.receiverAt, []), n).Stopped?
  {
    hide DwordBytes, Flatten, TaskCommands, ReceiverCommands, LaunchTrace, Run, Holds;
    var m := MemoryOf(l, s);
    ReceiverHolds(m, s.csr[..sub.receiverAt], Flatten(ReceiverCommands(sub.receiver, l.taskBase + sub.taskAt)));
    TaskHolds(m, s.task[..sub.taskAt], Flatten(TaskCommands(sub.task)));
    assert |s.csr[..sub.receiverAt]| == sub.receiverAt && |s.task[..sub.taskAt]| == sub.taskAt;
    PartialLaunch(m, sub.receiver, sub.task, l.csrBase + sub.receiverAt, l.taskBase + sub.taskAt, n);
    if n >= 20 {
      LaunchExecutes(m, sub.receiver, sub.task, l.csrBase + sub.receiverAt, l.taskBase + sub.taskAt);
      RunSplit(m, Running(l.csrBase + sub.receiverAt, []), 20, n - 20);
      StoppedStays(m, TraceOf(l, sub), n - 20);
    }
  }

  lemma AddressesGood(l: Layout, task: seq<byte>, csr: seq<byte>, sub: Submission)
    requires l.Valid() && InStreams(l, task, csr, sub)
    ensures GoodAddresses(sub.task, l.taskBase + sub.taskAt)
  {
    hide DwordBytes, Flatten, TaskCommands, ReceiverCommands;
    assert sub.taskAt % 4 == 0 && sub.task.tagAddress == l.tagAddress;
  }

  /** What retiring the next submission after n commands does to the history and the tag. */
  lemma RetireEffect(l: Layout, s: State, n: nat)
    requires l.Valid() && Kept(l, s) && |s.history| < |s.log|
    ensures var sub, k, s' := s.log[|s.history|], (if n < 20 then n else 20), Next(l, s, Retire(n));
            && |TraceOf(l, sub)| == 20 && s'.history == s.history + [TraceOf(l, sub)[..k]]
            && s'.tagValue == (if k >= 19 then sub.task.tag else s.tagValue) && sub.task.tag >= 1
  {
    hide InStreams, TraceOf, Run, ValueAfter, CurrentKept, HistoryKept, Walkers, GoodAddresses;
    var sub := s.log[|s.history|];
    assert InStreams(l, s.task, s.csr, sub);
    RetireRunsOwnCommands(l, s, sub, n);
    AddressesGood(l, s.task, s.csr, sub);
    TraceEffect(l, sub, if n < 20 then n else 20, s.tagValue);
    assert sub.task.tagAddress == l.tagAddress by { TagAddressOf(l, s.task, s.csr, sub); }
  }

  lemma TagAddressOf(l: Layout, task: seq<byte>, csr: seq<byte>, sub: Submission)
    requires InStreams(l, task, csr, sub)
    ensures sub.task.tagAddress == l.tagAddress
  {
    hide DwordBytes, Flatten;
  }

  lemma TraceEffect(l: Layout, sub: Submission, n: nat, before: nat)
    requires GoodAddresses(sub.task, l.taskBase + sub.taskAt) && n <= 20
    ensures |TraceOf(l, sub)| == 20
    ensures ValueAfter(TraceOf(l, sub)[..n], sub.task.tagAddress, before) == (if n >= 19 then sub.task.tag else before)
    ensures Walkers(TraceOf(l, sub)[..n]) == (if n >= 16 then [GpgpuWalker(sub.task.walk)] else [])
  {
    hide LaunchTrace, ValueAfter, Walkers;
    LaunchEffects(sub.receiver, sub.task, l.csrBase + sub.receiverAt, l.taskBase + sub.taskAt, n, before);
  }

  lemma RetireKeeps(l: Layout, s: State, e: Event)
    requires l.Valid() && Kept(l, s) && Enabled(s, e) && e.Retire?
    ensures Kept(l, Next(l, s, e))
  {
    hide TraceOf, LogKept, Run, ValueAfter, HistoryKept, MemoryOf;
    var n := if e.executed < 20 then e.executed else 20;
    RetireEffect(l, s, e.executed);
    assert e == Retire(e.executed);
    RetireKeepsHistory(l, s.log, s.history, s.tagValue, n);
  }

  lemma RetireKeepsHistory(l: Layout, log: seq<Submission>, history: seq<seq<Executed>>, tagValue: nat, n: nat)
    requires HistoryKept(l, log, history, tagValue) && |history| < |log| && n <= 20
    requires |TraceOf(l, log[|history|])| == 20
    ensures var sub := log[|history|];
            HistoryKept(l, log, history + [TraceOf(l, sub)[..n]], if n >= 19 then sub.task.tag else tagValue)
  {
    hide TraceOf;
    var sub := log[|history|];
    var history', tag' := history + [TraceOf(l, sub)[..n]], if n >= 19 then sub.task.tag else tagValue;
    if n >= 19 {
      assert Wrote(log, history', tag', |history|);
    } else if tagValue != 0 {
      var i: nat :| Wrote(log, history, tagValue, i);
      assert Wrote(log, history', tag', i);
    }
  }

  // ---------- the theorems ----------

  lemma StartKept(l: Layout)
    ensures Kept(l, START)
  {
  }

  /** Every run keeps the invariants. */
  lemma {:induction false} EveryRunKeeps(l: Layout, events: seq<Event>)
    requires l.Valid() && Reach(l, events).Some?
    ensures Kept(l, Reach(l, events).value)
    decreases |events|
  {
    hide Kept, Next, Enabled;
    if events == [] {
      StartKept(l);
    } else {
      var shorter, e := events[..|events| - 1], events[|events| - 1];
      EveryRunKeeps(l, shorter);
      var s := Reach(l, shorter).value;
      match e {
        case Build(_, _, _, _) => BuildKeeps(l, s, e);
        case Submit(_) => SubmitKeeps(l, s, e);
        case Retire(_) => RetireKeeps(l, s, e);
        case Finish(_) => SubmitKeeps(l, s, e);
      }
    }
  }

  /** In every run, `finishExecution` succeeds exactly when its wait did and the GPU has retired every
      submission, the last of them, the current launch's, at least up to its tag write. */
  lemma FinishIffExecuted(l: Layout, events: seq<Event>, s: State, e: Event)
    requires l.Valid() && Reach(l, events) == Some(s) && Enabled(s, e) && e.Finish?
    ensures s.log != []
    ensures FinishSucceeds(s, e) <==>
              e.waitOk && |s.history| == |s.log| && |s.history[|s.history| - 1]| >= 19
  {
    hide Reach, LogKept, HistoryKept;
    EveryRunKeeps(l, events);
    assert s.awaiting;
    TagInMemoryIff(l, s.task, s.csr, s.log, s.history, s.tagValue);
  }

  lemma TagInMemoryIff(l: Layout, task: seq<byte>, csr: seq<byte>, log: seq<Submission>,
                       history: seq<seq<Executed>>, tagValue: nat)
    requires LogKept(l, task, csr, log) && HistoryKept(l, log, history, tagValue) && log != []
    ensures tagValue == log[|log| - 1].task.tag
            <==> |history| == |log| && |history[|history| - 1]| >= 19
  {
    hide InStreams, TraceOf;
    var last := |log| - 1;
    if tagValue == log[last].task.tag {
      assert log[last].task.tag >= 1;
      var i: nat :| Wrote(log, history, tagValue, i);
      if i < last { assert Precedes(log[i], log[last]); }
    }
  }

  /** So when it succeeds, the GPU has executed the current launch's own commands, up to and including its tag
      write, and among them exactly one walker: the current launch's. */
  lemma SuccessMeansWalked(l: Layout, events: seq<Event>, s: State, e: Event)
    requires l.Valid() && Reach(l, events) == Some(s) && Enabled(s, e) && FinishSucceeds(s, e)
    ensures s.log != [] && |s.history| == |s.log|
    ensures var current, trace := s.log[|s.log| - 1], s.history[|s.log| - 1];
            && |TraceOf(l, current)| == 20 && 19 <= |trace| <= 20
            && trace == TraceOf(l, current)[..|trace|]
            && Walkers(trace) == [GpgpuWalker(current.task.walk)]
            && current.task.tag == s.completionTag
  {
    hide Reach, Kept, TraceOf, Walkers, InStreams, GoodAddresses;
    FinishIffExecuted(l, events, s, e);
    EveryRunKeeps(l, events);
    var current, trace := s.log[|s.log| - 1], s.history[|s.log| - 1];
    KeptGives(l, s, |s.log| - 1);
    TraceEffect(l, current, |trace|, 0);
  }

  /** What the invariants say of one submission and, once retired, of its trace. */
  lemma KeptGives(l: Layout, s: State, i: nat)
    requires l.Valid() && Kept(l, s) && i < |s.log|
    ensures InStreams(l, s.task, s.csr, s.log[i]) && GoodAddresses(s.log[i].task, l.taskBase + s.log[i].taskAt)
    ensures s.log[i].task.tagAddress == l.tagAddress && |s.csr| <= STREAM_SIZE
    ensures forall j | i < j < |s.log| :: Precedes(s.log[i], s.log[j])
    ensures i < |s.history| ==> |s.history[i]| <= 20 && |TraceOf(l, s.log[i])| == 20 &&
                                s.history[i] == TraceOf(l, s.log[i])[..|s.history[i]|]
    ensures s.awaiting ==> s.log[|s.log| - 1].task.tag == s.completionTag
  {
    hide InStreams, TraceOf, GoodAddresses;
    assert InStreams(l, s.task, s.csr, s.log[i]);
    AddressesGood(l, s.task, s.csr, s.log[i]);
    TagAddressOf(l, s.task, s.csr, s.log[i]);
  }

  /** In every run, whatever the GPU retires it executes from that submission's own bytes: all twenty commands
      and then it stops; exactly one walker, and the launch's own tag. */
  lemma EveryRetireIsOwnLaunch(l: Layout, events: seq<Event>, s: State, n: nat)
    requires l.Valid() && Reach(l, events) == Some(s) && |s.history| < |s.log| && n >= 20
    ensures var sub := s.log[|s.history|];
            var run := Run(MemoryOf(l, s), Running(l.csrBase + sub.receiverAt, []), n);
            && run == Stopped(TraceOf(l, sub))
            && Walkers(run.trace) == [GpgpuWalker(sub.task.walk)]
            && ValueAfter(run.trace, l.tagAddress, s.tagValue) == sub.task.tag
  {
    hide Reach, InStreams, TraceOf, Walkers, ValueAfter, Run, GoodAddresses, Kept, MemoryOf;
    EveryRunKeeps(l, events);
    var sub := s.log[|s.history|];
    KeptGives(l, s, |s.history|);
    RetireRunsOwnCommands(l, s, sub, n);
    TraceEffect(l, sub, 20, s.tagValue);
    assert TraceOf(l, sub)[..20] == TraceOf(l, sub);
  }

  /** Executed commands lie inside the launch's own 320 and 192 bytes of the two streams, and those of
      different submissions do not overlap: no command of another launch is ever reached. */
  lemma OwnBytesOnly(l: Layout, events: seq<Event>, s: State, i: nat, j: nat)
    requires l.Valid() && Reach(l, events) == Some(s) && i < j < |s.log|
    ensures s.log[i].receiverAt + 320 <= s.log[j].receiverAt && s.log[i].taskAt + 192 <= s.log[j].taskAt
    ensures forall x | x in TraceOf(l, s.log[i]) :: WithinLaunch(l, s.log[i], x.at)
  {
    hide Reach, InStreams, Kept, TraceOf, GoodAddresses, WithinLaunch;
    EveryRunKeeps(l, events);
    KeptGives(l, s, i);
    assert Precedes(s.log[i], s.log[j]);
    TraceWithin(l, s.log[i]);
  }

  lemma TraceWithin(l: Layout, a: Submission)
    ensures forall x | x in TraceOf(l, a) :: WithinLaunch(l, a, x.at)
  {
    hide ReceiverCommands, TaskCommands, Placed, Flatten;
    StreamSizes(a.task, a.receiver, l.taskBase + a.taskAt);
    PlacedWithin(ReceiverCommands(a.receiver, l.taskBase + a.taskAt), l.csrBase + a.receiverAt);
    PlacedWithin(TaskCommands(a.task), l.taskBase + a.taskAt);
  }

  predicate WithinLaunch(l: Layout, a: Submission, at: nat)
  {
    || l.csrBase + a.receiverAt <= at < l.csrBase + a.receiverAt + 320
    || l.taskBase + a.taskAt <= at < l.taskBase + a.taskAt + 192
  }

  lemma {:induction false} PlacedWithin(cs: seq<Command>, a: nat)
    ensures forall x | x in Placed(cs, a) :: a <= x.at <= a + 4 * |Flatten(cs)|
  {
    if cs != [] {
      PlacedWithin(cs[1..], a + 4 * |cs[0]|);
    }
  }

  // ---------- how many launches fit ----------

  /** The launches of a run that reached the receiver stream. */
  function Launches(events: seq<Event>): nat
  {
    if events == [] then 0
    else
      var e := events[|events| - 1];
      Launches(events[..|events| - 1]) + (if e.Build? && e.progress == Complete then 1 else 0)
  }

  /** The receiver stream grows by 320 bytes a launch, so it has room for exactly 204. */
  lemma {:induction false} RoomForLaunches(l: Layout, events: seq<Event>)
    requires l.Valid() && Reach(l, events).Some?
    ensures |Reach(l, events).value.csr| == 320 * Launches(events)
    ensures |Reach(l, events).value.csr| + 320 <= STREAM_SIZE <==> Launches(events) < 204
    decreases |events|
  {
    hide Next, Enabled, Kept;
    if events != [] {
      var shorter, e := events[..|events| - 1], events[|events| - 1];
      RoomForLaunches(l, shorter);
      EveryRunKeeps(l, shorter);
      ReceiverGrowth(l, Reach(l, shorter).value, e);
    }
  }

  lemma ReceiverGrowth(l: Layout, s: State, e: Event)
    requires Kept(l, s) && Enabled(s, e)
    ensures |Next(l, s, e).csr| == |s.csr| + if e.Build? && e.progress == Complete then 320 else 0
  {
    hide LogKept, CurrentKept, HistoryKept, AppendTask, AppendReceiver, Run, ValueAfter;
    if e.Build? {
      LaunchSizes(s.task, s.csr, TaskOf(l, s, e), e.receiver, l.taskBase + |s.task|);
    }
  }
}
