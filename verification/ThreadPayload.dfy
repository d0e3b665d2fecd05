/** The local IDs a launch's threads load, as the hardware finds them.

    The hardware takes the places of the IDs from the finished commands: the indirect base, the cross-thread and
    per-thread lengths of the interface descriptor, and the data address, thread count and mask of the walker.  Each
    thread is loaded with its per-thread bytes, in which it finds one row for every channel its kernel reads.  The
    theorem says for exactly which launches this gives every lane an item of its own.
 */
module ThreadPayload {
  import opened Bits
  import opened Words
  import opened Commands
  import opened LocalIds
  import opened PackedIds
  import opened WorkGroup
  import opened Serving
  import opened PayloadStride
  import opened IndirectHeap
  import OneChannel
  import TwoChannels
  import SimdOneIds
  import DynamicHeap
  import GpuState
  import Wiring
  import BufferObjects
  import Launches
  import HeapAllocator
  import Runs

  // ---------- the hardware's view ----------

  /** What the commands say: the GPU address of the data, bytes of it that are cross-thread data, bytes per thread,
      threads in a group, and the mask of the last thread. */
  datatype Program = Program(data: nat, cross: nat, perThread: nat, threads: nat, mask: nat)

  function ProgramOf(w: GpuState.Walked, d: Command): Program
    requires |w.command| == 15 && |d| == 8
  {
    Program(GpuState.DataOf(w), DynamicHeap.CrossThreadBytes(d), DynamicHeap.PerThreadBytes(d),
            GpuState.ThreadsOfGroup(w.command), w.command[13])
  }

  function WordAt(m: seq<byte>, p: int): nat
  {
    if 0 <= p && p + 2 <= |m| then
      var low: int, high: int := m[p], m[p + 1];
      low + 0x100 * high
    else 0
  }

  /** From one channel to the next: a row of registers, or for one-lane kernels the next word. */
  function RowBytes(simdSize: nat): nat { if simdSize == 1 then 2 else 2 * Skip(simdSize) }

  /** Where lane l's place in the first row of thread t is, in a heap at GPU address `base`. */
  function LoadedAt(base: nat, g: Program, t: nat, l: nat): int { g.data - base + g.cross + t * g.perThread + 2 * l }

  /** Word j that lane l of thread t is loaded with, from heap bytes m. */
  function LoadedWord(m: seq<byte>, base: nat, g: Program, simdSize: nat, t: nat, l: nat, j: nat): nat
  {
    WordAt(m, LoadedAt(base, g, t, l) + j * RowBytes(simdSize))
  }

  /** Each ID that a kernel reads, in order, is that of item d. */
  predicate LoadsOwn(m: seq<byte>, base: nat, g: Program, k: Indirect, t: nat, l: nat, d: Id)
  {
    var c, second := k.present, if k.present.x then 1 else 0;
    var third := if k.present.y then second + 1 else second;
    && (c.x ==> LoadedWord(m, base, g, k.simdSize, t, l, 0) == d.x)
    && (c.y ==> LoadedWord(m, base, g, k.simdSize, t, l, second) == d.y)
    && (c.z ==> LoadedWord(m, base, g, k.simdSize, t, l, third) == d.z)
  }

  predicate Dispatched(g: Program, simdSize: nat, t: nat, l: nat)
  {
    l < simdSize && t < g.threads && (t + 1 < g.threads || TestBit(g.mask, l))
  }

  /** Dispatched lanes and the items of the group correspond one to one, and every lane is loaded with the IDs of its
      own item. */
  ghost predicate Pairs(item: (nat, nat) -> Id, m: seq<byte>, base: nat, g: Program, k: Indirect)
  {
    var simd := k.simdSize;
    && (forall t: nat, l: nat | Dispatched(g, simd, t, l) ::
          InBox(item(t, l), k.X, k.Y, k.Z) && LoadsOwn(m, base, g, k, t, l, item(t, l)))
    && (forall d: Id | InBox(d, k.X, k.Y, k.Z) :: exists t: nat, l: nat :: Dispatched(g, simd, t, l) && item(t, l) == d)
    && (forall t: nat, l: nat, t': nat, l': nat
          | Dispatched(g, simd, t, l) && Dispatched(g, simd, t', l') && item(t, l) == item(t', l') :: t == t' && l == l')
  }

  ghost predicate RunsOnce(m: seq<byte>, base: nat, g: Program, k: Indirect)
  {
    exists item: (nat, nat) -> Id :: Pairs(item, m, base, g, k)
  }

  /** The program of a launch whose data is at this address, with `cross` bytes of it loaded as cross-thread data. */
  function LaunchProgram(k: Indirect, data: nat, cross: nat): Program
    requires k.Valid()
  {
    Program(data, cross, PerThreadBytes(k), (k.Threads() + 63) % 64 + 1, RightExecutionMask(k.LocalSize(), k.simdSize))
  }

  function PerThreadBytes(k: Indirect): nat
  {
    var reserved := ReservedPerThread(k.simdSize, k.present.Count());
    if reserved < GRF then GRF else reserved
  }

  /** The words of a kernel's channels lie inside the bytes that their thread is loaded with. */
  lemma WordsInsideThread(base: nat, g: Program, k: Indirect, t: nat, l: nat, j: nat)
    requires k.Valid() && g.perThread == PerThreadBytes(k) && l < k.simdSize && j < k.present.Count()
    ensures var first := g.data - base + g.cross + t * g.perThread;
            first <= LoadedAt(base, g, t, l) + j * RowBytes(k.simdSize)
            && LoadedAt(base, g, t, l) + j * RowBytes(k.simdSize) + 2 <= first + g.perThread
  {
    hide HwThreads;
    assert j == 0 || j == 1 || j == 2;
  }

  /** The IDs a launch leaves in memory from byte `at` on. */
  ghost predicate IdsIn(m: seq<byte>, at: nat, k: Indirect)
    requires k.Valid()
  {
    if k.simdSize == 1 then
      forall t: nat | t < k.LocalSize() ::
        Id(WordAt(m, at + GRF * t), WordAt(m, at + GRF * t + 2), WordAt(m, at + GRF * t + 4)) == IdOf(t, k.Z, k.Y)
    else
      forall t: nat, l: nat | t < k.Threads() && l < k.simdSize :: SlotId(m, at, Skip(k.simdSize), t, l) ==
                                                                   StoredLane(t, l, k.simdSize, k.X, k.Y)
  }

  function SlotId(m: seq<byte>, at: nat, skip: nat, t: nat, l: nat): Id
  {
    Id(WordAt(m, Slot(at, skip, t, 0, l)), WordAt(m, Slot(at, skip, t, 1, l)), WordAt(m, Slot(at, skip, t, 2, l)))
  }

  /** The heap array a launch has been appended to holds them. */
  lemma HeapHoldsIds(heap: array<byte>, at: nat, k: Indirect)
    requires k.Valid() && HoldsIds(heap, at, k)
    ensures IdsIn(heap[..], at, k)
  {
    hide IdOf, StoredLane, Slot, HwThreads;
    var m := heap[..];
    if k.simdSize == 1 {
      forall t: nat | t < k.LocalSize()
        ensures Id(WordAt(m, at + GRF * t), WordAt(m, at + GRF * t + 2), WordAt(m, at + GRF * t + 4)) == IdOf(t, k.Z, k.Y)
      {
        assert SimdOneIds.ThreadId(heap, at, t) == IdOf(t, k.Z, k.Y);
      }
    } else {
      forall t: nat, l: nat | t < k.Threads() && l < k.simdSize
        ensures SlotId(m, at, Skip(k.simdSize), t, l) == StoredLane(t, l, k.simdSize, k.X, k.Y)
      {
        assert SlotId(m, at, Skip(k.simdSize), t, l) == ReadId(heap, at, Skip(k.simdSize), t, l);
      }
    }
  }

  function GroupOf(k: Indirect): Id { Id(k.X, k.Y, k.Z) }

  /** The group's sizes, those of the channels read first. */
  function Arranged(k: Indirect): Id { k.present.Arrange(GroupOf(k)) }

  /** The launches whose every item runs once. */
  predicate Exact(k: Indirect)
    requires k.Valid()
  {
    && k.Threads() <= 64
    && (k.present.Count() == 0 || (|k.crossThreadData| % GRF == 0 && |k.crossThreadData| < 0x2000 && Suits(k)))
  }

  /** The kernel finds its IDs in the rows its threads are loaded with. */
  predicate Suits(k: Indirect)
    requires k.Valid()
  {
    var n, size := k.present.Count(), Arranged(k);
    if k.simdSize == 1 then Leading(n, size, Id(k.Z, k.Y, k.X))
    else if n == 3 || k.LocalSize() <= k.simdSize then Divisible(k.X, k.Y, k.Z) && Leading(n, size, GroupOf(k))
    else n == 1 && k.X % 4 == 0 && OneChannel.Balanced(k.LocalSize(), k.simdSize, k.X, k.Y, size.x)
  }

  // ---------- which lanes are dispatched ----------

  /** All threads but the last are needed. */
  lemma ThreadsBelow(k: Indirect)
    requires k.Valid()
    ensures k.Threads() >= 1 && k.simdSize * (k.Threads() - 1) < k.LocalSize() <= k.simdSize * k.Threads()
  {
    SizeOfGroup(k);
    RowFits(k.X, k.Y, k.Z);
    if k.simdSize == 1 {
      assert k.Threads() == k.LocalSize();
    } else {
      hide HwThreads;
      ThreadsCoverGroup(k.LocalSize(), k.simdSize);
      Distribute(k.simdSize, k.Threads() - 1, 1);
    }
  }

  lemma WalkerHolds(threads: nat)
    requires 1 <= threads <= 64
    ensures (threads + 63) % 64 + 1 == threads
  {
  }

  /** When the thread count fits the walker, the lanes with a number below the group's size. */
  lemma DispatchedIffInGroup(k: Indirect, data: nat, cross: nat, t: nat, l: nat)
    requires k.Valid() && k.Threads() <= 64
    ensures LaunchProgram(k, data, cross).threads == k.Threads()
    ensures Dispatched(LaunchProgram(k, data, cross), k.simdSize, t, l)
            <==> l < k.simdSize && t * k.simdSize + l < k.LocalSize()
  {
    hide HwThreads, RightExecutionMask, TestBit, Indirect.LocalSize, PerThreadBytes;
    ThreadsBelow(k);
    WalkerHolds(k.Threads());
    if k.simdSize == 1 {
      ThreadPerItem(k.LocalSize());
      FullMask(k.LocalSize());
    } else if l < k.simdSize {
      EnabledIffInGroup(t, l, k.LocalSize(), k.simdSize);
    }
  }

  lemma FullMask(local: nat)
    ensures TestBit(RightExecutionMask(local, 1), 0)
  {
    AndZero(local);
  }

  // ---------- lanes by their numbers ----------

  /** Word j that lane number i is loaded with. */
  function LaneLoad(m: seq<byte>, base: nat, g: Program, simdSize: nat): Load
    requires simdSize >= 1
  {
    (i: nat, j: nat) => LoadedWord(m, base, g, simdSize, i / simdSize, i % simdSize, j)
  }

  lemma LaneNumber(t: nat, l: nat, simdSize: nat)
    requires l < simdSize
    ensures (t * simdSize + l) / simdSize == t && (t * simdSize + l) % simdSize == l
  {
    DivModUnique(t * simdSize + l, simdSize, t, l);
  }

  lemma OwnIsAgrees(m: seq<byte>, base: nat, g: Program, k: Indirect, t: nat, l: nat, d: Id)
    requires k.Valid() && l < k.simdSize
    ensures LoadsOwn(m, base, g, k, t, l, d)
            <==> Agrees(LaneLoad(m, base, g, k.simdSize), k.present.Count(), t * k.simdSize + l, k.present.Arrange(d))
  {
    hide LoadedWord, Indirect.Valid;
    LaneNumber(t, l, k.simdSize);
    var load, i := LaneLoad(m, base, g, k.simdSize), t * k.simdSize + l;
    assert load(i, 0) == LoadedWord(m, base, g, k.simdSize, t, l, 0);
    assert load(i, 1) == LoadedWord(m, base, g, k.simdSize, t, l, 1);
    assert load(i, 2) == LoadedWord(m, base, g, k.simdSize, t, l, 2);
  }

  lemma ArrangedItems(k: Indirect, d: Id)
    requires k.Valid()
    ensures k.simdSize >= 1 && Items(Arranged(k)) == Items(GroupOf(k)) == k.LocalSize()
    ensures Serving.Inside(k.present.Arrange(d), Arranged(k)) <==> InBox(d, k.X, k.Y, k.Z)
    ensures 1 <= Arranged(k).x <= 1024 && 1 <= Arranged(k).y <= 1024 && 1 <= Arranged(k).z <= 1024
  {
    hide Items, Indirect.LocalSize;
    SizeOfGroup(k);
    SameItems(k.X, k.Y, k.Z);
  }

  lemma SameItems(X: nat, Y: nat, Z: nat)
    ensures Items(Id(X, Y, Z)) == X * Y * Z
    ensures Items(Id(X, Z, Y)) == Items(Id(Y, X, Z)) == Items(Id(Y, Z, X)) == Items(Id(Z, X, Y)) == X * Y * Z
  {
  }

  /** Up to 64 threads, every item runs once exactly if the group is served. */
  lemma RunsOnceIffServed(m: seq<byte>, base: nat, k: Indirect, data: nat, cross: nat)
    requires k.Valid() && k.Threads() <= 64
    ensures var g := LaunchProgram(k, data, cross);
            RunsOnce(m, base, g, k) <==> Served(LaneLoad(m, base, g, k.simdSize), k.present.Count(), Arranged(k))
  {
    hide Served, RunsOnce, LaunchProgram;
    var g := LaunchProgram(k, data, cross);
    if RunsOnce(m, base, g, k) {
      RunsOnceIsServed(m, base, k, data, cross);
    }
    if Served(LaneLoad(m, base, g, k.simdSize), k.present.Count(), Arranged(k)) {
      ServedRunsOnce(m, base, k, data, cross);
    }
  }

  /** Item i of a group whose items run once, arranged. */
  function Numbered(item: (nat, nat) -> Id, k: Indirect, i: nat): Id
    requires k.simdSize >= 1
  {
    k.present.Arrange(item(i / k.simdSize, i % k.simdSize))
  }

  function ThreadOf(i: nat, simdSize: nat): nat
    requires simdSize >= 1
  {
    i / simdSize
  }

  function LaneIn(i: nat, simdSize: nat): nat
    requires simdSize >= 1
  {
    i % simdSize
  }

  lemma NumberIsDispatched(k: Indirect, data: nat, cross: nat, i: nat)
    requires k.Valid() && k.Threads() <= 64 && i < k.LocalSize()
    ensures Dispatched(LaunchProgram(k, data, cross), k.simdSize, ThreadOf(i, k.simdSize), LaneIn(i, k.simdSize))
  {
    hide Dispatched, HwThreads, Indirect.LocalSize, LaunchProgram;
    LaneSplits(i, k.simdSize);
    DispatchedIffInGroup(k, data, cross, i / k.simdSize, i % k.simdSize);
  }

  lemma NumberedAgrees(item: (nat, nat) -> Id, m: seq<byte>, base: nat, k: Indirect, data: nat, cross: nat, i: nat)
    requires k.Valid() && k.Threads() <= 64 && Pairs(item, m, base, LaunchProgram(k, data, cross), k) && i < k.LocalSize()
    ensures Serving.Inside(Numbered(item, k, i), Arranged(k))
    ensures Agrees(LaneLoad(m, base, LaunchProgram(k, data, cross), k.simdSize), k.present.Count(), i, Numbered(item, k, i))
  {
    hide LoadsOwn, Dispatched, LaneLoad, Agrees, Items, Serving.Inside, InBox, HwThreads, Arranged, Channels.Arrange,
         Channels.Count, Indirect.LocalSize, LaunchProgram;
    var simd := k.simdSize;
    LaneSplits(i, simd);
    NumberIsDispatched(k, data, cross, i);
    ArrangedItems(k, item(i / simd, i % simd));
    OwnIsAgrees(m, base, LaunchProgram(k, data, cross), k, i / simd, i % simd, item(i / simd, i % simd));
  }

  lemma NumberOfArranged(item: (nat, nat) -> Id, m: seq<byte>, base: nat, k: Indirect, data: nat, cross: nat, d: Id)
    returns (i: nat)
    requires k.Valid() && k.Threads() <= 64 && Pairs(item, m, base, LaunchProgram(k, data, cross), k)
    requires Serving.Inside(d, Arranged(k))
    ensures i < k.LocalSize() && Numbered(item, k, i) == d
  {
    hide LoadsOwn, Dispatched, Items, Serving.Inside, InBox, HwThreads, Arranged, Channels.Arrange, Indirect.LocalSize,
         LaunchProgram;
    var e := k.present.Restore(d);
    ArrangedItems(k, e);
    var t: nat, l: nat :| Dispatched(LaunchProgram(k, data, cross), k.simdSize, t, l) && item(t, l) == e;
    DispatchedIffInGroup(k, data, cross, t, l);
    LaneNumber(t, l, k.simdSize);
    i := t * k.simdSize + l;
  }

  lemma RunsOnceIsServed(m: seq<byte>, base: nat, k: Indirect, data: nat, cross: nat)
    requires k.Valid() && k.Threads() <= 64 && RunsOnce(m, base, LaunchProgram(k, data, cross), k)
    ensures Served(LaneLoad(m, base, LaunchProgram(k, data, cross), k.simdSize), k.present.Count(), Arranged(k))
  {
    hide LoadsOwn, Dispatched, LaneLoad, Agrees, Items, Serving.Inside, InBox, HwThreads, Arranged, Channels.Arrange,
         Channels.Count, Indirect.LocalSize, LaunchProgram, Numbered, Indirect.Valid, Indirect.Threads;
    var g := LaunchProgram(k, data, cross);
    var item: (nat, nat) -> Id :| Pairs(item, m, base, g, k);
    ArrangedItems(k, GroupOf(k));
    var simd := k.simdSize;
    var numbered := (i: nat) requires k.simdSize >= 1 => Numbered(item, k, i);
    forall i: nat | i < k.LocalSize()
      ensures Serving.Inside(numbered(i), Arranged(k)) && Agrees(LaneLoad(m, base, g, simd), k.present.Count(), i, numbered(i))
    {
      NumberedAgrees(item, m, base, k, data, cross, i);
    }
    forall d | Serving.Inside(d, Arranged(k)) ensures exists i :: 0 <= i < k.LocalSize() && numbered(i) == d
    {
      var i := NumberOfArranged(item, m, base, k, data, cross, d);
      assert numbered(i) == d;
    }
    forall i: nat, i': nat | i < k.LocalSize() && i' < k.LocalSize() && numbered(i) == numbered(i') ensures i == i'
    {
      SameNumber(item, m, base, k, data, cross, i, i');
    }
    assert Assigns(numbered, LaneLoad(m, base, g, simd), k.present.Count(), Arranged(k));
  }

  lemma SameNumber(item: (nat, nat) -> Id, m: seq<byte>, base: nat, k: Indirect, data: nat, cross: nat, i: nat, i': nat)
    requires k.Valid() && k.Threads() <= 64 && Pairs(item, m, base, LaunchProgram(k, data, cross), k)
    requires i < k.LocalSize() && i' < k.LocalSize() && Numbered(item, k, i) == Numbered(item, k, i')
    ensures i == i'
  {
    hide LoadsOwn, Dispatched, InBox, HwThreads, Channels.Arrange, Indirect.LocalSize, LaunchProgram;
    NumberIsDispatched(k, data, cross, i);
    NumberIsDispatched(k, data, cross, i');
    SameArranged(k.present, item(i / k.simdSize, i % k.simdSize), item(i' / k.simdSize, i' % k.simdSize));
    LaneSplits(i, k.simdSize);
    LaneSplits(i', k.simdSize);
  }

  lemma SameArranged(c: Channels, d: Id, e: Id)
    requires c.Arrange(d) == c.Arrange(e)
    ensures d == e
  {
  }

  /** The item of lane l of thread t in a group that is served. */
  function Restored(arranged: nat -> Id, k: Indirect, t: nat, l: nat): Id
  {
    k.present.Restore(arranged(t * k.simdSize + l))
  }

  lemma RestoredIsOwn(arranged: nat -> Id, m: seq<byte>, base: nat, k: Indirect, data: nat, cross: nat, t: nat, l: nat)
    requires k.Valid() && k.Threads() <= 64 && Dispatched(LaunchProgram(k, data, cross), k.simdSize, t, l)
    requires Assigns(arranged, LaneLoad(m, base, LaunchProgram(k, data, cross), k.simdSize), k.present.Count(), Arranged(k))
    ensures l < k.simdSize && t * k.simdSize + l < Items(Arranged(k))
    ensures InBox(Restored(arranged, k, t, l), k.X, k.Y, k.Z)
    ensures LoadsOwn(m, base, LaunchProgram(k, data, cross), k, t, l, Restored(arranged, k, t, l))
  {
    hide LoadsOwn, Dispatched, LaneLoad, Agrees, Items, Serving.Inside, InBox, HwThreads, Arranged, Channels.Arrange,
         Channels.Count, Indirect.LocalSize, LaunchProgram;
    DispatchedIffInGroup(k, data, cross, t, l);
    ArrangedItems(k, Restored(arranged, k, t, l));
    OwnIsAgrees(m, base, LaunchProgram(k, data, cross), k, t, l, Restored(arranged, k, t, l));
  }

  lemma LaneOfItem(arranged: nat -> Id, m: seq<byte>, base: nat, k: Indirect, data: nat, cross: nat, d: Id)
    returns (t: nat, l: nat)
    requires k.Valid() && k.Threads() <= 64 && InBox(d, k.X, k.Y, k.Z)
    requires Assigns(arranged, LaneLoad(m, base, LaunchProgram(k, data, cross), k.simdSize), k.present.Count(), Arranged(k))
    ensures Dispatched(LaunchProgram(k, data, cross), k.simdSize, t, l) && Restored(arranged, k, t, l) == d
  {
    hide Dispatched, LaneLoad, Agrees, Items, Serving.Inside, InBox, HwThreads, Arranged, Channels.Arrange, Channels.Count,
         Indirect.LocalSize, LaunchProgram;
    ArrangedItems(k, d);
    var i: nat :| i < Items(Arranged(k)) && arranged(i) == k.present.Arrange(d);
    LaneSplits(i, k.simdSize);
    t, l := i / k.simdSize, i % k.simdSize;
    DispatchedIffInGroup(k, data, cross, t, l);
  }

  lemma SameLane(arranged: nat -> Id, m: seq<byte>, base: nat, k: Indirect, data: nat, cross: nat, t: nat, l: nat, t': nat,
                 l': nat)
    requires k.Valid() && k.Threads() <= 64 && Restored(arranged, k, t, l) == Restored(arranged, k, t', l')
    requires Dispatched(LaunchProgram(k, data, cross), k.simdSize, t, l)
    requires Dispatched(LaunchProgram(k, data, cross), k.simdSize, t', l')
    requires Assigns(arranged, LaneLoad(m, base, LaunchProgram(k, data, cross), k.simdSize), k.present.Count(), Arranged(k))
    ensures t == t' && l == l'
  {
    hide LoadsOwn, Dispatched, LaneLoad, Agrees, Items, Serving.Inside, InBox, HwThreads, Arranged, Channels.Arrange,
         Channels.Count, Indirect.LocalSize, LaunchProgram;
    RestoredIsOwn(arranged, m, base, k, data, cross, t, l);
    RestoredIsOwn(arranged, m, base, k, data, cross, t', l');
    assert k.present.Arrange(Restored(arranged, k, t, l)) == arranged(t * k.simdSize + l);
    LaneNumber(t, l, k.simdSize);
    LaneNumber(t', l', k.simdSize);
  }

  lemma ServedRunsOnce(m: seq<byte>, base: nat, k: Indirect, data: nat, cross: nat)
    requires k.Valid() && k.Threads() <= 64
    requires Served(LaneLoad(m, base, LaunchProgram(k, data, cross), k.simdSize), k.present.Count(), Arranged(k))
    ensures RunsOnce(m, base, LaunchProgram(k, data, cross), k)
  {
    hide LoadsOwn, Dispatched, LaneLoad, Assigns, InBox, HwThreads, Arranged, Channels.Count, Indirect.LocalSize,
         LaunchProgram, Restored, Indirect.Valid, Indirect.Threads;
    var g, simd := LaunchProgram(k, data, cross), k.simdSize;
    ArrangedItems(k, GroupOf(k));
    var arranged := ServedBy(LaneLoad(m, base, g, simd), k.present.Count(), Arranged(k));
    var item := (t: nat, l: nat) => Restored(arranged, k, t, l);
    forall t: nat, l: nat | Dispatched(g, simd, t, l)
      ensures InBox(item(t, l), k.X, k.Y, k.Z) && LoadsOwn(m, base, g, k, t, l, item(t, l))
    {
      RestoredIsOwn(arranged, m, base, k, data, cross, t, l);
    }
    forall d | InBox(d, k.X, k.Y, k.Z)
      ensures exists t: nat, l: nat :: Dispatched(g, simd, t, l) && item(t, l) == d
    {
      var t, l := LaneOfItem(arranged, m, base, k, data, cross, d);
      assert item(t, l) == d;
    }
    forall t: nat, l: nat, t': nat, l': nat
      | Dispatched(g, simd, t, l) && Dispatched(g, simd, t', l') && item(t, l) == item(t', l')
      ensures t == t' && l == l'
    {
      SameLane(arranged, m, base, k, data, cross, t, l, t', l');
    }
    assert Pairs(item, m, base, g, k);
  }

  // ---------- too many threads ----------

  lemma {:induction false} Pigeonhole(s: seq<nat>, n: nat)
    requires forall v: nat | v < n :: v in s
    ensures n <= |s|
  {
    if n > 0 {
      var last: nat := n - 1;
      assert last in s;
      var i :| 0 <= i < |s| && s[i] == last;
      var rest := s[..i] + s[i + 1..];
      forall v: nat | v < n - 1
        ensures v in rest
      {
        assert v in s && v != last;
        var j :| 0 <= j < |s| && s[j] == v;
        assert rest[if j < i then j else j - 1] == v;
      }
      Pigeonhole(rest, n - 1);
    }
  }

  /** Fewer lanes than items leave an item out. */
  lemma TooFewLanes(m: seq<byte>, base: nat, g: Program, k: Indirect)
    requires k.Valid() && g.threads * k.simdSize < k.X * k.Y * k.Z
    ensures !RunsOnce(m, base, g, k)
  {
    hide LoadsOwn, Dispatched, InBox, Value, Pairs, NumberAt, Indirect.LocalSize;
    if RunsOnce(m, base, g, k) {
      var item: (nat, nat) -> Id :| Pairs(item, m, base, g, k);
      var s := seq(g.threads * k.simdSize, i requires 0 <= i && k.simdSize >= 1 => NumberAt(item, k, i));
      forall v: nat | v < k.X * k.Y * k.Z ensures v in s
      {
        var i := LaneOfNumber(item, m, base, g, k, v);
        assert s[i] == v;
      }
      Pigeonhole(s, k.X * k.Y * k.Z);
    }
  }

  function NumberAt(item: (nat, nat) -> Id, k: Indirect, i: nat): nat
    requires k.simdSize >= 1
  {
    Value(item(i / k.simdSize, i % k.simdSize), k.X, k.Y)
  }

  lemma LaneOfNumber(item: (nat, nat) -> Id, m: seq<byte>, base: nat, g: Program, k: Indirect, v: nat) returns (i: nat)
    requires k.Valid() && Pairs(item, m, base, g, k) && v < k.X * k.Y * k.Z
    ensures i < g.threads * k.simdSize && NumberAt(item, k, i) == v
  {
    hide LoadsOwn, Dispatched, InBox, Value, IdOf, Indirect.LocalSize;
    ItemOfNumber(v, k.X, k.Y, k.Z);
    var t: nat, l: nat :| Dispatched(g, k.simdSize, t, l) && item(t, l) == IdOf(v, k.X, k.Y);
    IdOfInRange(v, k.X, k.Y);
    LaneBelow(g, k.simdSize, t, l);
    i := t * k.simdSize + l;
  }

  lemma LaneBelow(g: Program, simdSize: nat, t: nat, l: nat)
    requires Dispatched(g, simdSize, t, l)
    ensures 0 <= t * simdSize + l < g.threads * simdSize
    ensures (t * simdSize + l) / simdSize == t && (t * simdSize + l) % simdSize == l
  {
    LaneNumber(t, l, simdSize);
    MulMonotone(simdSize, t + 1, g.threads);
    Distribute(simdSize, t, 1);
  }

  /** More than 64 threads: the walker dispatches fewer. */
  lemma ManyThreads(m: seq<byte>, base: nat, k: Indirect, data: nat, cross: nat)
    requires k.Valid() && k.Threads() > 64
    ensures !RunsOnce(m, base, LaunchProgram(k, data, cross), k)
  {
    hide RunsOnce, HwThreads, RightExecutionMask, IndirectHeap.PerThreadDataSize;
    SizeOfGroup(k);
    ThreadsBelow(k);
    var threads, dispatched := k.Threads(), LaunchProgram(k, data, cross).threads;
    assert dispatched <= threads - 64;
    MulMonotone(k.simdSize, dispatched, threads - 64);
    Distribute(k.simdSize, threads - 1, -63);
    TooFewLanes(m, base, LaunchProgram(k, data, cross), k);
  }

  // ---------- words read from where the IDs begin ----------

  /** A kernel that reads no ID is served by any lanes, as many as items. */
  lemma NoChannelRuns(m: seq<byte>, base: nat, k: Indirect, data: nat, cross: nat)
    requires k.Valid() && k.Threads() <= 64 && k.present.Count() == 0
    ensures RunsOnce(m, base, LaunchProgram(k, data, cross), k)
  {
    hide LaneLoad, RunsOnce, LaunchProgram, Served, Indirect.Threads, Indirect.LocalSize, Arranged, Items, IdOf;
    RunsOnceIffServed(m, base, k, data, cross);
    ArrangedItems(k, GroupOf(k));
    ServedInOrder(LaneLoad(m, base, LaunchProgram(k, data, cross), k.simdSize), 0, Arranged(k));
  }

  /** One-lane kernels: thread t finds in its own register the digits of t with dimension 2 fastest. */
  lemma OneLaneWord(m: seq<byte>, base: nat, start: nat, k: Indirect, i: nat, j: nat)
    requires k.Valid() && k.simdSize == 1 && IdsIn(m, start + |k.crossThreadData|, k) && i < k.LocalSize() && j < 3
    ensures LaneLoad(m, base, LaunchProgram(k, base + start, |k.crossThreadData|), 1)(i, j) == Digit(j, i, k.Z, k.Y)
  {
    hide WordAt, Indirect.LocalSize, RightExecutionMask, HwThreads;
    var at := start + |k.crossThreadData|;
    DivModUnique(i, 1, i, 0);
    assert Id(WordAt(m, at + GRF * i), WordAt(m, at + GRF * i + 2), WordAt(m, at + GRF * i + 4)) == IdOf(i, k.Z, k.Y);
  }

  lemma OneLaneIff(m: seq<byte>, base: nat, start: nat, k: Indirect)
    requires k.Valid() && k.simdSize == 1 && k.Threads() <= 64 && k.present.Count() >= 1
    requires IdsIn(m, start + |k.crossThreadData|, k)
    ensures RunsOnce(m, base, LaunchProgram(k, base + start, |k.crossThreadData|), k)
            <==> Leading(k.present.Count(), Arranged(k), Id(k.Z, k.Y, k.X))
  {
    hide LaneLoad, RunsOnce, LaunchProgram, Served, Indirect.Threads, Indirect.LocalSize, Arranged, Items, IdsIn, Digit,
         Leading, Channels.Count;
    var load, n := LaneLoad(m, base, LaunchProgram(k, base + start, |k.crossThreadData|), 1), k.present.Count();
    RunsOnceIffServed(m, base, k, base + start, |k.crossThreadData|);
    ArrangedItems(k, GroupOf(k));
    SizeOfGroup(k);
    SameItems(k.Z, k.Y, k.X);
    forall i: nat, j: nat | i < Items(Arranged(k)) && j < n ensures load(i, j) == Digit(j, i, k.Z, k.Y)
    {
      OneLaneWord(m, base, start, k, i, j);
    }
    DigitsServeIff(load, n, Arranged(k), Id(k.Z, k.Y, k.X));
  }

  /** Row r of the IDs, counted from the first. */
  lemma RowWord(m: seq<byte>, at: nat, k: Indirect, r: nat, l: nat)
    requires k.Valid() && IsSimd(k.simdSize) && IdsIn(m, at, k) && r / 3 < k.Threads() && l < k.simdSize
    ensures WordAt(m, at + 2 * (Skip(k.simdSize) * r + l)) == Row(r, l, k.simdSize, k.X, k.Y)
  {
    hide WordAt, StoredLane, HwThreads, Skip;
    var t, d, skip := r / 3, r % 3, Skip(k.simdSize);
    assert r == 3 * t + d;
    assert SlotId(m, at, skip, t, l) == StoredLane(t, l, k.simdSize, k.X, k.Y);
    assert Slot(at, skip, t, d, l) == at + 2 * (skip * r + l);
  }

  /** Other kernels: threads are as many rows apart as the kernel has channels. */
  lemma PackedWord(m: seq<byte>, base: nat, start: nat, k: Indirect, i: nat, j: nat)
    requires k.Valid() && IsSimd(k.simdSize) && IdsIn(m, start + |k.crossThreadData|, k)
    requires i < k.LocalSize() && j < k.present.Count()
    ensures LaneLoad(m, base, LaunchProgram(k, base + start, |k.crossThreadData|), k.simdSize)(i, j)
            == Loaded(k.present.Count(), k.simdSize, k.X, k.Y)(i, j)
  {
    hide WordAt, Row, HwThreads, Skip, IdsIn, Indirect.LocalSize, RightExecutionMask, Channels.Count;
    var at, skip, n, t, l := start + |k.crossThreadData|, Skip(k.simdSize), k.present.Count(), i / k.simdSize, i % k.simdSize;
    LaneSplits(i, k.simdSize);
    ThreadOfNumber(i, k);
    MulMonotone(t, n, 3);
    RowWord(m, at, k, n * t + j, l);
    RowAddress(at, skip, n, t, l, j);
    PerThreadRows(k);
    assert LaunchProgram(k, base + start, |k.crossThreadData|).perThread == n * (2 * skip);
  }

  lemma ThreadOfNumber(i: nat, k: Indirect)
    requires k.Valid() && i < k.LocalSize()
    ensures i / k.simdSize < k.Threads()
  {
    hide HwThreads, Indirect.LocalSize;
    ThreadsBelow(k);
    var t := i / k.simdSize;
    LaneSplits(i, k.simdSize);
    if t >= k.Threads() { MulMonotone(k.simdSize, k.Threads(), t); }
  }

  lemma RowAddress(at: nat, skip: nat, n: nat, t: nat, l: nat, j: nat)
    ensures at + t * (n * (2 * skip)) + 2 * l + j * (2 * skip) == at + 2 * (skip * (n * t + j) + l)
  {
    assert t * (n * (2 * skip)) == 2 * (skip * (n * t));
    Distribute(skip, n * t, j);
  }

  lemma PerThreadRows(k: Indirect)
    requires k.Valid() && IsSimd(k.simdSize) && k.present.Count() >= 1
    ensures PerThreadBytes(k) == k.present.Count() * (2 * Skip(k.simdSize))
  {
    hide Indirect.LocalSize, Channels.Count;
    assert k.present.Count() == 1 || k.present.Count() == 2 || k.present.Count() == 3;
  }

  /** Every item runs once exactly if the rows suit the kernel. */
  lemma PackedIff(m: seq<byte>, base: nat, start: nat, k: Indirect)
    requires k.Valid() && IsSimd(k.simdSize) && k.Threads() <= 64 && k.present.Count() >= 1
    requires IdsIn(m, start + |k.crossThreadData|, k)
    ensures RunsOnce(m, base, LaunchProgram(k, base + start, |k.crossThreadData|), k) <==> Suits(k)
  {
    hide LaneLoad, Loaded, RunsOnce, LaunchProgram, Served, Indirect.Threads, Arranged, Items, IdsIn, Suits,
         Indirect.LocalSize;
    var n, load := k.present.Count(), LaneLoad(m, base, LaunchProgram(k, base + start, |k.crossThreadData|), k.simdSize);
    RunsOnceIffServed(m, base, k, base + start, |k.crossThreadData|);
    ArrangedItems(k, GroupOf(k));
    forall i: nat, j: nat | i < Items(Arranged(k)) && j < n ensures load(i, j) == Loaded(n, k.simdSize, k.X, k.Y)(i, j)
    {
      PackedWord(m, base, start, k, i, j);
    }
    if Served(load, n, Arranged(k)) { SameLoads(load, Loaded(n, k.simdSize, k.X, k.Y), n, Arranged(k)); }
    if Served(Loaded(n, k.simdSize, k.X, k.Y), n, Arranged(k)) {
      SameLoads(Loaded(n, k.simdSize, k.X, k.Y), load, n, Arranged(k));
    }
    SuitsIff(k);
  }

  lemma SuitsIff(k: Indirect)
    requires k.Valid() && IsSimd(k.simdSize) && k.Threads() <= 64 && k.present.Count() >= 1
    ensures Served(Loaded(k.present.Count(), k.simdSize, k.X, k.Y), k.present.Count(), Arranged(k)) <==> Suits(k)
  {
    hide Loaded, Served, Items, HwThreads, Divisible, Leading, OneChannel.Balanced, Indirect.LocalSize;
    var n := k.present.Count();
    ArrangedItems(k, GroupOf(k));
    ThreadsBelow(k);
    MulMonotone(k.simdSize, k.Threads(), 64);
    if n == 3 || k.LocalSize() <= k.simdSize {
      OwnRowsIff(n, k.simdSize, GroupOf(k), Arranged(k));
    } else if n == 1 {
      OneChannel.OneChannelIff(k.simdSize, GroupOf(k), Arranged(k));
    } else {
      TwoChannels.TwoChannelsNever(k.simdSize, GroupOf(k), Arranged(k));
    }
  }

  /** With whole registers of cross-thread data, or none of the IDs read. */
  lemma WholeRegistersIff(m: seq<byte>, base: nat, start: nat, k: Indirect)
    requires k.Valid() && k.present.Count() >= 1 && IdsIn(m, start + |k.crossThreadData|, k)
    requires |k.crossThreadData| % GRF == 0 && |k.crossThreadData| < 0x2000
    ensures RunsOnce(m, base, LaunchProgram(k, base + start, |k.crossThreadData|), k) <==> Exact(k)
  {
    hide RunsOnce, IdsIn, HwThreads, LaunchProgram, Leading, Divisible, OneChannel.Balanced, Arranged;
    if k.Threads() > 64 {
      ManyThreads(m, base, k, base + start, |k.crossThreadData|);
    } else if k.simdSize == 1 {
      OneLaneIff(m, base, start, k);
    } else {
      PackedIff(m, base, start, k);
    }
  }

  // ---------- cross-thread data that is not whole registers ----------

  function WithByte(m: seq<byte>, start: nat, k: Indirect, at: nat, v: byte): seq<byte>
    requires start + |k.crossThreadData| <= |m| && at < |k.crossThreadData|
  {
    Patch(m, start, k.crossThreadData[at := v])
  }

  /** When thread 0's first word begins inside the cross-thread data, the data decides it: of two values of its first
      byte at least one is wrong, since the other lanes are loaded with the same words as before. */
  lemma DataReadAsId(m: seq<byte>, base: nat, start: nat, k: Indirect, cross: nat)
    requires k.Valid() && start + |k.crossThreadData| + 2 <= |m| && k.Threads() <= 64 && k.present.Count() >= 1
    requires cross < |k.crossThreadData|
    ensures exists v: byte :: !RunsOnce(WithByte(m, start, k, cross, v), base, LaunchProgram(k, base + start, cross), k)
  {
    hide LaneLoad, RunsOnce, LaunchProgram, Served, Indirect.Threads, Arranged, Items, WithByte, Indirect.LocalSize;
    var g, n, size := LaunchProgram(k, base + start, cross), k.present.Count(), Arranged(k);
    var m0, m1 := WithByte(m, start, k, cross, 0), WithByte(m, start, k, cross, 1);
    RunsOnceIffServed(m0, base, k, base + start, cross);
    RunsOnceIffServed(m1, base, k, base + start, cross);
    ArrangedItems(k, GroupOf(k));
    FirstItem(k);
    var load0, load1 := LaneLoad(m0, base, g, k.simdSize), LaneLoad(m1, base, g, k.simdSize);
    FirstWordChanges(m, base, start, k, cross);
    forall i: nat | 0 < i < k.LocalSize() ensures load0(i, 0) == load1(i, 0)
    {
      FirstWordsStay(m, base, start, k, cross, i);
    }
    if Served(load0, n, size) { NotBoth(load0, load1, n, size); }
  }

  /** Two ways of loading that differ in the first word of lane 0 alone do not both serve a group. */
  lemma NotBoth(load0: Load, load1: Load, n: nat, size: Id)
    requires n >= 1 && size.y >= 1 && Items(size) > 0 && load0(0, 0) != load1(0, 0) && Served(load0, n, size)
    requires forall i: nat | 0 < i < Items(size) :: load0(i, 0) == load1(i, 0)
    ensures !Served(load1, n, size)
  {
    hide Items, Served, Fibre;
    var item0 := ServedBy(load0, n, size);
    OneFewer(load0, load1, Items(size));
    LoadsInside(item0, load0, n, size, 0);
    FibreSize(item0, load0, n, size, load0(0, 0));
    if Served(load1, n, size) {
      var item1 := ServedBy(load1, n, size);
      FibreSize(item1, load1, n, size, load0(0, 0));
    }
  }

  lemma OneFewer(load0: Load, load1: Load, lanes: nat)
    requires lanes > 0 && load0(0, 0) != load1(0, 0) && forall i: nat | 0 < i < lanes :: load0(i, 0) == load1(i, 0)
    ensures |Fibre(load0, lanes, load0(0, 0))| == |Fibre(load1, lanes, load0(0, 0))| + 1
  {
    var v := load0(0, 0);
    assert Fibre(load0, lanes, v) == Fibre(load1, lanes, v) + {0};
  }

  lemma FirstItem(k: Indirect)
    requires k.Valid()
    ensures k.LocalSize() > 0
  {
    SizeOfGroup(k);
    RowFits(k.X, k.Y, k.Z);
  }

  lemma FirstWordChanges(m: seq<byte>, base: nat, start: nat, k: Indirect, cross: nat)
    requires k.Valid() && start + |k.crossThreadData| + 2 <= |m| && cross < |k.crossThreadData|
    ensures var g := LaunchProgram(k, base + start, cross);
            LaneLoad(WithByte(m, start, k, cross, 0), base, g, k.simdSize)(0, 0)
            != LaneLoad(WithByte(m, start, k, cross, 1), base, g, k.simdSize)(0, 0)
  {
    hide HwThreads, RightExecutionMask, Indirect.LocalSize, PerThreadBytes, RowBytes;
    var g := LaunchProgram(k, base + start, cross);
    DivModUnique(0, k.simdSize, 0, 0);
    assert LoadedAt(base, g, 0, 0) + 0 * RowBytes(k.simdSize) == start + cross;
    assert WordAt(WithByte(m, start, k, cross, 0), start + cross) != WordAt(WithByte(m, start, k, cross, 1), start + cross);
  }

  lemma FirstWordsStay(m: seq<byte>, base: nat, start: nat, k: Indirect, cross: nat, i: nat)
    requires k.Valid() && start + |k.crossThreadData| <= |m| && cross < |k.crossThreadData| && i > 0
    ensures var g := LaunchProgram(k, base + start, cross);
            LaneLoad(WithByte(m, start, k, cross, 0), base, g, k.simdSize)(i, 0)
            == LaneLoad(WithByte(m, start, k, cross, 1), base, g, k.simdSize)(i, 0)
  {
    hide WordAt, WithByte, HwThreads, RightExecutionMask, Indirect.LocalSize, RowBytes;
    var g, t, l := LaunchProgram(k, base + start, cross), i / k.simdSize, i % k.simdSize;
    LaneSplits(i, k.simdSize);
    LaterThread(t, g.perThread);
    assert LoadedAt(base, g, t, l) + 0 * RowBytes(k.simdSize) == start + cross + t * g.perThread + 2 * l;
    WordBehind(m, start, k, cross, start + cross + t * g.perThread + 2 * l);
  }

  lemma LaterThread(t: nat, perThread: nat)
    requires perThread >= GRF
    ensures t * perThread >= 0 && (t >= 1 ==> t * perThread >= GRF)
  {
    if t >= 1 { MulMonotone(perThread, 1, t); }
  }

  lemma WordBehind(m: seq<byte>, start: nat, k: Indirect, at: nat, p: nat)
    requires start + |k.crossThreadData| <= |m| && at < |k.crossThreadData| && p > start + at
    ensures WordAt(WithByte(m, start, k, at, 0), p) == WordAt(WithByte(m, start, k, at, 1), p)
  {
  }

  /** Then some cross-thread data, or all, make the launch go wrong. */
  lemma PartRegistersFail(m: seq<byte>, base: nat, start: nat, k: Indirect, cross: nat)
    requires k.Valid() && k.present.Count() >= 1 && start + |k.crossThreadData| + 2 <= |m| && cross < |k.crossThreadData|
    ensures exists data: seq<byte> ::
              && |data| == |k.crossThreadData|
              && !RunsOnce(Patch(m, start, data), base, LaunchProgram(k, base + start, cross), k)
  {
    hide RunsOnce, HwThreads, Patch, RightExecutionMask, Channels.Count, LaunchProgram, Indirect.LocalSize;
    if k.Threads() > 64 {
      ManyThreads(Patch(m, start, k.crossThreadData), base, k, base + start, cross);
    } else {
      DataReadAsId(m, base, start, k, cross);
      var v: byte :| !RunsOnce(WithByte(m, start, k, cross, v), base, LaunchProgram(k, base + start, cross), k);
      assert |k.crossThreadData[cross := v]| == |k.crossThreadData|;
    }
  }

  // ---------- the launch ----------

  /** The IDs do not depend on the cross-thread data before them. */
  lemma IdsStay(m: seq<byte>, start: nat, k: Indirect, data: seq<byte>)
    requires k.Valid() && |data| == |k.crossThreadData| && start + |data| <= |m| && IdsIn(m, start + |data|, k)
    ensures IdsIn(Patch(m, start, data), start + |data|, k)
  {
    hide StoredLane, IdOf, HwThreads, Patch, WordAt;
    var m', at := Patch(m, start, data), start + |data|;
    forall p: nat | p >= at ensures WordAt(m', p) == WordAt(m, p) { WordStays(m, start, data, p); }
    if k.simdSize != 1 {
      forall t: nat, l: nat | t < k.Threads() && l < k.simdSize
        ensures SlotId(m', at, Skip(k.simdSize), t, l) == SlotId(m, at, Skip(k.simdSize), t, l)
      {
      }
    }
  }

  lemma WordStays(m: seq<byte>, start: nat, data: seq<byte>, p: nat)
    requires start + |data| <= |m| && p >= start + |data|
    ensures WordAt(Patch(m, start, data), p) == WordAt(m, p)
  {
  }

  /** The program that walk and descriptor carry is the launch's; all cross-thread data is loaded exactly when it is whole
      registers, fewer than 256. */
  lemma CommandsCarryProgram(w: GpuState.Walked, d: Command, k: Launches.Launch, data: nat)
    requires k.Valid() && Wiring.Carries(w, d, k, data)
    ensures var g, n := ProgramOf(w, d), |k.indirect.crossThreadData|;
            && g == LaunchProgram(k.indirect, data, g.cross) && g.cross <= n
            && (g.cross == n <==> n % GRF == 0 && n < 0x2000)
  {
    hide HwThreads, DynamicHeap.CrossThreadBytes, DynamicHeap.PerThreadBytes, DynamicHeap.GroupThreads,
         DynamicHeap.LocalMemoryBytes, DynamicHeap.LocalMemoryCode, DynamicHeap.UsesBarriers, DynamicHeap.KernelStart,
         DynamicHeap.NothingElse, GpuState.ThreadsOfGroup, GpuState.LanesOfThread, GpuState.DataOf, Wiring.WalksEveryGroup,
         Wiring.DataSize, Wiring.UsesLocalMemory, RightExecutionMask, Indirect.Valid, Launches.Launch.PatchesFit,
         Indirect.LocalSize, HeapAllocator.HeapAddress;
    ThreadsBelow(k.indirect);
    CounterOf(GpuState.ThreadsOfGroup(w.command), k.indirect.Threads());
    assert Launches.LocalIdSizePerThread(k) == PerThreadBytes(k.indirect);
  }

  /** The only number from 1 to 64 that differs from n by a multiple of 64. */
  lemma CounterOf(counter: nat, n: nat)
    requires 1 <= counter <= 64 && (counter - n) % 64 == 0
    ensures counter == (n + 63) % 64 + 1
  {
    var q := (counter - n) / 64;
    assert counter - n == 64 * q;
    DivModUnique(n + 63, 64, 1 - q, counter - 1);
  }

  /** For a program that loads `cross` bytes of the cross-thread data. */
  lemma ForAllDataIff(m: seq<byte>, base: nat, start: nat, k: Indirect, cross: nat)
    requires k.Valid() && start + |k.crossThreadData| + 2 <= |m| && IdsIn(m, start + |k.crossThreadData|, k)
    requires cross <= |k.crossThreadData|
    requires cross == |k.crossThreadData| <==> |k.crossThreadData| % GRF == 0 && |k.crossThreadData| < 0x2000
    ensures (forall data: seq<byte> | |data| == |k.crossThreadData| ::
               RunsOnce(Patch(m, start, data), base, LaunchProgram(k, base + start, cross), k)) <==> Exact(k)
  {
    hide RunsOnce, IdsIn, Exact, LaunchProgram, Patch, Indirect.Valid, Channels.Count;
    if k.present.Count() == 0 || cross == |k.crossThreadData| {
      forall data: seq<byte> | |data| == |k.crossThreadData|
        ensures RunsOnce(Patch(m, start, data), base, LaunchProgram(k, base + start, cross), k) <==> Exact(k)
      {
        if k.present.Count() == 0 {
          NoChannelIff(Patch(m, start, data), base, k, base + start, cross);
        } else {
          IdsStay(m, start, k, data);
          WholeRegistersIff(Patch(m, start, data), base, start, k);
        }
      }
      assert RunsOnce(Patch(m, start, k.crossThreadData), base, LaunchProgram(k, base + start, cross), k) <==> Exact(k);
    } else {
      PartRegistersFail(m, base, start, k, cross);
      NotWhole(k);
    }
  }

  lemma NoChannelIff(m: seq<byte>, base: nat, k: Indirect, data: nat, cross: nat)
    requires k.Valid() && k.present.Count() == 0
    ensures RunsOnce(m, base, LaunchProgram(k, data, cross), k) <==> Exact(k)
  {
    hide RunsOnce, HwThreads, LaunchProgram, Suits;
    if k.Threads() > 64 { ManyThreads(m, base, k, data, cross); } else { NoChannelRuns(m, base, k, data, cross); }
  }

  lemma NotWhole(k: Indirect)
    requires k.Valid() && k.present.Count() >= 1
    requires !(|k.crossThreadData| % GRF == 0 && |k.crossThreadData| < 0x2000)
    ensures !Exact(k)
  {
    hide HwThreads, Suits;
  }

  /** The theorem.  From the memory a launch leaves, whatever its cross-thread data, the lanes that its commands have
      dispatched run every item of the group once, each with the IDs its kernel reads, if and only if the group has at
      most 64 threads and either the kernel reads no ID, or the cross-thread data is whole registers, fewer than 256,
      and the rows suit the kernel. */
  lemma EachItemOnceIff(w: GpuState.Walked, d: Command, k: Launches.Launch, m: seq<byte>, base: nat, start: nat)
    requires k.Valid() && Wiring.Carries(w, d, k, base + start)
    requires start + |k.indirect.crossThreadData| + 2 <= |m| && IdsIn(m, start + |k.indirect.crossThreadData|, k.indirect)
    ensures (forall data: seq<byte> | |data| == |k.indirect.crossThreadData| ::
               RunsOnce(Patch(m, start, data), base, ProgramOf(w, d), k.indirect))
            <==> Exact(k.indirect)
  {
    hide RunsOnce, IdsIn, Exact, LaunchProgram, Patch, ProgramOf, Launches.Launch.PatchesFit, HeapAllocator.HeapAddress,
         Wiring.WalkIsMeant, Wiring.IsDescriptorOf;
    assert |w.command| == 15 && |d| == 8 by { Lengths(w, d, k, base + start); }
    CommandsCarryProgram(w, d, k, base + start);
    ForAllDataIff(m, base, start, k.indirect, ProgramOf(w, d).cross);
  }

  lemma Lengths(w: GpuState.Walked, d: Command, k: Launches.Launch, data: nat)
    requires k.Valid() && Wiring.Carries(w, d, k, data)
    ensures |w.command| == 15 && |d| == 8
  {
  }

  /** In particular its own data makes it run every item once. */
  lemma OwnDataRunsOnce(w: GpuState.Walked, d: Command, k: Launches.Launch, m: seq<byte>, base: nat, start: nat)
    requires k.Valid() && Wiring.Carries(w, d, k, base + start)
    requires start + |k.indirect.crossThreadData| + 2 <= |m| && IdsIn(m, start + |k.indirect.crossThreadData|, k.indirect)
    requires m[start..start + |k.indirect.crossThreadData|] == k.indirect.crossThreadData && Exact(k.indirect)
    ensures RunsOnce(m, base, ProgramOf(w, d), k.indirect)
  {
    hide RunsOnce, IdsIn, Exact, ProgramOf, Launches.Launch.Valid, Wiring.WalkIsMeant, Wiring.IsDescriptorOf;
    Lengths(w, d, k, base + start);
    EachItemOnceIff(w, d, k, m, base, start);
    assert Patch(m, start, k.indirect.crossThreadData) == m;
  }

  /** The same of a heap the launch has been appended to. */
  lemma AppendedLaunchRunsOnce(w: GpuState.Walked, d: Command, k: Launches.Launch, b: BufferObjects.BufferObject, base: nat,
                               start: nat)
    requires k.Valid() && Wiring.Carries(w, d, k, base + start)
    requires Launches.IndirectAt(b, start, k.indirect) && Exact(k.indirect)
    requires start + |k.indirect.crossThreadData| + 2 <= b.cpuAddress.Length
    ensures RunsOnce(b.cpuAddress[..], base, ProgramOf(w, d), k.indirect)
  {
    hide RunsOnce, IdsIn, Exact, ProgramOf, HoldsIds, Wiring.WalkIsMeant, Wiring.IsDescriptorOf;
    var m, data := b.cpuAddress[..], k.indirect.crossThreadData;
    HeapHoldsIds(b.cpuAddress, start + |data|, k.indirect);
    assert m[start..start + |data|] == data;
    OwnDataRunsOnce(w, d, k, m, base, start);
  }

  // ---------- what is appended later ----------

  /** Whatever is appended to the heap behind a launch, its threads are loaded with the same words: they lie below the
      end of what the launch reserves. */
  lemma LaterBytesDoNotMatter(m: seq<byte>, more: seq<byte>, base: nat, start: nat, k: Indirect, cross: nat)
    requires k.Valid() && m <= more && NextOffset(start, k) <= |m| && cross <= |k.crossThreadData|
    ensures var g := LaunchProgram(k, base + start, cross); RunsOnce(m, base, g, k) <==> RunsOnce(more, base, g, k)
  {
    hide LoadsOwn, Dispatched, InBox, LaunchProgram, NextOffset, Indirect.Valid;
    var g := LaunchProgram(k, base + start, cross);
    forall t: nat, l: nat, d: Id | Dispatched(g, k.simdSize, t, l)
      ensures LoadsOwn(m, base, g, k, t, l, d) == LoadsOwn(more, base, g, k, t, l, d)
    {
      SameOwn(m, more, base, start, k, cross, t, l, d);
    }
    if RunsOnce(m, base, g, k) {
      var item: (nat, nat) -> Id :| Pairs(item, m, base, g, k);
      assert Pairs(item, more, base, g, k);
    }
    if RunsOnce(more, base, g, k) {
      var item: (nat, nat) -> Id :| Pairs(item, more, base, g, k);
      assert Pairs(item, m, base, g, k);
    }
  }

  lemma SameOwn(m: seq<byte>, more: seq<byte>, base: nat, start: nat, k: Indirect, cross: nat, t: nat, l: nat, d: Id)
    requires k.Valid() && m <= more && NextOffset(start, k) <= |m| && cross <= |k.crossThreadData|
    requires Dispatched(LaunchProgram(k, base + start, cross), k.simdSize, t, l)
    ensures var g := LaunchProgram(k, base + start, cross);
            LoadsOwn(m, base, g, k, t, l, d) == LoadsOwn(more, base, g, k, t, l, d)
  {
    hide LaunchProgram, NextOffset, Indirect.Valid, Dispatched, WordAt, LoadedAt, RowBytes;
    var n := k.present.Count();
    if n >= 1 { SameWord(m, more, base, start, k, cross, t, l, 0); }
    if n >= 2 { SameWord(m, more, base, start, k, cross, t, l, 1); }
    if n >= 3 { SameWord(m, more, base, start, k, cross, t, l, 2); }
  }

  lemma SameWord(m: seq<byte>, more: seq<byte>, base: nat, start: nat, k: Indirect, cross: nat, t: nat, l: nat, j: nat)
    requires k.Valid() && m <= more && NextOffset(start, k) <= |m| && cross <= |k.crossThreadData|
    requires Dispatched(LaunchProgram(k, base + start, cross), k.simdSize, t, l) && j < k.present.Count()
    ensures var g := LaunchProgram(k, base + start, cross);
            LoadedWord(m, base, g, k.simdSize, t, l, j) == LoadedWord(more, base, g, k.simdSize, t, l, j)
  {
    hide Indirect.LocalSize, HwThreads, NextOffset, RightExecutionMask, TestBit, LoadedAt, RowBytes,
         IndirectHeap.PerThreadDataSize;
    var g := LaunchProgram(k, base + start, cross);
    WordsInsideThread(base, g, k, t, l, j);
    ThreadsReserved(k, t);
    RoomArithmetic(start, k);
  }

  /** The bytes of a dispatched thread lie in what the launch reserves. */
  lemma ThreadsReserved(k: Indirect, t: nat)
    requires k.Valid() && t < (k.Threads() + 63) % 64 + 1 && k.present.Count() >= 1
    ensures t * PerThreadBytes(k) + PerThreadBytes(k) <= IndirectHeap.PerThreadDataSize(k)
  {
    hide Indirect.LocalSize, HwThreads, Channels.Count;
    ThreadsBelow(k);
    var reserved := ReservedPerThread(k.simdSize, k.present.Count());
    assert k.present.Count() == 1 || k.present.Count() == 2 || k.present.Count() == 3;
    assert PerThreadBytes(k) == reserved;
    MulMonotone(reserved, t + 1, k.Threads());
    Distribute(reserved, t, 1);
  }

  lemma RoomForIds(start: nat, k: Indirect)
    requires k.Valid() && Room(start, k, Runs.STREAM_SIZE)
    ensures start + |k.crossThreadData| + 2 <= Runs.STREAM_SIZE
  {
    hide HwThreads, NextOffset;
    FirstItem(k);
    if k.simdSize != 1 { ThreadsCoverGroup(k.LocalSize(), k.simdSize); }
  }

  // ---------- launches ----------

  /** A kernel that reads x alone, in two threads of a row of 16: every lane of the second thread is loaded with x = 0,
      although none of them has an item in that column. */
  lemma OneChannelTwoThreads(m: seq<byte>, base: nat, start: nat, k: Indirect)
    requires |k.crossThreadData| == GRF && k == Indirect(k.crossThreadData, 16, 1, 1, 8, Channels(true, false, false))
    requires IdsIn(m, start + GRF, k)
    ensures var g := LaunchProgram(k, base + start, GRF);
            && Divisible(16, 1, 1) && k.Threads() == 2 && !RunsOnce(m, base, g, k)
            && forall l: nat | l < 8 :: Dispatched(g, 8, 1, l) && LoadedWord(m, base, g, 8, 1, l, 0) == 0
  {
    hide HwThreads, IdsIn, LoadedWord, RunsOnce, Dispatched, LaunchProgram;
    TwoThreads();
    var g := LaunchProgram(k, base + start, GRF);
    WholeRegistersIff(m, base, start, k);
    forall l: nat | l < 8 ensures Dispatched(g, 8, 1, l) && LoadedWord(m, base, g, 8, 1, l, 0) == 0
    {
      DispatchedIffInGroup(k, base + start, GRF, 1, l);
      PackedWord(m, base, start, k, 8 + l, 0);
      RowOfDigits(1, l, 8, 16, 1);
    }
  }

  lemma TwoThreads()
    ensures HwThreads(16, 8) == 2 && HwThreads(32, 16) == 2 && HwThreads(8, 8) == 1
  {
    assert Shr(23, 3) == 2 && Shr(47, 4) == 2 && Shr(15, 3) == 1;
  }

  /** A kernel that reads x alone can be served by two threads: the y row that the second one is loaded with holds
      every x as often as the x row of the first. */
  lemma OneChannelFits(data: seq<byte>) returns (k: Indirect)
    requires |data| == GRF
    ensures k == Indirect(data, 4, 8, 1, 16, Channels(true, false, false)) && k.Valid() && k.Threads() == 2 && Exact(k)
  {
    k := Indirect(data, 4, 8, 1, 16, Channels(true, false, false));
    TwoThreads();
  }

  /** A kernel that reads y alone, in one thread, is loaded with the x row. */
  lemma OnlyYOneThread(m: seq<byte>, base: nat, start: nat, k: Indirect)
    requires |k.crossThreadData| == GRF && k == Indirect(k.crossThreadData, 4, 2, 1, 8, Channels(false, true, false))
    requires IdsIn(m, start + GRF, k)
    ensures var g := LaunchProgram(k, base + start, GRF);
            && Divisible(4, 2, 1) && k.Threads() == 1 && !RunsOnce(m, base, g, k)
            && forall l: nat | l < 8 :: Dispatched(g, 8, 0, l) && LoadedWord(m, base, g, 8, 0, l, 0) == l % 4
  {
    hide HwThreads, IdsIn, LoadedWord, RunsOnce, Dispatched, LaunchProgram;
    TwoThreads();
    var g := LaunchProgram(k, base + start, GRF);
    WholeRegistersIff(m, base, start, k);
    forall l: nat | l < 8 ensures Dispatched(g, 8, 0, l) && LoadedWord(m, base, g, 8, 0, l, 0) == l % 4
    {
      DispatchedIffInGroup(k, base + start, GRF, 0, l);
      PackedWord(m, base, start, k, l, 0);
      RowOfDigits(0, l, 8, 4, 2);
    }
  }
}
