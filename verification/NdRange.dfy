/** The whole range of a launch: the lanes of all its groups, and the work-items they run. */
module NdRange {
  import opened Bits
  import opened Words
  import opened Commands
  import opened LocalIds
  import opened WorkGroup
  import opened ThreadPayload
  import IndirectHeap
  import GpuState
  import Wiring
  import Launches

  /** Item d of a group, in the range. */
  function GlobalId(group: Id, d: Id, k: IndirectHeap.Indirect): Id
  {
    Id(group.x * k.X + d.x, group.y * k.Y + d.y, group.z * k.Z + d.z)
  }

  /** Lane l of thread t of a group that is walked. */
  predicate Started(c: Command, g: Program, simdSize: nat, group: Id, t: nat, l: nat)
    requires |c| == 15
  {
    GpuState.WalksGroup(c, group.x, group.y, group.z) && Dispatched(g, simdSize, t, l)
  }

  /** Each started lane is loaded with the local IDs of an item of its group; the items of all groups are those of the
      range, each of them that of one lane. */
  ghost predicate Covers(item: (nat, nat) -> Id, m: seq<byte>, base: nat, c: Command, g: Program,
                         k: IndirectHeap.Indirect, range: Id)
    requires |c| == 15
  {
    var simd := k.simdSize;
    && (forall group: Id, t: nat, l: nat | Started(c, g, simd, group, t, l) ::
          && LoadsOwn(m, base, g, k, t, l, item(t, l))
          && InBox(GlobalId(group, item(t, l), k), range.x, range.y, range.z))
    && (forall e: Id | InBox(e, range.x, range.y, range.z) ::
          exists group: Id, t: nat, l: nat :: Started(c, g, simd, group, t, l) && GlobalId(group, item(t, l), k) == e)
    && (forall group: Id, t: nat, l: nat, group': Id, t': nat, l': nat
          | Started(c, g, simd, group, t, l) && Started(c, g, simd, group', t', l')
            && GlobalId(group, item(t, l), k) == GlobalId(group', item(t', l'), k) ::
          group == group' && t == t' && l == l')
  }

  /** Every work-item of the range runs once. */
  ghost predicate RunsRange(m: seq<byte>, base: nat, c: Command, g: Program, k: IndirectHeap.Indirect, range: Id)
    requires |c| == 15
  {
    exists item: (nat, nat) -> Id :: Covers(item, m, base, c, g, k, range)
  }

  function RangeOf(k: Launches.Launch): Id
  {
    Id(k.groupsX * k.indirect.X, k.groupsY * k.indirect.Y, k.groupsZ * k.indirect.Z)
  }

  /** A number below a product is one multiple and a rest. */
  lemma Split(n: nat, groups: nat, size: nat) returns (group: nat, d: nat)
    requires size >= 1 && n < groups * size
    ensures group < groups && d < size && group * size + d == n
  {
    group, d := n / size, n % size;
    if group >= groups { MulMonotone(size, groups, group); }
  }

  lemma Join(group: nat, d: nat, groups: nat, size: nat)
    requires group < groups && d < size
    ensures group * size + d < groups * size
    ensures (group * size + d) / size == group && (group * size + d) % size == d
  {
    DivModUnique(group * size + d, size, group, d);
    MulMonotone(size, group + 1, groups);
    Distribute(size, group, 1);
  }

  lemma GlobalInRange(k: Launches.Launch, group: Id, d: Id)
    requires k.Valid() && InBox(group, k.groupsX, k.groupsY, k.groupsZ)
    requires InBox(d, k.indirect.X, k.indirect.Y, k.indirect.Z)
    ensures InBox(GlobalId(group, d, k.indirect), RangeOf(k).x, RangeOf(k).y, RangeOf(k).z)
  {
    Join(group.x, d.x, k.groupsX, k.indirect.X);
    Join(group.y, d.y, k.groupsY, k.indirect.Y);
    Join(group.z, d.z, k.groupsZ, k.indirect.Z);
  }

  lemma GlobalIsUnique(k: Launches.Launch, group: Id, d: Id, group': Id, d': Id)
    requires k.Valid() && GlobalId(group, d, k.indirect) == GlobalId(group', d', k.indirect)
    requires InBox(d, k.indirect.X, k.indirect.Y, k.indirect.Z) && InBox(d', k.indirect.X, k.indirect.Y, k.indirect.Z)
    ensures group == group' && d == d'
  {
    Join(group.x, d.x, group.x + 1, k.indirect.X);
    Join(group'.x, d'.x, group'.x + 1, k.indirect.X);
    Join(group.y, d.y, group.y + 1, k.indirect.Y);
    Join(group'.y, d'.y, group'.y + 1, k.indirect.Y);
    Join(group.z, d.z, group.z + 1, k.indirect.Z);
    Join(group'.z, d'.z, group'.z + 1, k.indirect.Z);
  }

  lemma GroupAndItem(k: Launches.Launch, e: Id) returns (group: Id, d: Id)
    requires k.Valid() && InBox(e, RangeOf(k).x, RangeOf(k).y, RangeOf(k).z)
    ensures InBox(group, k.groupsX, k.groupsY, k.groupsZ) && InBox(d, k.indirect.X, k.indirect.Y, k.indirect.Z)
    ensures GlobalId(group, d, k.indirect) == e
  {
    hide Launches.Launch.PatchesFit;
    var x, dx := Split(e.x, k.groupsX, k.indirect.X);
    var y, dy := Split(e.y, k.groupsY, k.indirect.Y);
    var z, dz := Split(e.z, k.groupsZ, k.indirect.Z);
    group, d := Id(x, y, z), Id(dx, dy, dz);
  }

  /** A walk over every group, each of which runs its items once, runs every item of the range once. */
  lemma GroupsMakeRange(m: seq<byte>, base: nat, c: Command, g: Program, k: Launches.Launch)
    requires k.Valid() && |c| == 15 && Wiring.WalksEveryGroup(c, k) && RunsOnce(m, base, g, k.indirect)
    ensures RunsRange(m, base, c, g, k.indirect, RangeOf(k))
  {
    hide GpuState.WalksGroup, LoadsOwn, Dispatched, InBox, GlobalId, RangeOf, Launches.Launch.Valid;
    var item: (nat, nat) -> Id :| Pairs(item, m, base, g, k.indirect);
    var i, simd, range := k.indirect, k.indirect.simdSize, RangeOf(k);
    InGroups(c, k);
    forall group: Id, t: nat, l: nat | Started(c, g, simd, group, t, l)
      ensures InBox(GlobalId(group, item(t, l), i), range.x, range.y, range.z)
    {
      GlobalInRange(k, group, item(t, l));
    }
    forall e: Id | InBox(e, range.x, range.y, range.z)
      ensures exists group: Id, t: nat, l: nat :: Started(c, g, simd, group, t, l) && GlobalId(group, item(t, l), i) == e
    {
      var group, d := GroupAndItem(k, e);
      var t: nat, l: nat :| Dispatched(g, simd, t, l) && item(t, l) == d;
      assert Started(c, g, simd, group, t, l);
    }
    forall group: Id, t: nat, l: nat, group': Id, t': nat, l': nat
      | Started(c, g, simd, group, t, l) && Started(c, g, simd, group', t', l')
        && GlobalId(group, item(t, l), i) == GlobalId(group', item(t', l'), i)
      ensures group == group' && t == t' && l == l'
    {
      GlobalIsUnique(k, group, item(t, l), group', item(t', l'));
    }
    assert Covers(item, m, base, c, g, i, range);
  }

  lemma InGroups(c: Command, k: Launches.Launch)
    requires |c| == 15 && Wiring.WalksEveryGroup(c, k)
    ensures forall group: Id :: GpuState.WalksGroup(c, group.x, group.y, group.z)
                                <==> InBox(group, k.groupsX, k.groupsY, k.groupsZ)
  {
    hide GpuState.WalksGroup;
  }

  /** An ID that lies in the range when its group is the last one lies in the group. */
  lemma InLastGroup(k: Launches.Launch, d: Id)
    requires k.Valid() && k.groupsX >= 1 && k.groupsY >= 1 && k.groupsZ >= 1
    requires InBox(GlobalId(Id(k.groupsX - 1, k.groupsY - 1, k.groupsZ - 1), d, k.indirect),
                   RangeOf(k).x, RangeOf(k).y, RangeOf(k).z)
    ensures InBox(d, k.indirect.X, k.indirect.Y, k.indirect.Z)
  {
    hide Launches.Launch.PatchesFit;
    Distribute(k.indirect.X, k.groupsX - 1, 1);
    Distribute(k.indirect.Y, k.groupsY - 1, 1);
    Distribute(k.indirect.Z, k.groupsZ - 1, 1);
  }

  /** And only such a walk does: if there is a group at all, the range runs once exactly if a group does. */
  lemma RangeIff(m: seq<byte>, base: nat, c: Command, g: Program, k: Launches.Launch)
    requires k.Valid() && |c| == 15 && Wiring.WalksEveryGroup(c, k)
    requires k.groupsX >= 1 && k.groupsY >= 1 && k.groupsZ >= 1
    ensures RunsRange(m, base, c, g, k.indirect, RangeOf(k)) <==> RunsOnce(m, base, g, k.indirect)
  {
    hide RunsOnce;
    if RunsOnce(m, base, g, k.indirect) {
      hide RunsRange;
      GroupsMakeRange(m, base, c, g, k);
    } else if RunsRange(m, base, c, g, k.indirect, RangeOf(k)) {
      var item: (nat, nat) -> Id :| Covers(item, m, base, c, g, k.indirect, RangeOf(k));
      RangeHasGroups(item, m, base, c, g, k);
      PairsRunOnce(item, m, base, g, k.indirect);
    }
  }

  lemma PairsRunOnce(item: (nat, nat) -> Id, m: seq<byte>, base: nat, g: Program, k: IndirectHeap.Indirect)
    requires Pairs(item, m, base, g, k)
    ensures RunsOnce(m, base, g, k)
  {
    hide Pairs;
  }

  lemma RangeHasGroups(item: (nat, nat) -> Id, m: seq<byte>, base: nat, c: Command, g: Program, k: Launches.Launch)
    requires k.Valid() && |c| == 15 && Wiring.WalksEveryGroup(c, k)
    requires k.groupsX >= 1 && k.groupsY >= 1 && k.groupsZ >= 1
    requires Covers(item, m, base, c, g, k.indirect, RangeOf(k))
    ensures Pairs(item, m, base, g, k.indirect)
  {
    hide GpuState.WalksGroup, LoadsOwn, Dispatched, InBox, GlobalId, RangeOf, Launches.Launch.Valid;
    var i, simd := k.indirect, k.indirect.simdSize;
    InGroups(c, k);
    var last := Id(k.groupsX - 1, k.groupsY - 1, k.groupsZ - 1);
    assert GpuState.WalksGroup(c, last.x, last.y, last.z) by { IsInside(last, k); }
    forall t: nat, l: nat | Dispatched(g, simd, t, l)
      ensures LoadsOwn(m, base, g, i, t, l, item(t, l)) && InBox(item(t, l), i.X, i.Y, i.Z)
    {
      assert Started(c, g, simd, last, t, l);
      InLastGroup(k, item(t, l));
    }
    forall d: Id | InBox(d, i.X, i.Y, i.Z)
      ensures exists t: nat, l: nat :: Dispatched(g, simd, t, l) && item(t, l) == d
    {
      IsInside(last, k);
      GlobalInRange(k, last, d);
      var group: Id, t: nat, l: nat :| Started(c, g, simd, group, t, l) && GlobalId(group, item(t, l), i) == GlobalId(last, d, i);
      GlobalIsUnique(k, group, item(t, l), last, d);
    }
    forall t: nat, l: nat, t': nat, l': nat
      | Dispatched(g, simd, t, l) && Dispatched(g, simd, t', l') && item(t, l) == item(t', l')
      ensures t == t' && l == l'
    {
      assert Started(c, g, simd, last, t, l) && Started(c, g, simd, last, t', l');
    }
  }

  lemma IsInside(group: Id, k: Launches.Launch)
    requires group.x < k.groupsX && group.y < k.groupsY && group.z < k.groupsZ
    ensures InBox(group, k.groupsX, k.groupsY, k.groupsZ)
  {
  }
}
