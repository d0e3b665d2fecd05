/** The counting loops of `retrieveTopologyInfo`: enabled slices, subslices and execution units. */
module Topology {
  import opened Bits
  import opened Words

  /** The kernel's topology answer: three levels of bit masks in one byte array. */
  datatype Topology = Topology(maxSlices: nat, maxSubSlices: nat, maxEus: nat,
                               subSliceOffset: nat, subSliceStride: nat, euOffset: nat, euStride: nat,
                               data: seq<byte>)

  /** Bit i of the mask that starts at byte `at` (clear beyond the data). */
  predicate MaskBit(data: seq<byte>, at: nat, i: nat)
  {
    at + i / 8 < |data| && And(Shr(data[at + i / 8], i % 8), 1) == 1
  }

  predicate SliceOn(t: Topology, x: nat) { MaskBit(t.data, 0, x) }

  /** Where the subslice mask of slice x starts. */
  function SubSliceMask(t: Topology, x: nat): nat { t.subSliceOffset + x * t.subSliceStride }

  predicate SubSliceOn(t: Topology, x: nat, y: nat) { MaskBit(t.data, SubSliceMask(t, x), y) }

  /** Where the unit mask of subslice y of slice x starts. */
  function EuMask(t: Topology, x: nat, y: nat): nat { t.euOffset + (x * t.maxSubSlices + y) * t.euStride }

  predicate EuOn(t: Topology, x: nat, y: nat, z: nat) { MaskBit(t.data, EuMask(t, x, y), z) }

  /** Bit j of byte i of the data. */
  predicate BitOf(data: seq<byte>, i: int, j: nat) { 0 <= i < |data| && data[i] / Pow2(j) % 2 == 1 }

  /** The answer lists these slices, one bit each; for every slice the mask of its subslices, a stride apart; and for every
      subslice, counted through all slices, the mask of its units. */
  ghost predicate Lists(t: Topology, slices: set<nat>, subSlices: set<(nat, nat)>, eus: set<(nat, nat, nat)>)
  {
    && (forall x: nat | x < t.maxSlices :: x in slices <==> BitOf(t.data, x / 8, x % 8))
    && (forall x: nat, y: nat | x < t.maxSlices && y < t.maxSubSlices ::
          (x, y) in subSlices <==> BitOf(t.data, t.subSliceOffset + x * t.subSliceStride + y / 8, y % 8))
    && (forall x: nat, y: nat, z: nat | x < t.maxSlices && y < t.maxSubSlices && z < t.maxEus ::
          (x, y, z) in eus <==> BitOf(t.data, t.euOffset + (x * t.maxSubSlices + y) * t.euStride + z / 8, z % 8))
  }

  lemma MaskBitIs(data: seq<byte>, at: nat, i: nat)
    ensures MaskBit(data, at, i) <==> BitOf(data, at + i / 8, i % 8)
  {
    if at + i / 8 < |data| {
      ShrDivides(data[at + i / 8], i % 8);
      AndLowMask(Shr(data[at + i / 8], i % 8), 1);
      assert Pow2(0) == 1 && Pow2(1) == 2;
    }
  }

  /** What is read as enabled is what the answer lists. */
  lemma EnabledIffListed(t: Topology, slices: set<nat>, subSlices: set<(nat, nat)>, eus: set<(nat, nat, nat)>, x: nat, y: nat,
                         z: nat)
    requires Lists(t, slices, subSlices, eus) && x < t.maxSlices && y < t.maxSubSlices && z < t.maxEus
    ensures SliceOn(t, x) <==> x in slices
    ensures SubSliceOn(t, x, y) <==> (x, y) in subSlices
    ensures EuOn(t, x, y, z) <==> (x, y, z) in eus
  {
    MaskBitIs(t.data, 0, x);
    MaskBitIs(t.data, SubSliceMask(t, x), y);
    MaskBitIs(t.data, EuMask(t, x, y), z);
    hide MaskBit, BitOf;
  }

  // ---------- what is counted ----------

  function SlicesUpTo(t: Topology, n: nat): set<nat>
  {
    set x: nat | x < n && SliceOn(t, x)
  }

  function SubSlicesUpTo(t: Topology, x: nat, n: nat): set<(nat, nat)>
  {
    set y: nat | y < n && SubSliceOn(t, x, y) :: (x, y)
  }

  function EusUpTo(t: Topology, x: nat, y: nat, n: nat): set<(nat, nat, nat)>
  {
    set z: nat | z < n && EuOn(t, x, y, z) :: (x, y, z)
  }

  /** The enabled subslices of the first n slices, and the enabled units of their enabled subslices. */
  function AllSubSlicesUpTo(t: Topology, n: nat): set<(nat, nat)>
  {
    set x: nat, y: nat | x < n && y < t.maxSubSlices && SliceOn(t, x) && SubSliceOn(t, x, y) :: (x, y)
  }

  function AllEusUpTo(t: Topology, n: nat): set<(nat, nat, nat)>
  {
    set x: nat, y: nat, z: nat
      | x < n && y < t.maxSubSlices && z < t.maxEus && SliceOn(t, x) && SubSliceOn(t, x, y) && EuOn(t, x, y, z)
      :: (x, y, z)
  }

  /** The units in the first n subslices of slice x. */
  function SliceEusUpTo(t: Topology, x: nat, n: nat): set<(nat, nat, nat)>
  {
    set y: nat, z: nat | y < n && z < t.maxEus && SubSliceOn(t, x, y) && EuOn(t, x, y, z) :: (x, y, z)
  }

  /** The length of the run of set bits that starts at bit 0 of a mask, among the first n bits. */
  function LeadingRun(data: seq<byte>, at: nat, n: nat): (r: nat)
    ensures r <= n
    ensures forall i: nat | i < r :: MaskBit(data, at, i)
    ensures r < n ==> !MaskBit(data, at, r)
  {
    if n == 0 then 0
    else
      var r := LeadingRun(data, at, n - 1);
      if r == n - 1 && MaskBit(data, at, n - 1) then n else r
  }

  lemma RunNext(data: seq<byte>, at: nat, n: nat)
    ensures LeadingRun(data, at, 0) == 0
    ensures LeadingRun(data, at, n + 1) ==
            if LeadingRun(data, at, n) == n && MaskBit(data, at, n) then n + 1 else LeadingRun(data, at, n)
  {
  }

  // ---------- the loops ----------

  /** The five 16-bit counters. */
  datatype Counts = Counts(slices: nat, subSlices: nat, eus: nat, subSlicesPerSlice: nat, eusPerSubSlice: nat)

  const U16: nat := 0x1_0000

  /** The number of elements, in 16 bits. */
  ghost function Count<T>(s: set<T>): nat { |s| % U16 }

  /** Counters agree with the sets counted so far, modulo 2^16. */
  ghost predicate Agree(c: Counts, slices: set<nat>, subSlices: set<(nat, nat)>, eus: set<(nat, nat, nat)>)
  {
    c.slices == Count(slices) && c.subSlices == Count(subSlices) && c.eus == Count(eus)
  }

  /** No subslice or unit of slice x, no unit of subslice y, has been counted yet. */
  ghost predicate NoSubSlice(x: nat, subSlices: set<(nat, nat)>) { forall y: nat :: (x, y) !in subSlices }
  ghost predicate NoSliceUnit(x: nat, eus: set<(nat, nat, nat)>) { forall y: nat, z: nat :: (x, y, z) !in eus }
  ghost predicate NoUnit(x: nat, y: nat, eus: set<(nat, nat, nat)>) { forall z: nat :: (x, y, z) !in eus }

  lemma CountNone<T>(s: set<T>)
    ensures s == {} ==> Count(s) == 0
  {
  }

  lemma CountOneMore<T>(s: set<T>, e: T)
    requires e !in s
    ensures (Count(s) + 1) % U16 == Count(s + {e})
  {
  }

  lemma EusNext(t: Topology, x: nat, y: nat, z: nat, eus: set<(nat, nat, nat)>)
    requires NoUnit(x, y, eus)
    ensures eus + EusUpTo(t, x, y, 0) == eus
    ensures EuOn(t, x, y, z) ==>
              Count(eus + EusUpTo(t, x, y, z + 1)) == (Count(eus + EusUpTo(t, x, y, z)) + 1) % U16
    ensures !EuOn(t, x, y, z) ==> EusUpTo(t, x, y, z + 1) == EusUpTo(t, x, y, z)
  {
    hide EuOn;
    if EuOn(t, x, y, z) {
      CountOneMore(eus + EusUpTo(t, x, y, z), (x, y, z));
      assert EusUpTo(t, x, y, z + 1) == EusUpTo(t, x, y, z) + {(x, y, z)};
      assert eus + EusUpTo(t, x, y, z + 1) == (eus + EusUpTo(t, x, y, z)) + {(x, y, z)};
    }
  }

  lemma SubSlicesNext(t: Topology, x: nat, y: nat, subSlices: set<(nat, nat)>)
    requires NoSubSlice(x, subSlices)
    ensures subSlices + SubSlicesUpTo(t, x, 0) == subSlices
    ensures SubSliceOn(t, x, y) ==>
              Count(subSlices + SubSlicesUpTo(t, x, y + 1)) == (Count(subSlices + SubSlicesUpTo(t, x, y)) + 1) % U16
    ensures !SubSliceOn(t, x, y) ==> SubSlicesUpTo(t, x, y + 1) == SubSlicesUpTo(t, x, y)
  {
    hide SubSliceOn;
    if SubSliceOn(t, x, y) {
      CountOneMore(subSlices + SubSlicesUpTo(t, x, y), (x, y));
      assert SubSlicesUpTo(t, x, y + 1) == SubSlicesUpTo(t, x, y) + {(x, y)};
      assert subSlices + SubSlicesUpTo(t, x, y + 1) == (subSlices + SubSlicesUpTo(t, x, y)) + {(x, y)};
    }
  }

  lemma SliceEusNext(t: Topology, x: nat, y: nat, eus: set<(nat, nat, nat)>)
    requires NoSliceUnit(x, eus)
    ensures eus + SliceEusUpTo(t, x, 0) == eus
    ensures SubSliceOn(t, x, y) ==>
              eus + SliceEusUpTo(t, x, y + 1) == (eus + SliceEusUpTo(t, x, y)) + EusUpTo(t, x, y, t.maxEus)
    ensures !SubSliceOn(t, x, y) ==> SliceEusUpTo(t, x, y + 1) == SliceEusUpTo(t, x, y)
    ensures NoUnit(x, y, eus + SliceEusUpTo(t, x, y))
  {
    hide SubSliceOn, EuOn;
    if SubSliceOn(t, x, y) {
      assert SliceEusUpTo(t, x, y + 1) == SliceEusUpTo(t, x, y) + EusUpTo(t, x, y, t.maxEus);
    }
  }

  lemma SlicesNext(t: Topology, x: nat)
    ensures SlicesUpTo(t, 0) == {} && AllSubSlicesUpTo(t, 0) == {} && AllEusUpTo(t, 0) == {}
    ensures SliceOn(t, x) ==>
              && Count(SlicesUpTo(t, x + 1)) == (Count(SlicesUpTo(t, x)) + 1) % U16
              && AllSubSlicesUpTo(t, x + 1) == AllSubSlicesUpTo(t, x) + SubSlicesUpTo(t, x, t.maxSubSlices)
              && AllEusUpTo(t, x + 1) == AllEusUpTo(t, x) + SliceEusUpTo(t, x, t.maxSubSlices)
    ensures !SliceOn(t, x) ==>
              && SlicesUpTo(t, x + 1) == SlicesUpTo(t, x)
              && AllSubSlicesUpTo(t, x + 1) == AllSubSlicesUpTo(t, x)
              && AllEusUpTo(t, x + 1) == AllEusUpTo(t, x)
    ensures NoSubSlice(x, AllSubSlicesUpTo(t, x)) && NoSliceUnit(x, AllEusUpTo(t, x))
  {
    hide SliceOn, SubSliceOn, EuOn;
    if SliceOn(t, x) {
      CountOneMore(SlicesUpTo(t, x), x);
      assert SlicesUpTo(t, x + 1) == SlicesUpTo(t, x) + {x};
    }
  }

  /** The innermost loop: units of subslice y of slice x. */
  method CountEus(t: Topology, x: nat, y: nat, c0: Counts, ghost eus: set<(nat, nat, nat)>) returns (c: Counts)
    requires t.maxEus < U16 && c0.eus == Count(eus)
    requires NoUnit(x, y, eus)
    requires x == 0 && y == 0 ==> eus == {} && c0.eusPerSubSlice == 0
    ensures c.eus == Count(eus + EusUpTo(t, x, y, t.maxEus))
    ensures c == c0.(eus := c.eus, eusPerSubSlice := c.eusPerSubSlice)
    ensures c.eusPerSubSlice ==
            if x == 0 && y == 0 then LeadingRun(t.data, EuMask(t, 0, 0), t.maxEus) else c0.eusPerSubSlice
  {
    c := c0;
    hide Count, MaskBit, EuMask, EusUpTo, LeadingRun;
    RunNext(t.data, EuMask(t, 0, 0), 0);
    EusNext(t, x, y, 0, eus);
    CountNone(eus);
    for z := 0 to t.maxEus
      invariant c == c0.(eus := c.eus, eusPerSubSlice := c.eusPerSubSlice)
      invariant c.eus == Count(eus + EusUpTo(t, x, y, z))
      invariant x == 0 && y == 0 ==>
                  && c.eusPerSubSlice == LeadingRun(t.data, EuMask(t, 0, 0), z)
                  && c.eus <= z && (c.eus == z <==> LeadingRun(t.data, EuMask(t, 0, 0), z) == z)
      invariant !(x == 0 && y == 0) ==> c.eusPerSubSlice == c0.eusPerSubSlice
    {
      RunNext(t.data, EuMask(t, 0, 0), z);
      EusNext(t, x, y, z, eus);
      if !EuOn(t, x, y, z) {
        continue;
      }
      c := c.(eus := (c.eus + 1) % U16);
      if x == 0 && y == 0 && c.eus > z {
        c := c.(eusPerSubSlice := c.eus);
      }
    }
  }

  /** The middle loop: the subslices of an enabled slice x. */
  method CountSubSlices(t: Topology, x: nat, c0: Counts, ghost subSlices: set<(nat, nat)>, ghost eus: set<(nat, nat, nat)>)
    returns (c: Counts)
    requires t.maxEus < U16 && t.maxSubSlices < U16
    requires c0.subSlices == Count(subSlices) && c0.eus == Count(eus)
    requires NoSubSlice(x, subSlices) && NoSliceUnit(x, eus)
    requires x == 0 ==> subSlices == {} && eus == {} && c0.subSlicesPerSlice == 0 && c0.eusPerSubSlice == 0
    ensures c.slices == c0.slices
    ensures c.subSlices == Count(subSlices + SubSlicesUpTo(t, x, t.maxSubSlices))
    ensures c.eus == Count(eus + SliceEusUpTo(t, x, t.maxSubSlices))
    ensures c.subSlicesPerSlice ==
            if x == 0 then LeadingRun(t.data, SubSliceMask(t, 0), t.maxSubSlices) else c0.subSlicesPerSlice
    ensures c.eusPerSubSlice ==
            if x == 0 && t.maxSubSlices > 0 && SubSliceOn(t, 0, 0) then LeadingRun(t.data, EuMask(t, 0, 0), t.maxEus)
            else c0.eusPerSubSlice
  {
    c := c0;
    hide Count, MaskBit, EuMask, SubSliceMask, EuOn, SubSlicesUpTo, SliceEusUpTo, EusUpTo, LeadingRun, NoSubSlice,
         NoSliceUnit, NoUnit;
    RunNext(t.data, SubSliceMask(t, 0), 0);
    SubSlicesNext(t, x, 0, subSlices);
    CountNone(subSlices);
    SliceEusNext(t, x, 0, eus);
    for y := 0 to t.maxSubSlices
      invariant c.slices == c0.slices
      invariant c.subSlices == Count(subSlices + SubSlicesUpTo(t, x, y))
      invariant c.eus == Count(eus + SliceEusUpTo(t, x, y))
      invariant x == 0 ==>
                  && c.subSlicesPerSlice == LeadingRun(t.data, SubSliceMask(t, 0), y)
                  && c.subSlices <= y && (c.subSlices == y <==> LeadingRun(t.data, SubSliceMask(t, 0), y) == y)
      invariant x != 0 ==> c.subSlicesPerSlice == c0.subSlicesPerSlice
      invariant c.eusPerSubSlice ==
                if x == 0 && y > 0 && SubSliceOn(t, 0, 0) then LeadingRun(t.data, EuMask(t, 0, 0), t.maxEus)
                else c0.eusPerSubSlice
    {
      RunNext(t.data, SubSliceMask(t, 0), y);
      SubSlicesNext(t, x, y, subSlices);
      SliceEusNext(t, x, y, eus);
      if !SubSliceOn(t, x, y) {
        continue;
      }
      c := c.(subSlices := (c.subSlices + 1) % U16);
      if x == 0 && c.subSlices > y {
        c := c.(subSlicesPerSlice := c.subSlices);
      }
      c := CountEus(t, x, y, c, eus + SliceEusUpTo(t, x, y));
    }
  }

  /** All three loops.  The totals are the exact cardinalities (in 16 bits) of the enabled slices, of their
      enabled subslices and of the enabled units of those; the per-parent counts are leading runs. */
  method CountTopology(t: Topology) returns (c: Counts)
    requires t.maxSlices < U16 && t.maxSubSlices < U16 && t.maxEus < U16
    ensures Agree(c, SlicesUpTo(t, t.maxSlices), AllSubSlicesUpTo(t, t.maxSlices), AllEusUpTo(t, t.maxSlices))
    ensures c.subSlicesPerSlice ==
            if t.maxSlices > 0 && SliceOn(t, 0) then LeadingRun(t.data, SubSliceMask(t, 0), t.maxSubSlices) else 0
    ensures c.eusPerSubSlice ==
            if t.maxSlices > 0 && SliceOn(t, 0) && t.maxSubSlices > 0 && SubSliceOn(t, 0, 0)
            then LeadingRun(t.data, EuMask(t, 0, 0), t.maxEus) else 0
  {
    hide Count, MaskBit, EuMask, SubSliceMask, EuOn, SubSliceOn, SliceOn, LeadingRun;
    hide SlicesUpTo, AllSubSlicesUpTo, AllEusUpTo, SubSlicesUpTo, SliceEusUpTo;
    c := Counts(0, 0, 0, 0, 0);
    SlicesNext(t, 0);
    CountNone(SlicesUpTo(t, 0));
    CountNone(AllSubSlicesUpTo(t, 0));
    CountNone(AllEusUpTo(t, 0));
    for x := 0 to t.maxSlices
      invariant Agree(c, SlicesUpTo(t, x), AllSubSlicesUpTo(t, x), AllEusUpTo(t, x))
      invariant c.subSlicesPerSlice ==
                if x > 0 && SliceOn(t, 0) then LeadingRun(t.data, SubSliceMask(t, 0), t.maxSubSlices) else 0
      invariant c.eusPerSubSlice ==
                if x > 0 && SliceOn(t, 0) && t.maxSubSlices > 0 && SubSliceOn(t, 0, 0)
                then LeadingRun(t.data, EuMask(t, 0, 0), t.maxEus) else 0
    {
      SlicesNext(t, x);
      if !SliceOn(t, x) {
        continue;
      }
      c := c.(slices := (c.slices + 1) % U16);
      c := CountSubSlices(t, x, c, AllSubSlicesUpTo(t, x), AllEusUpTo(t, x));
    }
  }
}
