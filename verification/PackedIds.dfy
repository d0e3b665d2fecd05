/** `generateLocalIDsSimd`: the local-ID generator on vectors of 64-bit groups.

    The driver's vector types are vectors of `long long`, so a comparison, an addition or a subtraction
    acts on a whole 64-bit group that holds four 16-bit lanes.  The generator here performs exactly
    those group operations; `StoredLane` says in closed form what each lane then receives.
 */
module PackedIds {
  import opened Bits
  import opened Words
  import opened DriverUtils
  import opened LocalIds

  type word64 = w: nat | w < 0x1_0000_0000_0000_0000
  type Vec = seq<word64>

  const ALL_ONES: word64 := 0xffff_ffff_ffff_ffff

  /** The number 1 in each of the four lanes of a group. */
  const LANE_ONES: nat := 0x0001_0001_0001_0001

  /** The numbers 0, 1, 2, 3 in the lanes of a group. */
  const LANE_RAMP: nat := 0x0003_0002_0001_0000

  // ---------- vector operations ----------

  /** Lane l of a group. */
  function Lane(w: nat, l: nat): nat
    requires l < 4
  {
    (if l == 0 then w
     else if l == 1 then w / 0x1_0000
     else if l == 2 then w / 0x1_0000_0000
     else w / 0x1_0000_0000_0000) % 0x1_0000
  }

  function Pack(a: nat, b: nat, c: nat, d: nat): nat
  {
    a + 0x1_0000 * b + 0x1_0000_0000 * c + 0x1_0000_0000_0000 * d
  }

  /** `_mm_set`: the same 16-bit value in every lane. */
  function Broadcast(v: nat, groups: nat): (r: Vec)
    requires v < 0x8000
    ensures |r| == groups
  {
    seq(groups, _ => v * LANE_ONES)
  }

  /** `_mm_load` from the table of initial local IDs, in which entry k is k. */
  function LoadInitial(first: nat, groups: nat): Vec
    requires first + 4 * groups <= 32
  {
    seq(groups, g requires 0 <= g < groups =>
      Pack(first + 4 * g, first + 4 * g + 1, first + 4 * g + 2, first + 4 * g + 3))
  }

  /** `a >= b` on signed 64-bit groups: all ones where it holds, zero elsewhere. */
  function GreaterEqual(a: Vec, b: Vec): Vec
    requires |a| == |b|
  {
    seq(|a|, g requires 0 <= g < |a| => if Signed(a[g]) >= Signed(b[g]) then ALL_ONES else 0)
  }

  /** `_mm_blend`: v1 where the mask is set, v2 elsewhere.  Masks come from comparisons, so all bytes
      of a group agree. */
  function Blend(v1: Vec, v2: Vec, mask: Vec): Vec
    requires |v1| == |v2| == |mask|
  {
    seq(|mask|, g requires 0 <= g < |mask| => if mask[g] == ALL_ONES then v1[g] else v2[g])
  }

  function VecAdd(a: Vec, b: Vec): Vec
    requires |a| == |b|
  {
    seq(|a|, g requires 0 <= g < |a| => (a[g] + b[g]) % TWO_64)
  }

  function VecSub(a: Vec, b: Vec): Vec
    requires |a| == |b|
  {
    seq(|a|, g requires 0 <= g < |a| => (a[g] - b[g]) % TWO_64)
  }

  predicate TestZero(v: Vec) { forall g | 0 <= g < |v| :: v[g] == 0 }

  /** The x, y and z vectors of one pass. */
  datatype VecId = VecId(x: Vec, y: Vec, z: Vec)
  {
    predicate Sized(groups: nat) { |x| == groups && |y| == groups && |z| == groups }
  }

  datatype Carried = Carried(ids: VecId, xWrap: Vec, yWrap: Vec)

  /** The compare, blend, subtract and add sequence that all three loops share. */
  function CarryVec(v: VecId, lwsX: Vec, lwsY: Vec): (c: Carried)
    requires v.Sized(|lwsX|) && |lwsY| == |lwsX|
    ensures c.ids.Sized(|lwsX|) && |c.xWrap| == |c.yWrap| == |lwsX|
  {
    var zero, one := Broadcast(0, |lwsX|), Broadcast(1, |lwsX|);
    var xWrap := GreaterEqual(v.x, lwsX);
    var x := VecSub(v.x, Blend(lwsX, zero, xWrap));
    var y := VecAdd(v.y, Blend(one, zero, xWrap));
    var yWrap := GreaterEqual(y, lwsY);
    Carried(VecId(x, VecSub(y, Blend(lwsY, zero, yWrap)), VecAdd(v.z, Blend(one, zero, yWrap))), xWrap, yWrap)
  }

  function AddVec(a: VecId, b: VecId): (r: VecId)
    requires a.Sized(|a.x|) && b.Sized(|a.x|)
    ensures r.Sized(|a.x|)
  {
    VecId(VecAdd(a.x, b.x), VecAdd(a.y, b.y), VecAdd(a.z, b.z))
  }

  // ---------- what a group stands for ----------

  /** Group g holds the 64-bit number d.x, and d.y and d.z in each of its four lanes. */
  predicate Represents(v: VecId, g: nat, d: Id)
    requires v.Sized(|v.x|) && g < |v.x|
  {
    v.x[g] == d.x && v.y[g] == d.y * LANE_ONES && v.z[g] == d.z * LANE_ONES
  }

  predicate Small(d: Id) { d.x < 0x4000_0000_0000_0000 && d.y < 0x2000 && d.z < 0x2000 }

  /** One carry of the packed vectors is, group by group, one carry with the radix X * LANE_ONES. */
  lemma CarryVecIsCarry(v: VecId, g: nat, d: Id, X: nat, Y: nat)
    requires v.Sized(|v.x|) && g < |v.x| && Represents(v, g, d) && Small(d)
    requires 1 <= X <= 1024 && 1 <= Y <= 1024
    ensures var c := CarryVec(v, Broadcast(X, |v.x|), Broadcast(Y, |v.x|));
            var d' := Carry(d, X * LANE_ONES, Y);
            && Represents(c.ids, g, d')
            && (c.xWrap[g] == if d.x >= X * LANE_ONES then ALL_ONES else 0)
            && (c.yWrap[g] == if d'.z > d.z then ALL_ONES else 0)
  {
    hide CarryVec, Broadcast, CarryWords, Carry;
    CarryVecAt(v, g, X, Y);
    CarryWordsAreDigits(d, X, Y);
  }

  /** One group's three words and two masks. */
  datatype GroupWords = GroupWords(x: nat, y: nat, z: nat, xWrap: nat, yWrap: nat)

  /** The sequence on one group of 64-bit words. */
  function CarryWords(x: nat, y: nat, z: nat, X: nat, Y: nat): GroupWords
    requires x < TWO_64 && X < 0x8000 && Y < 0x8000
  {
    var xWrap := if Signed(x) >= Signed(X * LANE_ONES) then ALL_ONES else 0;
    var y1 := (y + (if xWrap == ALL_ONES then LANE_ONES else 0)) % TWO_64;
    var yWrap := if Signed(y1) >= Signed(Y * LANE_ONES) then ALL_ONES else 0;
    GroupWords((x - (if xWrap == ALL_ONES then X * LANE_ONES else 0)) % TWO_64,
          (y1 - (if yWrap == ALL_ONES then Y * LANE_ONES else 0)) % TWO_64,
          (z + (if yWrap == ALL_ONES then LANE_ONES else 0)) % TWO_64, xWrap, yWrap)
  }

  lemma CarryVecAt(v: VecId, g: nat, X: nat, Y: nat)
    requires v.Sized(|v.x|) && g < |v.x| && X < 0x8000 && Y < 0x8000
    ensures var c, w := CarryVec(v, Broadcast(X, |v.x|), Broadcast(Y, |v.x|)), CarryWords(v.x[g], v.y[g], v.z[g], X, Y);
            c.ids.x[g] == w.x && c.ids.y[g] == w.y && c.ids.z[g] == w.z && c.xWrap[g] == w.xWrap && c.yWrap[g] == w.yWrap
  {
    hide Signed;
  }

  lemma CarryWordsAreDigits(d: Id, X: nat, Y: nat)
    requires Small(d) && 1 <= X <= 1024 && 1 <= Y <= 1024
    ensures var w, d' := CarryWords(d.x, d.y * LANE_ONES, d.z * LANE_ONES, X, Y), Carry(d, X * LANE_ONES, Y);
            && w.x == d'.x && w.y == d'.y * LANE_ONES && w.z == d'.z * LANE_ONES
            && (w.xWrap == if d.x >= X * LANE_ONES then ALL_ONES else 0)
            && (w.yWrap == if d'.z > d.z then ALL_ONES else 0)
  {
    hide Signed;
    var M, d' := X * LANE_ONES, Carry(d, X * LANE_ONES, Y);
    var digit := if d.x >= M then d.y + 1 else d.y;
    FitsSigned(d.x);
    FitsSigned(M);
    FitsSigned(digit * LANE_ONES);
    FitsSigned(Y * LANE_ONES);
    FitsSigned(d'.x);
    FitsSigned(d'.y * LANE_ONES);
    FitsSigned(d'.z * LANE_ONES);
    assert d.y * LANE_ONES + (if d.x >= M then LANE_ONES else 0) == digit * LANE_ONES;
  }

  lemma FitsSigned(n: nat)
    requires n < TWO_64 / 2
    ensures Signed(n) == n == n % TWO_64
  {
  }

  lemma AddVecIsAdd(a: VecId, b: VecId, g: nat, d: Id, e: Id)
    requires a.Sized(|a.x|) && b.Sized(|a.x|) && g < |a.x|
    requires Represents(a, g, d) && Represents(b, g, e) && Small(d) && Small(e)
    ensures Represents(AddVec(a, b), g, Add(d, e))
  {
  }

  // ---------- groups as four lanes ----------

  /** What lane k of group g holds. */
  function LaneId(v: VecId, g: nat, k: nat): Id
    requires v.Sized(|v.x|) && g < |v.x| && k < 4
  {
    Id(Lane(v.x[g], k), Lane(v.y[g], k), Lane(v.z[g], k))
  }

  /** The 64-bit number whose lanes are n, n + 1, n + 2 and n + 3. */
  function Ramp(n: nat): nat { n * LANE_ONES + LANE_RAMP }

  /** The group that stands for four lanes: all of them d, or d and the next three x. */
  function Wide(d: Id, ramp: bool): Id
  {
    Id(if ramp then Ramp(d.x) else d.x * LANE_ONES, d.y, d.z)
  }

  function LaneOfWide(d: Id, ramp: bool, k: nat): Id
  {
    Id(if ramp then d.x + k else d.x, d.y, d.z)
  }

  /** Group g holds four such lanes, with room for a carry. */
  predicate Shaped(v: VecId, g: nat, ramp: bool, d: Id)
    requires v.Sized(|v.x|) && g < |v.x|
  {
    Represents(v, g, Wide(d, ramp)) && d.x + 4 <= 0x3000 && d.y < 0x1fff && d.z < 0x1fff
  }

  /** Lanes that can only wrap together: all the same, or four from a multiple of 4 on in a row that is one. */
  predicate Together(ramp: bool, x: nat, X: nat) { ramp ==> X % 4 == 0 && x % 4 == 0 }

  lemma LanesOfShaped(v: VecId, g: nat, ramp: bool, d: Id, k: nat)
    requires v.Sized(|v.x|) && g < |v.x| && Represents(v, g, Wide(d, ramp)) && k < 4
    requires d.x + 4 <= 0x4000 && d.y < 0x4000 && d.z < 0x4000
    ensures LaneId(v, g, k) == LaneOfWide(d, ramp, k)
  {
    hide Lane;
    if ramp {
      assert Ramp(d.x) == Pack(d.x, d.x + 1, d.x + 2, d.x + 3);
      LaneOfPack(d.x, d.x + 1, d.x + 2, d.x + 3, k);
    } else {
      LaneOfBroadcast(d.x, k);
    }
    LaneOfBroadcast(d.y, k);
    LaneOfBroadcast(d.z, k);
  }

  lemma ShapedIsSmall(d: Id, ramp: bool)
    requires d.x + 4 <= 0x3000 && d.y < 0x1fff && d.z < 0x1fff
    ensures Small(Wide(d, ramp))
  {
  }

  /** A carry of such a group is the group of the carried lanes. */
  lemma WideCarry(d: Id, ramp: bool, X: nat, Y: nat)
    requires Together(ramp, d.x, X)
    ensures (Wide(d, ramp).x >= X * LANE_ONES <==> d.x >= X)
    ensures Carry(Wide(d, ramp), X * LANE_ONES, Y) == Wide(Carry(d, X, Y), ramp)
    ensures Together(ramp, Carry(d, X, Y).x, X)
    ensures forall k | 0 <= k < 4 :: (LaneOfWide(d, ramp, k).x >= X <==> d.x >= X)
    ensures forall k | 0 <= k < 4 :: LaneOfWide(Carry(d, X, Y), ramp, k) == Carry(LaneOfWide(d, ramp, k), X, Y)
  {
    if ramp {
      RampWraps(d.x, X);
    } else {
      OnesWrap(d.x, X);
    }
    hide Ramp;
  }

  /** Ramps of multiples of 4 compare and subtract like their first lanes. */
  lemma RampWraps(b: nat, X: nat)
    requires b % 4 == 0 && X % 4 == 0
    ensures Ramp(b) >= X * LANE_ONES <==> b >= X
    ensures b < X ==> b + 3 < X
    ensures b >= X ==> Ramp(b) - X * LANE_ONES == Ramp(b - X) && (b - X) % 4 == 0
  {
  }

  lemma OnesWrap(b: nat, X: nat)
    ensures b * LANE_ONES >= X * LANE_ONES <==> b >= X
    ensures b * LANE_ONES - X * LANE_ONES == (b - X) * LANE_ONES
  {
  }

  /** One packed carry is a carry in each 16-bit lane: the four lanes wrap together, in x and in y, and nothing is
      carried or borrowed between them. */
  lemma CarryIsLanewise(v: VecId, g: nat, ramp: bool, d: Id, X: nat, Y: nat, k: nat)
    requires v.Sized(|v.x|) && g < |v.x| && Shaped(v, g, ramp, d) && Together(ramp, d.x, X) && k < 4
    requires 1 <= X <= 1024 && 1 <= Y <= 1024
    ensures var c := CarryVec(v, Broadcast(X, |v.x|), Broadcast(Y, |v.x|));
            && LaneId(c.ids, g, k) == Carry(LaneId(v, g, k), X, Y)
            && c.xWrap[g] == (if LaneId(v, g, k).x >= X then ALL_ONES else 0)
            && c.yWrap[g] == (if LaneId(c.ids, g, k).z > LaneId(v, g, k).z then ALL_ONES else 0)
            && Represents(c.ids, g, Wide(Carry(d, X, Y), ramp)) && Together(ramp, Carry(d, X, Y).x, X)
  {
    hide CarryVec, Lane, Represents, LaneId, Ramp, Broadcast, Small, Wide;
    var c := CarryVec(v, Broadcast(X, |v.x|), Broadcast(Y, |v.x|));
    LanesOfShaped(v, g, ramp, d, k);
    ShapedIsSmall(d, ramp);
    CarryVecIsCarry(v, g, Wide(d, ramp), X, Y);
    WideCarry(d, ramp, X, Y);
    WideDigits(d, ramp);
    WideDigits(Carry(d, X, Y), ramp);
    LanesOfShaped(c.ids, g, ramp, Carry(d, X, Y), k);
  }

  lemma WideDigits(d: Id, ramp: bool)
    ensures Wide(d, ramp).y == d.y && Wide(d, ramp).z == d.z
  {
  }

  /** Adding a step, the same in all four lanes, adds in each lane. */
  lemma AddIsLanewise(v: VecId, step: VecId, g: nat, d: Id, e: Id, k: nat)
    requires v.Sized(|v.x|) && step.Sized(|v.x|) && g < |v.x| && k < 4
    requires Shaped(v, g, true, d) && Shaped(step, g, false, e) && d.x + e.x + 4 <= 0x3000
    requires d.y + e.y < 0x1fff && d.z + e.z < 0x1fff
    ensures Shaped(AddVec(v, step), g, true, Add(d, e))
    ensures LaneId(AddVec(v, step), g, k) == Add(LaneId(v, g, k), LaneId(step, g, k))
  {
    hide AddVec, Lane, Represents, LaneId, Ramp;
    LanesOfShaped(v, g, true, d, k);
    LanesOfShaped(step, g, false, e, k);
    ShapedIsSmall(d, true);
    ShapedIsSmall(e, false);
    RampPlus(d.x, e.x);
    AddVecIsAdd(v, step, g, Wide(d, true), Wide(e, false));
    assert Add(Wide(d, true), Wide(e, false)) == Wide(Add(d, e), true);
    LanesOfShaped(AddVec(v, step), g, true, Add(d, e), k);
  }

  lemma RampPlus(b: nat, s: nat)
    ensures Ramp(b) + s * LANE_ONES == Ramp(b + s)
  {
  }

  /** Normalising such a group normalises its lanes. */
  lemma {:induction false} WideNormalise(d: Id, ramp: bool, X: nat, Y: nat, k: nat)
    requires X >= 1 && Together(ramp, d.x, X) && k < 4
    ensures Normalise(Wide(d, ramp), X * LANE_ONES, Y) == Wide(Normalise(d, X, Y), ramp)
    ensures Normalise(LaneOfWide(d, ramp, k), X, Y) == LaneOfWide(Normalise(d, X, Y), ramp, k)
    ensures Together(ramp, Normalise(d, X, Y).x, X)
    decreases d.x
  {
    hide Wide, LaneOfWide;
    WideCarry(d, ramp, X, Y);
    if d.x >= X {
      WideNormalise(Carry(d, X, Y), ramp, X, Y, k);
    }
  }

  /** In rows that are multiples of 4, a multiple of 4 keeps one as its x digit. */
  lemma {:induction false} NormaliseMultiple(d: Id, X: nat, Y: nat)
    requires X >= 1 && X % 4 == 0 && d.x % 4 == 0
    ensures Normalise(d, X, Y).x % 4 == 0
    decreases d.x
  {
    if d.x >= X {
      NormaliseMultiple(Carry(d, X, Y), X, Y);
    }
  }

  // ---------- the generator's specification ----------

  /** What the group of lanes first .. first + 3 holds before thread t is stored. */
  function GroupAt(first: nat, simdSize: nat, t: nat, X: nat, Y: nat): Id
    requires X >= 1
  {
    LaneAt(Ramp(first), simdSize * LANE_ONES, t, X * LANE_ONES, Y)
  }

  /** What lane l of thread t finds in memory. */
  function StoredLane(t: nat, l: nat, simdSize: nat, X: nat, Y: nat): Id
    requires X >= 1
  {
    var group := GroupAt(l - l % 4, simdSize, t, X, Y);
    Id(Lane(group.x, l % 4), group.y, group.z)
  }

  /** When X is a multiple of 4, the group of a thread stands for four lanes of the one-lane algorithm, from a multiple
      of 4 on. */
  lemma {:induction false} GroupIsLanes(first: nat, simdSize: nat, t: nat, X: nat, Y: nat)
    requires X >= 1 && X % 4 == 0 && first % 4 == 0 && simdSize % 4 == 0
    ensures var d := LaneAt(first, simdSize, t, X, Y);
            && GroupAt(first, simdSize, t, X, Y) == Wide(d, true) && d.x % 4 == 0
            && forall k | 0 <= k < 4 :: LaneAt(first + k, simdSize, t, X, Y) == LaneOfWide(d, true, k)
  {
    hide Wide, LaneOfWide, Normalise, Carry, Add;
    if t == 0 {
      FirstGroupIsLanes(first, X, Y);
    } else {
      var d, e := LaneAt(first, simdSize, t - 1, X, Y), Normalise(Id(simdSize, 0, 0), X, Y);
      GroupIsLanes(first, simdSize, t - 1, X, Y);
      StepIsUniform(simdSize, X, Y);
      WideAdd(d, e);
      AddMultiples(d, e);
      WideCarry(Add(d, e), true, X, Y);
    }
  }

  lemma FirstGroupIsLanes(first: nat, X: nat, Y: nat)
    requires X >= 1 && X % 4 == 0 && first % 4 == 0
    ensures var d := Normalise(Id(first, 0, 0), X, Y);
            && Normalise(Id(Ramp(first), 0, 0), X * LANE_ONES, Y) == Wide(d, true) && d.x % 4 == 0
            && forall k | 0 <= k < 4 :: Normalise(Id(first + k, 0, 0), X, Y) == LaneOfWide(d, true, k)
  {
    hide Normalise;
    forall k: nat | k < 4
      ensures Normalise(Id(first + k, 0, 0), X, Y) == LaneOfWide(Normalise(Id(first, 0, 0), X, Y), true, k)
    {
      WideNormalise(Id(first, 0, 0), true, X, Y, k);
    }
    WideNormalise(Id(first, 0, 0), true, X, Y, 0);
  }

  /** The step is the same in all four lanes, for every X; in rows that are multiples of 4 its x digit is one too. */
  lemma StepIsUniform(simdSize: nat, X: nat, Y: nat)
    requires X >= 1
    ensures var e := Normalise(Id(simdSize, 0, 0), X, Y);
            && Normalise(Id(simdSize * LANE_ONES, 0, 0), X * LANE_ONES, Y) == Wide(e, false)
            && (X % 4 == 0 && simdSize % 4 == 0 ==> e.x % 4 == 0)
  {
    hide Normalise;
    WideNormalise(Id(simdSize, 0, 0), false, X, Y, 0);
    if X % 4 == 0 && simdSize % 4 == 0 { NormaliseMultiple(Id(simdSize, 0, 0), X, Y); }
  }

  lemma WideAdd(d: Id, e: Id)
    ensures Add(Wide(d, true), Wide(e, false)) == Wide(Add(d, e), true)
    ensures forall k | 0 <= k < 4 :: Add(LaneOfWide(d, true, k), e) == LaneOfWide(Add(d, e), true, k)
  {
    RampPlus(d.x, e.x);
  }

  lemma AddMultiples(d: Id, e: Id)
    requires d.x % 4 == 0 && e.x % 4 == 0
    ensures Add(d, e).x % 4 == 0
  {
    var p, q := d.x / 4, e.x / 4;
    assert d.x == 4 * p && e.x == 4 * q;
    DivModUnique(4 * (p + q), 4, p + q, 0);
  }

  /** So the packed generator refines the one-lane algorithm: every lane finds in memory what that algorithm holds. */
  lemma StoredIsPerLane(t: nat, l: nat, simdSize: nat, X: nat, Y: nat)
    requires 1 <= X <= 1024 && 1 <= Y <= 1024 && X % 4 == 0 && simdSize % 4 == 0
    ensures StoredLane(t, l, simdSize, X, Y) == LaneAt(l, simdSize, t, X, Y)
  {
    hide LaneAt, GroupAt, Lane;
    var first, k := l - l % 4, l % 4;
    var d := LaneAt(first, simdSize, t, X, Y);
    GroupIsLanes(first, simdSize, t, X, Y);
    LaneHoldsItsWorkItem(first, simdSize, t, X, Y);
    DigitsBelow(first + t * simdSize, X, Y);
    assert Ramp(d.x) == Pack(d.x, d.x + 1, d.x + 2, d.x + 3);
    LaneOfPack(d.x, d.x + 1, d.x + 2, d.x + 3, k);
    assert LaneAt(first + k, simdSize, t, X, Y) == LaneOfWide(d, true, k);
  }

  /** The packed generator divides whole 64-bit groups: with n the group's first work-item it yields
      the digits of Ramp(n) in the radix X * LANE_ONES, whatever X is. */
  lemma GroupDividesRamp(first: nat, simdSize: nat, t: nat, X: nat, Y: nat)
    requires X >= 1 && Y >= 1
    ensures GroupAt(first, simdSize, t, X, Y) == IdOf(Ramp(first + t * simdSize), X * LANE_ONES, Y)
  {
    hide LaneAt, IdOf;
    LaneHoldsItsWorkItem(Ramp(first), simdSize * LANE_ONES, t, X * LANE_ONES, Y);
    RampAfter(first, t, simdSize);
  }

  lemma RampAfter(first: nat, t: nat, simdSize: nat)
    ensures Ramp(first) + t * (simdSize * LANE_ONES) == Ramp(first + t * simdSize)
  {
    var n := t * simdSize;
    assert t * (simdSize * LANE_ONES) == n * LANE_ONES;
  }

  lemma ZIsSmall(d: Id, M: nat, Y: nat)
    requires M >= LANE_ONES && Y >= 1
    ensures d.x <= Value(d, M, Y) && d.z * LANE_ONES <= Value(d, M, Y)
  {
    MulMonotone(d.z, 1, Y);
    MulMonotone(M, d.z, d.y + Y * d.z);
    MulMonotone(d.z, LANE_ONES, M);
  }

  lemma DigitsAreSmall(n: nat, d: Id, X: nat, Y: nat)
    requires 1 <= X <= 1024 && 1 <= Y <= 1024 && n <= 4096 * LANE_ONES + LANE_RAMP
    requires d.y < Y && Value(d, X * LANE_ONES, Y) == n
    ensures Small(d)
  {
    ZIsSmall(d, X * LANE_ONES, Y);
  }

  lemma GroupIsSmall(first: nat, simdSize: nat, t: nat, X: nat, Y: nat)
    requires 1 <= X <= 1024 && 1 <= Y <= 1024 && first + t * simdSize <= 4096
    ensures var d := GroupAt(first, simdSize, t, X, Y);
            Small(d) && d.x < X * LANE_ONES && d.y < Y && d.z <= 4100
  {
    GroupDividesRamp(first, simdSize, t, X, Y);
    var n := Ramp(first + t * simdSize);
    IdOfInRange(n, X * LANE_ONES, Y);
    ZIsSmall(IdOf(n, X * LANE_ONES, Y), X * LANE_ONES, Y);
  }

  // ---------- the loops ----------

  ghost function SumX(ds: seq<Id>): nat
  {
    if ds == [] then 0 else ds[0].x + SumX(ds[1..])
  }

  lemma {:induction false} SumXDecreases(a: seq<Id>, b: seq<Id>)
    requires |a| == |b| && forall g | 0 <= g < |a| :: b[g].x <= a[g].x
    ensures SumX(b) <= SumX(a)
    ensures (exists g | 0 <= g < |a| :: b[g].x < a[g].x) ==> SumX(b) < SumX(a)
  {
    if a != [] { SumXDecreases(a[1..], b[1..]); }
  }

  /** The starting numbers keep every lane's wrap in step with its group's. */
  ghost predicate InStep(ramp: bool, ns: seq<nat>, X: nat) { forall g | 0 <= g < |ns| :: Together(ramp, ns[g], X) }

  /** Group g holds four lanes on their way to the digits of n (and of the next three, for a ramp). */
  predicate LaneState(v: VecId, g: nat, ramp: bool, e: Id, n: nat, X: nat, Y: nat)
    requires v.Sized(|v.x|) && g < |v.x| && X >= 1
  {
    && Represents(v, g, Wide(e, ramp)) && Together(ramp, e.x, X) && e.y < Y && Value(e, X, Y) == n <= 4096
    && Normalise(e, X, Y) == Normalise(Id(n, 0, 0), X, Y)
  }

  lemma LaneStateIsShaped(v: VecId, g: nat, ramp: bool, e: Id, n: nat, X: nat, Y: nat)
    requires v.Sized(|v.x|) && g < |v.x| && 1 <= X <= 1024 && 1 <= Y <= 1024 && LaneState(v, g, ramp, e, n, X, Y)
    ensures Shaped(v, g, ramp, e)
  {
    hide Represents, Wide, Normalise, Value;
    DigitsAtMostValue(e, X, Y);
  }

  /** A loop iteration carries in every 16-bit lane, and finds a lane's x and y wrapping exactly when it does. */
  ghost predicate CarriesLanes(v: VecId, c: Carried, X: nat, Y: nat)
    requires v.Sized(|v.x|) && c.ids.Sized(|v.x|) && |c.xWrap| == |c.yWrap| == |v.x|
  {
    forall g: nat, k: nat | g < |v.x| && k < 4 ::
      && LaneId(c.ids, g, k) == Carry(LaneId(v, g, k), X, Y)
      && c.xWrap[g] == (if LaneId(v, g, k).x >= X then ALL_ONES else 0)
      && c.yWrap[g] == (if LaneId(c.ids, g, k).z > LaneId(v, g, k).z then ALL_ONES else 0)
  }

  lemma IterationIsLanewise(v: VecId, ramp: bool, es: seq<Id>, ns: seq<nat>, X: nat, Y: nat)
    requires v.Sized(|v.x|) && |es| == |ns| == |v.x| && 1 <= X <= 1024 && 1 <= Y <= 1024
    requires LaneStates(v, ramp, es, ns, X, Y)
    ensures var c := CarryVec(v, Broadcast(X, |v.x|), Broadcast(Y, |v.x|));
            CarriesLanes(v, c, X, Y) && LaneStates(c.ids, ramp, CarryAll(es, X, Y), ns, X, Y)
  {
    hide LaneState, CarryVec, LaneId, Broadcast, Carry, Represents, Shaped;
    var c := CarryVec(v, Broadcast(X, |v.x|), Broadcast(Y, |v.x|));
    forall g: nat, k: nat | g < |v.x| && k < 4
      ensures LaneId(c.ids, g, k) == Carry(LaneId(v, g, k), X, Y)
      ensures c.xWrap[g] == (if LaneId(v, g, k).x >= X then ALL_ONES else 0)
      ensures c.yWrap[g] == (if LaneId(c.ids, g, k).z > LaneId(v, g, k).z then ALL_ONES else 0)
      ensures LaneState(c.ids, g, ramp, Carry(es[g], X, Y), ns[g], X, Y)
    {
      LaneStateIsShaped(v, g, ramp, es[g], ns[g], X, Y);
      LaneStateCarries(v, g, ramp, es[g], ns[g], X, Y, k);
    }
    forall g | 0 <= g < |es|
      ensures LaneState(c.ids, g, ramp, Carry(es[g], X, Y), ns[g], X, Y)
    {
      LaneStateCarries(v, g, ramp, es[g], ns[g], X, Y, 0);
    }
  }

  lemma LaneStateCarries(v: VecId, g: nat, ramp: bool, e: Id, n: nat, X: nat, Y: nat, k: nat)
    requires v.Sized(|v.x|) && g < |v.x| && k < 4 && 1 <= X <= 1024 && 1 <= Y <= 1024
    requires LaneState(v, g, ramp, e, n, X, Y)
    ensures var c := CarryVec(v, Broadcast(X, |v.x|), Broadcast(Y, |v.x|));
            && LaneId(c.ids, g, k) == Carry(LaneId(v, g, k), X, Y)
            && c.xWrap[g] == (if LaneId(v, g, k).x >= X then ALL_ONES else 0)
            && c.yWrap[g] == (if LaneId(c.ids, g, k).z > LaneId(v, g, k).z then ALL_ONES else 0)
            && LaneState(c.ids, g, ramp, Carry(e, X, Y), n, X, Y)
  {
    hide CarryVec, LaneId, Broadcast, Represents, Shaped, Wide, Together, Value;
    LaneStateIsShaped(v, g, ramp, e, n, X, Y);
    CarryIsLanewise(v, g, ramp, e, X, Y, k);
    CarryKeepsValue(e, X, Y);
    NormaliseDivides(e, X, Y);
  }

  /** Group g holds digits of the 64-bit number it started from. */
  predicate GroupState(v: VecId, g: nat, d: Id, start: Id, X: nat, Y: nat)
    requires v.Sized(|v.x|) && g < |v.x| && X >= 1
  {
    && Represents(v, g, d) && d.y < Y && Value(d, X * LANE_ONES, Y) == start.x <= 4096 * LANE_ONES + LANE_RAMP
    && Normalise(d, X * LANE_ONES, Y) == Normalise(start, X * LANE_ONES, Y)
  }

  lemma GroupStateCarries(v: VecId, g: nat, d: Id, start: Id, X: nat, Y: nat)
    requires v.Sized(|v.x|) && g < |v.x| && 1 <= X <= 1024 && 1 <= Y <= 1024 && GroupState(v, g, d, start, X, Y)
    ensures var M := X * LANE_ONES;
            var c, next := CarryVec(v, Broadcast(X, |v.x|), Broadcast(Y, |v.x|)), Carry(d, M, Y);
            && GroupState(c.ids, g, next, start, X, Y)
            && (c.xWrap[g] == if d.x >= M then ALL_ONES else 0)
            && (c.yWrap[g] != 0 ==> c.xWrap[g] != 0)
            && next.x <= d.x && (d.x >= M ==> next.x < d.x) && (d.x < M ==> next == d)
  {
    hide CarryVec, Broadcast, Represents, Value;
    DigitsAreSmall(start.x, d, X, Y);
    CarryVecIsCarry(v, g, d, X, Y);
    CarryKeepsValue(d, X * LANE_ONES, Y);
    NormaliseDivides(d, X * LANE_ONES, Y);
  }

  lemma GroupStateEnds(v: VecId, g: nat, d: Id, start: Id, X: nat, Y: nat)
    requires v.Sized(|v.x|) && g < |v.x| && X >= 1 && GroupState(v, g, d, start, X, Y) && d.x < X * LANE_ONES
    ensures Represents(v, g, Normalise(start, X * LANE_ONES, Y))
  {
    hide Represents, Value;
  }

  lemma GroupStarts(v: VecId, g: nat, ramp: bool, n: nat, X: nat, Y: nat)
    requires v.Sized(|v.x|) && g < |v.x| && X >= 1 && Y >= 1 && n <= 4096 && Represents(v, g, Wide(Id(n, 0, 0), ramp))
    ensures GroupState(v, g, Wide(Id(n, 0, 0), ramp), Wide(Id(n, 0, 0), ramp), X, Y)
    ensures Together(ramp, n, X) ==> LaneState(v, g, ramp, Id(n, 0, 0), n, X, Y)
  {
    hide Represents, Normalise, Together;
    assert X * LANE_ONES * (0 + Y * 0) == 0 && X * (0 + Y * 0) == 0;
  }

  lemma LanesAreNormal(v: VecId, r: VecId, g: nat, ramp: bool, n: nat, X: nat, Y: nat, k: nat)
    requires v.Sized(|v.x|) && r.Sized(|v.x|) && g < |v.x| && k < 4 && 1 <= X <= 1024 && 1 <= Y <= 1024 && n <= 4096
    requires Together(ramp, n, X) && Represents(v, g, Wide(Id(n, 0, 0), ramp))
    requires Represents(r, g, Normalise(Wide(Id(n, 0, 0), ramp), X * LANE_ONES, Y))
    ensures LaneId(r, g, k) == Normalise(LaneId(v, g, k), X, Y)
  {
    hide Represents, LaneId, Wide, Normalise, Together;
    var d := Normalise(Id(n, 0, 0), X, Y);
    WideNormalise(Id(n, 0, 0), ramp, X, Y, k);
    NormaliseOfNumber(n, X, Y);
    DigitsBelow(n, X, Y);
    LanesOfShaped(v, g, ramp, Id(n, 0, 0), k);
    LanesOfShaped(r, g, ramp, d, k);
  }

  lemma DigitsBelow(n: nat, X: nat, Y: nat)
    requires X >= 1 && Y >= 1
    ensures var d := IdOf(n, X, Y); d.x < X && d.y < Y && d.x <= n && d.y <= n && d.z <= n
  {
    hide IdOf;
    var d := IdOf(n, X, Y);
    IdOfInRange(n, X, Y);
    DigitsAtMostValue(d, X, Y);
  }

  lemma DigitsAtMostValue(d: Id, X: nat, Y: nat)
    requires X >= 1 && Y >= 1
    ensures d.x <= Value(d, X, Y) && d.y <= Value(d, X, Y) && d.z <= Value(d, X, Y)
  {
    var planes := Y * d.z;
    AtMostProduct(d.z, Y);
    AtMostProduct(d.y + planes, X);
  }

  lemma AtMostProduct(a: nat, b: nat)
    requires b >= 1
    ensures a <= b * a
  {
    MulMonotone(a, 1, b);
  }

  function CarryAll(ds: seq<Id>, X: nat, Y: nat): (r: seq<Id>)
    ensures |r| == |ds|
  {
    seq(|ds|, g requires 0 <= g < |ds| => Carry(ds[g], X, Y))
  }

  ghost predicate GroupStates(v: VecId, ds: seq<Id>, starts: seq<Id>, X: nat, Y: nat)
    requires v.Sized(|ds|) && |starts| == |ds| && X >= 1
  {
    forall g | 0 <= g < |ds| :: GroupState(v, g, ds[g], starts[g], X, Y)
  }

  ghost predicate LaneStates(v: VecId, ramp: bool, es: seq<Id>, ns: seq<nat>, X: nat, Y: nat)
    requires v.Sized(|es|) && |ns| == |es| && X >= 1
  {
    forall g | 0 <= g < |es| :: LaneState(v, g, ramp, es[g], ns[g], X, Y)
  }

  /** An iteration on all groups: it either ends the loop with every group in range, or some x has decreased. */
  lemma IterationCarries(v: VecId, ds: seq<Id>, starts: seq<Id>, X: nat, Y: nat, testY: bool)
    requires v.Sized(|ds|) && |starts| == |ds| && 1 <= X <= 1024 && 1 <= Y <= 1024 && GroupStates(v, ds, starts, X, Y)
    ensures var c := CarryVec(v, Broadcast(X, |ds|), Broadcast(Y, |ds|));
            var next := CarryAll(ds, X * LANE_ONES, Y);
            && GroupStates(c.ids, next, starts, X, Y)
            && if TestZero(c.xWrap) && (!testY || TestZero(c.yWrap))
               then forall g | 0 <= g < |ds| :: next[g].x < X * LANE_ONES
               else SumX(next) < SumX(ds)
  {
    hide CarryVec, Broadcast, GroupState, Carry, SumX;
    var M, c, next := X * LANE_ONES, CarryVec(v, Broadcast(X, |ds|), Broadcast(Y, |ds|)), CarryAll(ds, X * LANE_ONES, Y);
    forall g | 0 <= g < |ds|
      ensures GroupState(c.ids, g, next[g], starts[g], X, Y)
      ensures c.xWrap[g] == if ds[g].x >= M then ALL_ONES else 0
      ensures c.yWrap[g] != 0 ==> c.xWrap[g] != 0
      ensures next[g].x <= ds[g].x && (ds[g].x >= M ==> next[g].x < ds[g].x) && (ds[g].x < M ==> next[g] == ds[g])
    {
      GroupStateCarries(v, g, ds[g], starts[g], X, Y);
    }
    SumXDecreases(ds, next);
  }

  lemma StatesStart(v: VecId, ramp: bool, ns: seq<nat>, X: nat, Y: nat)
    requires v.Sized(|ns|) && X >= 1 && Y >= 1
    requires forall g | 0 <= g < |ns| :: Represents(v, g, Wide(Id(ns[g], 0, 0), ramp)) && ns[g] <= 4096
    ensures GroupStates(v, WideStarts(ns, ramp), WideStarts(ns, ramp), X, Y)
    ensures InStep(ramp, ns, X) ==> LaneStates(v, ramp, Starts(ns), ns, X, Y)
  {
    hide Represents, Wide, GroupState, LaneState, Together;
    forall g | 0 <= g < |ns| {
      GroupStarts(v, g, ramp, ns[g], X, Y);
    }
  }

  function Starts(ns: seq<nat>): (r: seq<Id>)
    ensures |r| == |ns|
  {
    seq(|ns|, g requires 0 <= g < |ns| => Id(ns[g], 0, 0))
  }

  function WideStarts(ns: seq<nat>, ramp: bool): (r: seq<Id>)
    ensures |r| == |ns|
  {
    seq(|ns|, g requires 0 <= g < |ns| => Wide(Id(ns[g], 0, 0), ramp))
  }

  lemma StatesEnd(v: VecId, r: VecId, ds: seq<Id>, ramp: bool, ns: seq<nat>, X: nat, Y: nat)
    requires v.Sized(|ns|) && r.Sized(|ns|) && |ds| == |ns| && 1 <= X <= 1024 && 1 <= Y <= 1024
    requires forall g | 0 <= g < |ns| :: Represents(v, g, Wide(Id(ns[g], 0, 0), ramp)) && ns[g] <= 4096
    requires GroupStates(r, ds, WideStarts(ns, ramp), X, Y) && forall g | 0 <= g < |ds| :: ds[g].x < X * LANE_ONES
    ensures forall g | 0 <= g < |ns| :: Represents(r, g, Normalise(Wide(Id(ns[g], 0, 0), ramp), X * LANE_ONES, Y))
    ensures InStep(ramp, ns, X) ==>
              forall g: nat, k: nat | g < |ns| && k < 4 :: LaneId(r, g, k) == Normalise(LaneId(v, g, k), X, Y)
  {
    hide Represents, Wide, GroupState, LaneId, Normalise, Together;
    forall g | 0 <= g < |ns| ensures Represents(r, g, Normalise(Wide(Id(ns[g], 0, 0), ramp), X * LANE_ONES, Y)) {
      GroupStateEnds(r, g, ds[g], WideStarts(ns, ramp)[g], X, Y);
    }
    if InStep(ramp, ns, X) {
      forall g: nat, k: nat | g < |ns| && k < 4 ensures LaneId(r, g, k) == Normalise(LaneId(v, g, k), X, Y) {
        LanesAreNormal(v, r, g, ramp, ns[g], X, Y, k);
      }
    }
  }

  /** The two normalisation loops: repeat the carry until x (and, for the step, also y) stops wrapping.  Group g starts
      from the number ns[g] in all lanes, or from it and the next three.  Whatever X is, every group ends with the digits
      of its 64-bit number; and when the lanes stay in step, every iteration is a carry in each 16-bit lane. */
  method NormaliseVec(v: VecId, lwsX: Vec, lwsY: Vec, testY: bool, ghost ramp: bool, ghost ns: seq<nat>,
                      ghost X: nat, ghost Y: nat)
    returns (r: VecId)
    requires v.Sized(|lwsX|) && 1 <= X <= 1024 && 1 <= Y <= 1024 && |ns| == |lwsX|
    requires lwsX == Broadcast(X, |lwsX|) && lwsY == Broadcast(Y, |lwsX|)
    requires forall g | 0 <= g < |lwsX| :: Represents(v, g, Wide(Id(ns[g], 0, 0), ramp)) && ns[g] <= 4096
    ensures r.Sized(|lwsX|)
    ensures forall g | 0 <= g < |lwsX| :: Represents(r, g, Normalise(Wide(Id(ns[g], 0, 0), ramp), X * LANE_ONES, Y))
    ensures InStep(ramp, ns, X) ==>
              forall g: nat, k: nat | g < |lwsX| && k < 4 :: LaneId(r, g, k) == Normalise(LaneId(v, g, k), X, Y)
  {
    hide CarryVec, LaneId, LaneStates, GroupStates, InStep, Broadcast, Represents, Wide, SumX, CarryAll, WideStarts, Starts,
         TestZero, CarriesLanes;
    r := v;
    ghost var starts, es := WideStarts(ns, ramp), Starts(ns);
    ghost var ds := starts;
    StatesStart(v, ramp, ns, X, Y);
    while true
      invariant r.Sized(|lwsX|) && |ds| == |es| == |lwsX|
      invariant GroupStates(r, ds, starts, X, Y)
      invariant InStep(ramp, ns, X) ==> LaneStates(r, ramp, es, ns, X, Y)
      decreases SumX(ds)
    {
      var c := CarryVec(r, lwsX, lwsY);
      IterationCarries(r, ds, starts, X, Y, testY);
      if InStep(ramp, ns, X) {
        IterationIsLanewise(r, ramp, es, ns, X, Y);
        assert CarriesLanes(r, c, X, Y);
      }
      ds, es := CarryAll(ds, X * LANE_ONES, Y), CarryAll(es, X, Y);
      r := c.ids;
      if TestZero(c.xWrap) && (!testY || TestZero(c.yWrap)) {
        break;
      }
    }
    StatesEnd(v, r, ds, ramp, ns, X, Y);
  }

  // ---------- memory layout ----------

  /** Row 3 * t + d of the per-thread data holds dimension d of thread t; `skip` is its length in lanes. */
  function Slot(ioh: nat, skip: nat, t: nat, d: nat, l: nat): nat
  {
    ioh + 2 * (skip * (3 * t + d) + l)
  }

  /** The distance between two rows, in lanes (`threadSkipSize` is twice that, in bytes). */
  function Skip(simdSize: nat): (skip: nat)
    ensures skip == 16 || skip == 32
  {
    if simdSize == 32 then 32 else 16
  }

  /** The bytes from the first ID of thread 0 to the last ID of the last thread. */
  function Footprint(threads: nat, simdSize: nat): nat
  {
    if threads == 0 then 0 else 2 * (Skip(simdSize) * (3 * (threads - 1) + 2) + simdSize)
  }

  /** Slots of different rows, or of different lanes of one row, do not overlap. */
  lemma SlotsApart(ioh: nat, skip: nat, t: nat, d: nat, l: nat, t': nat, d': nat, l': nat)
    requires skip == 16 || skip == 32
    requires d < 3 && d' < 3 && l < skip && l' < skip
    requires t != t' || d != d' || l != l'
    ensures Slot(ioh, skip, t, d, l) + 2 <= Slot(ioh, skip, t', d', l') ||
            Slot(ioh, skip, t', d', l') + 2 <= Slot(ioh, skip, t, d, l)
  {
    SlotOutside(ioh, skip, t, d, l, t', d', l', 1);
  }

  /** A slot that is not among n lanes of a row lies outside their bytes. */
  lemma SlotOutside(ioh: nat, skip: nat, k: nat, e: nat, l: nat, t: nat, d: nat, first: nat, n: nat)
    requires (skip == 16 || skip == 32) && d < 3 && e < 3 && l < skip && first + n <= skip && n >= 1
    requires k != t || e != d || !(first <= l < first + n)
    ensures Slot(ioh, skip, k, e, l) + 2 <= Slot(ioh, skip, t, d, first) ||
            Slot(ioh, skip, t, d, first) + 2 * n <= Slot(ioh, skip, k, e, l)
  {
    if skip == 16 {
    }
  }

  lemma SlotStep(ioh: nat, skip: nat, t: nat, d: nat, first: nat, l: nat)
    requires first <= l
    ensures Slot(ioh, skip, t, d, l) == Slot(ioh, skip, t, d, first) + 2 * (l - first)
  {
  }

  lemma SlotInside(ioh: nat, simdSize: nat, t: nat, d: nat, l: nat, threads: nat)
    requires d < 3 && l < simdSize <= Skip(simdSize) && t < threads
    ensures ioh <= Slot(ioh, Skip(simdSize), t, d, l)
    ensures Slot(ioh, Skip(simdSize), t, d, l) + 2 <= ioh + Footprint(threads, simdSize)
  {
    if simdSize == 32 {
    }
  }

  /** The 16-bit number in a slot (zero for a slot outside the buffer). */
  ghost function SlotWord(buf: array<byte>, ioh: nat, skip: nat, t: nat, d: nat, l: nat): nat
    reads buf
  {
    if Slot(ioh, skip, t, d, l) + 2 <= buf.Length then Word16(buf, Slot(ioh, skip, t, d, l)) else 0
  }

  /** The ID that lane l of thread t reads back from memory. */
  ghost function ReadId(buf: array<byte>, ioh: nat, skip: nat, t: nat, l: nat): Id
    reads buf
  {
    Id(SlotWord(buf, ioh, skip, t, 0, l), SlotWord(buf, ioh, skip, t, 1, l), SlotWord(buf, ioh, skip, t, 2, l))
  }

  /** Byte i of a vector in memory: every lane is stored low byte first. */
  function VecByte(v: Vec, i: nat): byte
    requires i < 8 * |v|
  {
    var lane := Lane(v[i / 8], i / 2 % 4);
    if i % 2 == 0 then lane % 0x100 else lane / 0x100
  }

  lemma LaneBytes(v: Vec, k: nat)
    requires k < 4 * |v|
    ensures var low: int, high: int := VecByte(v, 2 * k), VecByte(v, 2 * k + 1);
            low + 0x100 * high == Lane(v[k / 4], k % 4)
  {
    assert (2 * k) / 8 == k / 4 && (2 * k + 1) / 8 == k / 4;
    assert (2 * k) / 2 == k && (2 * k + 1) / 2 == k;
  }

  /** `_mm_store`: the lanes of v, four to a group, from byte `at` on. */
  method StoreVec(buf: array<byte>, at: nat, v: Vec)
    requires at + 8 * |v| <= buf.Length
    modifies buf
    ensures forall k | 0 <= k < 4 * |v| :: Word16(buf, at + 2 * k) == Lane(v[k / 4], k % 4)
    ensures forall i | 0 <= i < buf.Length && (i < at || at + 8 * |v| <= i) :: buf[i] == old(buf[i])
  {
    forall i | 0 <= i < 8 * |v| {
      buf[at + i] := VecByte(v, i);
    }
    forall k | 0 <= k < 4 * |v|
      ensures Word16(buf, at + 2 * k) == Lane(v[k / 4], k % 4)
    {
      LaneBytes(v, k);
      assert buf[at + 2 * k] == VecByte(v, 2 * k) && buf[at + 2 * k + 1] == VecByte(v, 2 * k + 1);
    }
  }

  /** One store: it fills lanes first .. of row d of thread t, and no other slot changes. */
  method StoreRow(buf: array<byte>, ioh: nat, simdSize: nat, threads: nat, t: nat, d: nat, first: nat, v: Vec)
    requires simdSize <= Skip(simdSize) && t < threads && d < 3
    requires 1 <= |v| && first + 4 * |v| <= simdSize
    requires ioh + Footprint(threads, simdSize) <= buf.Length
    modifies buf
    ensures forall k, e, l | 0 <= k < threads && 0 <= e < 3 && 0 <= l < simdSize ::
              SlotWord(buf, ioh, Skip(simdSize), k, e, l) ==
              if k == t && e == d && first <= l < first + 4 * |v| then Lane(v[(l - first) / 4], (l - first) % 4)
              else old(SlotWord(buf, ioh, Skip(simdSize), k, e, l))
    ensures forall i | 0 <= i < buf.Length && (i < ioh || ioh + Footprint(threads, simdSize) <= i) ::
              buf[i] == old(buf[i])
  {
    hide Lane, Footprint, Skip, Slot;
    var skip := Skip(simdSize);
    var at := Slot(ioh, skip, t, d, first);
    SlotInside(ioh, simdSize, t, d, first, threads);
    SlotInside(ioh, simdSize, t, d, first + 4 * |v| - 1, threads);
    SlotStep(ioh, skip, t, d, first, first + 4 * |v| - 1);
    StoreVec(buf, at, v);
    forall k, e, l | 0 <= k < threads && 0 <= e < 3 && 0 <= l < simdSize
      ensures SlotWord(buf, ioh, skip, k, e, l) ==
              if k == t && e == d && first <= l < first + 4 * |v| then Lane(v[(l - first) / 4], (l - first) % 4)
              else old(SlotWord(buf, ioh, skip, k, e, l))
    {
      SlotInside(ioh, simdSize, k, e, l, threads);
      if k == t && e == d && first <= l < first + 4 * |v| {
        SlotStep(ioh, skip, t, d, first, l);
      } else {
        SlotOutside(ioh, skip, k, e, l, t, d, first, 4 * |v|);
      }
    }
  }

  /** Lane k of a whole vector of IDs. */
  function LaneOf(v: VecId, k: nat): Id
    requires v.Sized(|v.x|) && k < 4 * |v.x|
  {
    LaneId(v, k / 4, k % 4)
  }

  /** The three stores of one thread in one pass: they fill the lanes of this pass and nothing else. */
  method StoreIds(buf: array<byte>, ioh: nat, simdSize: nat, threads: nat, t: nat, first: nat, v: VecId)
    requires simdSize <= Skip(simdSize) && t < threads
    requires v.Sized(|v.x|) && 1 <= |v.x| && first + 4 * |v.x| <= simdSize
    requires ioh + Footprint(threads, simdSize) <= buf.Length
    modifies buf
    ensures forall k, l | 0 <= k < threads && 0 <= l < simdSize ::
              ReadId(buf, ioh, Skip(simdSize), k, l) ==
              if k == t && first <= l < first + 4 * |v.x| then LaneOf(v, l - first)
              else old(ReadId(buf, ioh, Skip(simdSize), k, l))
    ensures forall i | 0 <= i < buf.Length && (i < ioh || ioh + Footprint(threads, simdSize) <= i) ::
              buf[i] == old(buf[i])
  {
    StoreRow(buf, ioh, simdSize, threads, t, 0, first, v.x);
    StoreRow(buf, ioh, simdSize, threads, t, 1, first, v.y);
    StoreRow(buf, ioh, simdSize, threads, t, 2, first, v.z);
  }

  lemma StoredLaneIsGroupLane(ids: VecId, first: nat, l: nat, t: nat, simdSize: nat, X: nat, Y: nat)
    requires ids.Sized(|ids.x|) && first % 4 == 0 && first <= l < first + 4 * |ids.x|
    requires 1 <= X <= 1024 && 1 <= Y <= 1024 && l + t * simdSize <= 4096
    requires Represents(ids, (l - first) / 4, GroupAt(l - l % 4, simdSize, t, X, Y))
    ensures LaneOf(ids, l - first) == StoredLane(t, l, simdSize, X, Y)
  {
    hide GroupAt, Lane;
    assert (l - first) % 4 == l % 4;
    var d := GroupAt(l - l % 4, simdSize, t, X, Y);
    GroupIsSmall(l - l % 4, simdSize, t, X, Y);
    LaneOfBroadcast(d.y, l % 4);
    LaneOfBroadcast(d.z, l % 4);
  }

  lemma LaneOfBroadcast(v: nat, k: nat)
    requires v < 0x1_0000 && k < 4
    ensures Lane(v * LANE_ONES, k) == v
  {
    var w := v * LANE_ONES;
    assert w == Pack(v, v, v, v);
    LaneOfPack(v, v, v, v, k);
  }

  lemma LaneOfPack(a: nat, b: nat, c: nat, d: nat, k: nat)
    requires a < 0x1_0000 && b < 0x1_0000 && c < 0x1_0000 && d < 0x1_0000 && k < 4
    ensures Lane(Pack(a, b, c, d), k) == [a, b, c, d][k]
  {
    var w := Pack(a, b, c, d);
    DivModUnique(w, 0x1_0000, Pack(b, c, d, 0), a);
    DivModUnique(w / 0x1_0000, 0x1_0000, Pack(c, d, 0, 0), b);
    DivModUnique(w, 0x1_0000_0000, Pack(c, d, 0, 0), Pack(a, b, 0, 0));
    DivModUnique(w / 0x1_0000_0000, 0x1_0000, d, c);
    DivModUnique(w, 0x1_0000_0000_0000, d, Pack(a, b, c, 0));
    DivModUnique(d, 0x1_0000, 0, d);
  }

  /** Adding the step and carrying once moves every group on to the next thread. */
  lemma NextThread(ids: VecId, step: VecId, g: nat, first: nat, t: nat, simdSize: nat, X: nat, Y: nat)
    requires ids.Sized(|ids.x|) && step.Sized(|ids.x|) && g < |ids.x| && simdSize <= 32
    requires 1 <= X <= 1024 && 1 <= Y <= 1024 && first + (t + 1) * simdSize <= 2080
    requires Represents(ids, g, GroupAt(first, simdSize, t, X, Y))
    requires Represents(step, g, Normalise(Id(simdSize * LANE_ONES, 0, 0), X * LANE_ONES, Y))
    ensures Represents(CarryVec(AddVec(ids, step), Broadcast(X, |ids.x|), Broadcast(Y, |ids.x|)).ids, g,
                       GroupAt(first, simdSize, t + 1, X, Y))
  {
    var d, e := GroupAt(first, simdSize, t, X, Y), Normalise(Id(simdSize * LANE_ONES, 0, 0), X * LANE_ONES, Y);
    GroupIsSmall(first, simdSize, t, X, Y);
    StepIsSmall(simdSize, X, Y);
    assert Small(Add(d, e));
    AddVecIsAdd(ids, step, g, d, e);
    CarryVecIsCarry(AddVec(ids, step), g, Add(d, e), X, Y);
  }

  lemma StepIsSmall(simdSize: nat, X: nat, Y: nat)
    requires 1 <= X <= 1024 && 1 <= Y <= 1024 && simdSize <= 32
    ensures var e := Normalise(Id(simdSize * LANE_ONES, 0, 0), X * LANE_ONES, Y);
            e.x < X * LANE_ONES && e.y < Y && e.z <= 32
  {
    var n := simdSize * LANE_ONES;
    NormaliseOfNumber(n, X * LANE_ONES, Y);
    IdOfInRange(n, X * LANE_ONES, Y);
    ZIsSmall(IdOf(n, X * LANE_ONES, Y), X * LANE_ONES, Y);
  }

  // ---------- the generator ----------

  /** All groups of a pass hold what their first lanes say they hold before thread t is stored. */
  ghost predicate HoldsThread(ids: VecId, first: nat, t: nat, simdSize: nat, X: nat, Y: nat)
    requires ids.Sized(|ids.x|) && X >= 1
  {
    forall g | 0 <= g < |ids.x| :: Represents(ids, g, GroupAt(first + 4 * g, simdSize, t, X, Y))
  }

  /** All groups hold the digits of the SIMD size. */
  ghost predicate HoldsStep(step: VecId, simdSize: nat, X: nat, Y: nat)
    requires step.Sized(|step.x|) && X >= 1
  {
    forall g | 0 <= g < |step.x| ::
      Represents(step, g, Normalise(Id(simdSize * LANE_ONES, 0, 0), X * LANE_ONES, Y))
  }

  /** The first loop: the SIMD size as digits. */
  method StepDigits(simdSize: nat, groups: nat, X: nat, Y: nat) returns (step: VecId)
    requires 1 <= X <= 1024 && 1 <= Y <= 1024 && simdSize <= 32
    ensures step.Sized(groups) && HoldsStep(step, simdSize, X, Y)
  {
    ghost var ns := seq(groups, _ => simdSize);
    step := NormaliseVec(VecId(Broadcast(simdSize, groups), Broadcast(0, groups), Broadcast(0, groups)),
                         Broadcast(X, groups), Broadcast(Y, groups), true, false, ns, X, Y);
    forall g | 0 <= g < groups
      ensures Represents(step, g, Normalise(Id(simdSize * LANE_ONES, 0, 0), X * LANE_ONES, Y))
    {
      assert ns[g] == simdSize;
    }
  }

  /** The second loop: the lanes of one pass for thread 0. */
  method StartDigits(first: nat, groups: nat, ghost simdSize: nat, X: nat, Y: nat) returns (ids: VecId)
    requires 1 <= X <= 1024 && 1 <= Y <= 1024 && first + 4 * groups <= 32
    ensures ids.Sized(groups) && HoldsThread(ids, first, 0, simdSize, X, Y)
  {
    ghost var ns := seq(groups, g requires 0 <= g < groups => first + 4 * g);
    ids := NormaliseVec(VecId(LoadInitial(first, groups), Broadcast(0, groups), Broadcast(0, groups)),
                        Broadcast(X, groups), Broadcast(Y, groups), false, true, ns, X, Y);
    forall g | 0 <= g < groups
      ensures Represents(ids, g, GroupAt(first + 4 * g, simdSize, 0, X, Y))
    {
      assert ns[g] == first + 4 * g;
    }
  }

  lemma LanesOfThread(ids: VecId, first: nat, t: nat, simdSize: nat, X: nat, Y: nat)
    requires ids.Sized(|ids.x|) && first % 4 == 0 && 1 <= X <= 1024 && 1 <= Y <= 1024
    requires HoldsThread(ids, first, t, simdSize, X, Y) && first + 4 * |ids.x| + t * simdSize <= 4096
    ensures forall l | first <= l < first + 4 * |ids.x| :: LaneOf(ids, l - first) == StoredLane(t, l, simdSize, X, Y)
  {
    forall l | first <= l < first + 4 * |ids.x|
      ensures LaneOf(ids, l - first) == StoredLane(t, l, simdSize, X, Y)
    {
      assert first + 4 * ((l - first) / 4) == l - l % 4;
      StoredLaneIsGroupLane(ids, first, l, t, simdSize, X, Y);
    }
  }

  /** The third loop's iteration: when X is a multiple of 4, adding the step and carrying once adds and carries in every
      16-bit lane. */
  ghost predicate StepsLanes(ids: VecId, step: VecId, next: VecId, X: nat, Y: nat)
    requires ids.Sized(|ids.x|) && step.Sized(|ids.x|) && next.Sized(|ids.x|)
  {
    forall g: nat, k: nat | g < |ids.x| && k < 4 ::
      LaneId(next, g, k) == Carry(Add(LaneId(ids, g, k), LaneId(step, g, k)), X, Y)
  }

  lemma ThreadStepIsLanewise(ids: VecId, step: VecId, first: nat, t: nat, simdSize: nat, X: nat, Y: nat)
    requires ids.Sized(|ids.x|) && step.Sized(|ids.x|) && simdSize <= 32 && first + 4 * |ids.x| <= 32
    requires 1 <= X <= 1024 && 1 <= Y <= 1024 && (t + 1) * simdSize <= 2048
    requires X % 4 == 0 && first % 4 == 0 && simdSize % 4 == 0
    requires HoldsThread(ids, first, t, simdSize, X, Y) && HoldsStep(step, simdSize, X, Y)
    ensures StepsLanes(ids, step, CarryVec(AddVec(ids, step), Broadcast(X, |ids.x|), Broadcast(Y, |ids.x|)).ids, X, Y)
  {
    hide CarryVec, AddVec, Broadcast, LaneId, GroupAt, Represents, Normalise, Carry, Add;
    forall g: nat, k: nat | g < |ids.x| && k < 4
      ensures LaneId(CarryVec(AddVec(ids, step), Broadcast(X, |ids.x|), Broadcast(Y, |ids.x|)).ids, g, k)
              == Carry(Add(LaneId(ids, g, k), LaneId(step, g, k)), X, Y)
    {
      GroupStepIsLanewise(ids, step, g, first + 4 * g, t, simdSize, X, Y, k);
    }
  }

  lemma GroupStepIsLanewise(ids: VecId, step: VecId, g: nat, first: nat, t: nat, simdSize: nat, X: nat, Y: nat, k: nat)
    requires ids.Sized(|ids.x|) && step.Sized(|ids.x|) && g < |ids.x| && k < 4 && simdSize <= 32
    requires 1 <= X <= 1024 && 1 <= Y <= 1024 && first + (t + 1) * simdSize <= 2080
    requires X % 4 == 0 && first % 4 == 0 && simdSize % 4 == 0
    requires Represents(ids, g, GroupAt(first, simdSize, t, X, Y))
    requires Represents(step, g, Normalise(Id(simdSize * LANE_ONES, 0, 0), X * LANE_ONES, Y))
    ensures LaneId(CarryVec(AddVec(ids, step), Broadcast(X, |ids.x|), Broadcast(Y, |ids.x|)).ids, g, k)
            == Carry(Add(LaneId(ids, g, k), LaneId(step, g, k)), X, Y)
  {
    hide CarryVec, AddVec, Broadcast, LaneId, GroupAt, LaneAt, Represents, Normalise, Wide;
    var d, e := LaneAt(first, simdSize, t, X, Y), Normalise(Id(simdSize, 0, 0), X, Y);
    GroupIsLanes(first, simdSize, t, X, Y);
    StepIsUniform(simdSize, X, Y);
    LaneHoldsItsWorkItem(first, simdSize, t, X, Y);
    NormaliseOfNumber(simdSize, X, Y);
    DigitsBelow(first + t * simdSize, X, Y);
    DigitsBelow(simdSize, X, Y);
    Distribute(simdSize, t, 1);
    AddMultiples(d, e);
    AddIsLanewise(ids, step, g, d, e, k);
    CarryIsLanewise(AddVec(ids, step), g, true, Add(d, e), X, Y, k);
  }

  /** One pass over all threads: it fills lanes first .. first + 4 * groups of every thread. */
  method GeneratePass(buf: array<byte>, ioh: nat, X: nat, Y: nat, threads: nat, simdSize: nat,
                      first: nat, groups: nat, step: VecId)
    requires simdSize == 8 || simdSize == 16 || simdSize == 32
    requires 1 <= groups && first % 4 == 0 && first + 4 * groups <= simdSize
    requires 1 <= X <= 1024 && 1 <= Y <= 1024 && threads * simdSize <= 2048
    requires step.Sized(groups) && HoldsStep(step, simdSize, X, Y)
    requires ioh + Footprint(threads, simdSize) <= buf.Length
    modifies buf
    ensures forall t, l | 0 <= t < threads && 0 <= l < simdSize ::
              ReadId(buf, ioh, Skip(simdSize), t, l) ==
              if first <= l < first + 4 * groups then StoredLane(t, l, simdSize, X, Y)
              else old(ReadId(buf, ioh, Skip(simdSize), t, l))
    ensures forall i | 0 <= i < buf.Length && (i < ioh || ioh + Footprint(threads, simdSize) <= i) ::
              buf[i] == old(buf[i])
  {
    hide CarryVec, AddVec, GroupAt, StoredLane, LaneOf, ReadId, Footprint, HoldsStep, HoldsThread, Broadcast;
    var ids := StartDigits(first, groups, simdSize, X, Y);
    var i := 0;
    while i < threads
      invariant 0 <= i <= threads && ids.Sized(groups)
      invariant HoldsThread(ids, first, i, simdSize, X, Y)
      invariant forall t, l | 0 <= t < threads && 0 <= l < simdSize ::
                  ReadId(buf, ioh, Skip(simdSize), t, l) ==
                  if t < i && first <= l < first + 4 * groups then StoredLane(t, l, simdSize, X, Y)
                  else old(ReadId(buf, ioh, Skip(simdSize), t, l))
      invariant forall i | 0 <= i < buf.Length && (i < ioh || ioh + Footprint(threads, simdSize) <= i) ::
                  buf[i] == old(buf[i])
    {
      assert (i + 1) * simdSize <= 2048 by { MulMonotone(simdSize, i + 1, threads); }
      StoreIds(buf, ioh, simdSize, threads, i, first, ids);
      LanesOfThread(ids, first, i, simdSize, X, Y);
      AdvanceAll(ids, step, first, i, simdSize, X, Y);
      if X % 4 == 0 {
        ThreadStepIsLanewise(ids, step, first, i, simdSize, X, Y);
        assert StepsLanes(ids, step, CarryVec(AddVec(ids, step), Broadcast(X, groups), Broadcast(Y, groups)).ids, X, Y);
      }
      ids := CarryVec(AddVec(ids, step), Broadcast(X, groups), Broadcast(Y, groups)).ids;
      i := i + 1;
    }
  }

  lemma AdvanceAll(ids: VecId, step: VecId, first: nat, t: nat, simdSize: nat, X: nat, Y: nat)
    requires ids.Sized(|ids.x|) && step.Sized(|ids.x|) && simdSize <= 32 && first + 4 * |ids.x| <= 32
    requires 1 <= X <= 1024 && 1 <= Y <= 1024 && (t + 1) * simdSize <= 2048
    requires HoldsThread(ids, first, t, simdSize, X, Y) && HoldsStep(step, simdSize, X, Y)
    ensures HoldsThread(CarryVec(AddVec(ids, step), Broadcast(X, |ids.x|), Broadcast(Y, |ids.x|)).ids,
                        first, t + 1, simdSize, X, Y)
  {
    forall g | 0 <= g < |ids.x| {
      NextThread(ids, step, g, first + 4 * g, t, simdSize, X, Y);
    }
  }

  /** The local IDs of one work-group, written for `threadsPerWorkGroup` threads from byte `ioh` on. */
  method GenerateLocalIdsSimd(buf: array<byte>, ioh: nat, X: nat, Y: nat, threadsPerWorkGroup: nat,
                              simdSize: nat, numChannels: nat)
    requires (numChannels == 8 && simdSize == 8) || (numChannels == 16 && (simdSize == 16 || simdSize == 32))
    requires 1 <= X <= 1024 && 1 <= Y <= 1024 && threadsPerWorkGroup * simdSize <= 2048
    requires ioh + Footprint(threadsPerWorkGroup, simdSize) <= buf.Length
    modifies buf
    ensures forall t, l | 0 <= t < threadsPerWorkGroup && 0 <= l < simdSize ::
              ReadId(buf, ioh, Skip(simdSize), t, l) == StoredLane(t, l, simdSize, X, Y)
    ensures forall i | 0 <= i < buf.Length && (i < ioh || ioh + Footprint(threadsPerWorkGroup, simdSize) <= i) ::
              buf[i] == old(buf[i])
  {
    hide ReadId, StoredLane, Footprint, HoldsStep, Skip;
    var groups, passes := numChannels / 4, simdSize / numChannels;
    var step := StepDigits(simdSize, groups, X, Y);
    var pass := 0;
    while pass < passes
      invariant 0 <= pass <= passes
      invariant forall t, l | 0 <= t < threadsPerWorkGroup && 0 <= l < pass * numChannels ::
                  ReadId(buf, ioh, Skip(simdSize), t, l) == StoredLane(t, l, simdSize, X, Y)
      invariant forall i | 0 <= i < buf.Length && (i < ioh || ioh + Footprint(threadsPerWorkGroup, simdSize) <= i) ::
                  buf[i] == old(buf[i])
    {
      GeneratePass(buf, ioh, X, Y, threadsPerWorkGroup, simdSize, pass * numChannels, groups, step);
      pass := pass + 1;
    }
  }
}
