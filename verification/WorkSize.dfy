/** Limits and validation of work sizes: `setMaxWorkGroupSize` and `validateWorkGroups`. */
module WorkSize {
  import opened Options
  import opened Bits
  import opened DriverUtils
  import WorkGroup

  datatype Code = Success | UnsupportedHardware | InvalidWorkSize | InvalidWorkGroupSize

  /** The hardware counts the limit is computed from. */
  datatype HwInfo = HwInfo(euCount: nat, subSliceCount: nat, threadCount: nat,
                           euCountPerPoolMin: nat, pooledEuEnabled: bool)
  {
    /** The device has units, and the count of its lanes fits 32 bits. */
    predicate Valid()
    {
      subSliceCount > 0 && euCount > 0 && SubSliceThreads(this) * 8 < TWO_32
    }
  }

  function EusPerSubSlice(hw: HwInfo): nat
    requires hw.subSliceCount > 0
  {
    if hw.euCountPerPoolMin == 0 || !hw.pooledEuEnabled then hw.euCount / hw.subSliceCount else hw.euCountPerPoolMin
  }

  function ThreadsPerEu(hw: HwInfo): nat
    requires hw.euCount > 0
  {
    hw.threadCount / hw.euCount
  }

  /** Hardware threads of one subslice. */
  function SubSliceThreads(hw: HwInfo): nat
    requires hw.subSliceCount > 0 && hw.euCount > 0
  {
    EusPerSubSlice(hw) * ThreadsPerEu(hw)
  }

  /** Units of a subslice: the pool's where units are pooled, otherwise the even share, of which no subslice can have one
      more; every unit has an even share of the threads. */
  lemma SharesAreEven(hw: HwInfo)
    requires hw.subSliceCount > 0 && hw.euCount > 0
    ensures hw.pooledEuEnabled && hw.euCountPerPoolMin > 0 ==> EusPerSubSlice(hw) == hw.euCountPerPoolMin
    ensures !hw.pooledEuEnabled || hw.euCountPerPoolMin == 0 ==>
              EusPerSubSlice(hw) * hw.subSliceCount <= hw.euCount < (EusPerSubSlice(hw) + 1) * hw.subSliceCount
    ensures ThreadsPerEu(hw) * hw.euCount <= hw.threadCount < (ThreadsPerEu(hw) + 1) * hw.euCount
  {
  }

  /** The limit is the largest power of two that neither 1024 nor eight lanes on every hardware thread of a
      subslice exceed (zero when there are no threads). */
  predicate IsLimit(max: nat, threads: nat)
  {
    if threads == 0 then max == 0
    else IsPowerOfTwo(max) && max <= 1024 && max <= threads * 8 && (max == 1024 || threads * 8 < 2 * max)
  }

  /** Product and sum of remainders over the first n dimensions, without wrap-around. */
  function Product(local: seq<nat>, n: nat): nat
    requires n <= |local|
  {
    if n == 0 then 1 else Product(local, n - 1) * local[n - 1]
  }

  function Remainders(global: seq<nat>, local: seq<nat>, n: nat): nat
    requires n <= |local| && n <= |global| && forall i | 0 <= i < n :: local[i] > 0
  {
    if n == 0 then 0 else Remainders(global, local, n - 1) + global[n - 1] % local[n - 1]
  }

  /** What the loop accepts: no zero, a required size respected, and the 64-bit sum and product in order. */
  ghost predicate Acceptable(workDim: nat, global: seq<nat>, local: seq<nat>, required: seq<nat>, max: nat)
    requires workDim <= |global| && workDim <= |local| && |required| == 3
  {
    && workDim <= 3
    && (forall i | 0 <= i < workDim :: local[i] > 0)
    && (required[0] != 0 ==> forall i | 0 <= i < workDim :: required[i] == local[i])
    && Remainders(global, local, workDim) % TWO_64 == 0
    && Product(local, workDim) % TWO_64 <= max
  }

  /** The first n entries of `before` replaced by those of `by`. */
  predicate Overwritten(s: seq<nat>, before: seq<nat>, source: seq<nat>, n: nat)
  {
    && |s| == |before|
    && (forall i | 0 <= i < n && i < |s| && i < |source| :: s[i] == source[i])
    && (forall i | n <= i < |s| :: s[i] == before[i])
  }

  /** The first n entries of `before` replaced by the quotients of `source` and `divisors`. */
  predicate Quotients(s: seq<nat>, before: seq<nat>, source: seq<nat>, divisors: seq<nat>, n: nat)
  {
    && |s| == |before|
    && (forall i | 0 <= i < n && i < |s| && i < |source| && i < |divisors| && divisors[i] > 0 ::
          s[i] == source[i] / divisors[i])
    && (forall i | n <= i < |s| :: s[i] == before[i])
  }

  /** The first dimension from i on whose local size the loop refuses (workDim when it refuses none). */
  function RefusedFrom(workDim: nat, local: seq<nat>, required: seq<nat>, i: nat): (n: nat)
    requires i <= workDim <= 3 && workDim <= |local| && |required| == 3
    ensures i <= n <= workDim
    ensures forall j | i <= j < n :: local[j] > 0 && (required[0] != 0 ==> required[j] == local[j])
    ensures n < workDim ==> local[n] == 0 || (required[0] != 0 && required[n] != local[n])
    decreases workDim - i
  {
    if i == workDim || local[i] == 0 || (required[0] != 0 && required[i] != local[i]) then i
    else RefusedFrom(workDim, local, required, i + 1)
  }

  class WorkSizes {
    const hw: HwInfo
    var maxWorkItemsPerWorkGroup: nat
    var workItemsPerWorkGroup: seq<nat>
    var globalWorkItems: seq<nat>
    var numWorkGroups: seq<nat>

    predicate Sized()
      reads this
    {
      && hw.Valid() && |workItemsPerWorkGroup| == 3 && |globalWorkItems| == 3 && |numWorkGroups| == 3
      && forall i | 0 <= i < 3 :: workItemsPerWorkGroup[i] > 0
    }

    /** The limit is the device's. */
    predicate Valid()
      reads this
    {
      Sized() && IsLimit(maxWorkItemsPerWorkGroup, SubSliceThreads(hw))
    }

    constructor (hw: HwInfo)
      requires hw.Valid()
      ensures Valid() && this.hw == hw
      ensures workItemsPerWorkGroup == [1, 1, 1] && globalWorkItems == [1, 1, 1] && numWorkGroups == [1, 1, 1]
    {
      this.hw := hw;
      workItemsPerWorkGroup, globalWorkItems, numWorkGroups := [1, 1, 1], [1, 1, 1], [1, 1, 1];
      new;
      SetMaxWorkGroupSize();
    }

    method SetMaxWorkGroupSize()
      requires Sized()
      modifies this`maxWorkItemsPerWorkGroup
      ensures Valid() && maxWorkItemsPerWorkGroup <= 1024
    {
      var minSimdSize := 8;
      var maxThreadsPerWorkGroup := EusPerSubSlice(hw) * ThreadsPerEu(hw) * minSimdSize;
      maxThreadsPerWorkGroup := PrevPowerOfTwo(maxThreadsPerWorkGroup);
      maxWorkItemsPerWorkGroup := if maxThreadsPerWorkGroup < 1024 then maxThreadsPerWorkGroup else 1024;
      ghost var p := maxThreadsPerWorkGroup;
      assert IsPowerOfTwo(1024) by { assert 1024 == Pow2(10); }
    }

    /** Checks the sizes and records them.  A rejected call leaves the group counts alone, but the sizes recorded up to
        the first dimension refused, whose global size is recorded too. */
    method ValidateWorkGroups(supported: bool, workDim: nat, global: Option<seq<nat>>, local: Option<seq<nat>>,
                              required: seq<nat>)
      returns (r: Code)
      requires Valid() && |required| == 3
      requires global.Some? ==> |global.value| >= workDim && forall i | 0 <= i < workDim :: global.value[i] < TWO_64
      requires local.Some? ==> |local.value| >= workDim && forall i | 0 <= i < workDim :: local.value[i] < TWO_64
      modifies this`workItemsPerWorkGroup, this`globalWorkItems, this`numWorkGroups
      ensures Valid()
      ensures r == UnsupportedHardware <==> !supported
      ensures r == InvalidWorkSize <==> supported && global.None?
      ensures r == Success <==>
                supported && global.Some? && local.Some? &&
                Acceptable(workDim, global.value, local.value, required, maxWorkItemsPerWorkGroup)
      ensures r == Success ==>
                && Overwritten(globalWorkItems, old(globalWorkItems), global.value, workDim)
                && Overwritten(workItemsPerWorkGroup, old(workItemsPerWorkGroup), local.value, workDim)
                && Quotients(numWorkGroups, old(numWorkGroups), global.value, local.value, workDim)
      ensures r != Success ==> numWorkGroups == old(numWorkGroups)
      ensures !supported || global.None? || local.None? || workDim > 3 ==>
                globalWorkItems == old(globalWorkItems) && workItemsPerWorkGroup == old(workItemsPerWorkGroup)
      ensures supported && global.Some? && local.Some? && workDim <= 3 ==>
                var n := RefusedFrom(workDim, local.value, required, 0);
                && Overwritten(globalWorkItems, old(globalWorkItems), global.value, if n < workDim then n + 1 else n)
                && Overwritten(workItemsPerWorkGroup, old(workItemsPerWorkGroup), local.value, n)
    {
      hide Product, Remainders, RefusedFrom;
      if !supported {
        return UnsupportedHardware;
      }
      if global.None? {
        return InvalidWorkSize;
      }
      if local.None? {
        return InvalidWorkGroupSize;
      }
      if workDim > 3 {
        return InvalidWorkGroupSize;
      }
      var recorded, totalWorkItems, remainder := RecordSizes(workDim, global.value, local.value, required);
      if !recorded || remainder != 0 {
        return InvalidWorkGroupSize;
      }
      if totalWorkItems > maxWorkItemsPerWorkGroup {
        return InvalidWorkGroupSize;
      }
      ComputeNumWorkGroups(workDim);
      return Success;
    }

    method ComputeNumWorkGroups(workDim: nat)
      requires Valid() && workDim <= 3 && forall i | 0 <= i < workDim :: workItemsPerWorkGroup[i] > 0
      modifies this`numWorkGroups
      ensures Valid() && Quotients(numWorkGroups, old(numWorkGroups), globalWorkItems, workItemsPerWorkGroup, workDim)
    {
      for i := 0 to workDim
        invariant |numWorkGroups| == 3
        invariant Quotients(numWorkGroups, old(numWorkGroups), globalWorkItems, workItemsPerWorkGroup, i)
      {
        numWorkGroups := numWorkGroups[i := globalWorkItems[i] / workItemsPerWorkGroup[i]];
      }
    }

    /** The loop over the dimensions; it stops at the first size that is zero or not the required one. */
    method RecordSizes(workDim: nat, g: seq<nat>, l: seq<nat>, required: seq<nat>)
      returns (recorded: bool, totalWorkItems: nat, remainder: nat)
      requires Valid() && |required| == 3 && workDim <= 3 && workDim <= |g| && workDim <= |l|
      modifies this`workItemsPerWorkGroup, this`globalWorkItems
      ensures Valid()
      ensures recorded <==> (forall i | 0 <= i < workDim :: l[i] > 0) &&
                            (required[0] != 0 ==> forall i | 0 <= i < workDim :: required[i] == l[i])
      ensures recorded ==>
                && Overwritten(globalWorkItems, old(globalWorkItems), g, workDim)
                && Overwritten(workItemsPerWorkGroup, old(workItemsPerWorkGroup), l, workDim)
                && totalWorkItems == Product(l, workDim) % TWO_64
                && remainder == Remainders(g, l, workDim) % TWO_64
      ensures var n := RefusedFrom(workDim, l, required, 0);
              && Overwritten(globalWorkItems, old(globalWorkItems), g, if n < workDim then n + 1 else n)
              && Overwritten(workItemsPerWorkGroup, old(workItemsPerWorkGroup), l, n)
    {
      hide Product, Remainders, RefusedFrom;
      totalWorkItems, remainder := 1, 0;
      FirstTotal(g, l);
      var haveRequiredWorkGroupSize := required[0] != 0;
      for i := 0 to workDim
        invariant |globalWorkItems| == 3 && |workItemsPerWorkGroup| == 3
        invariant forall j | 0 <= j < 3 :: workItemsPerWorkGroup[j] > 0
        invariant forall j | 0 <= j < i :: l[j] > 0
        invariant required[0] != 0 ==> forall j | 0 <= j < i :: required[j] == l[j]
        invariant Overwritten(globalWorkItems, old(globalWorkItems), g, i)
        invariant Overwritten(workItemsPerWorkGroup, old(workItemsPerWorkGroup), l, i)
        invariant totalWorkItems == Product(l, i) % TWO_64
        invariant remainder == Remainders(g, l, i) % TWO_64
      {
        globalWorkItems := globalWorkItems[i := g[i]];
        if haveRequiredWorkGroupSize && required[i] != l[i] {
          return false, totalWorkItems, remainder;
        }
        if l[i] == 0 {
          return false, totalWorkItems, remainder;
        }
        workItemsPerWorkGroup := workItemsPerWorkGroup[i := l[i]];
        NextTotal(g, l, i);
        totalWorkItems := (totalWorkItems * l[i]) % TWO_64;
        remainder := (remainder + globalWorkItems[i] % workItemsPerWorkGroup[i]) % TWO_64;
      }
      recorded := true;
    }
  }

  lemma FirstTotal(g: seq<nat>, l: seq<nat>)
    ensures Product(l, 0) == 1 && Remainders(g, l, 0) == 0
  {
  }

  lemma NextTotal(g: seq<nat>, l: seq<nat>, i: nat)
    requires i < |g| && i < |l| && forall j | 0 <= j <= i :: l[j] > 0
    ensures Product(l, i + 1) % TWO_64 == (Product(l, i) % TWO_64 * l[i]) % TWO_64
    ensures Remainders(g, l, i + 1) % TWO_64 == (Remainders(g, l, i) % TWO_64 + g[i] % l[i]) % TWO_64
  {
    WrapProduct(Product(l, i), l[i]);
    WrapSum(Remainders(g, l, i), g[i] % l[i]);
  }

  lemma WrapSum(a: nat, b: nat)
    ensures (a % TWO_64 + b) % TWO_64 == (a + b) % TWO_64
  {
  }

  /** Multiplying a wrapped factor wraps to the same product. */
  lemma WrapProduct(p: nat, q: nat)
    ensures (p % TWO_64 * q) % TWO_64 == (p * q) % TWO_64
  {
    var k := p / TWO_64;
    assert p == TWO_64 * k + p % TWO_64;
    assert p * q == TWO_64 * (k * q) + p % TWO_64 * q;
    var n := p % TWO_64 * q;
    DivModUnique(p * q, TWO_64, k * q + n / TWO_64, n % TWO_64);
  }

  /** Whole groups of d make up n. */
  predicate Divides(d: nat, n: nat) { d > 0 && n / d * d == n }

  /** A launch of three dimensions that passed validation has divisible sizes, and its group is within the
      limit exactly when its product did not wrap around 64 bits. */
  lemma AcceptedSizes(global: seq<nat>, local: seq<nat>, required: seq<nat>, max: nat)
    requires |global| == 3 && |local| == 3 && |required| == 3 && max < TWO_32
    requires Acceptable(3, global, local, required, max)
    ensures Product(local, 3) == local[0] * local[1] * local[2] >= 1
    ensures Product(local, 3) <= max <==> Product(local, 3) < TWO_64
    ensures required[0] != 0 ==> local == required
    ensures Product(local, 3) < TWO_64 ==>
              forall i | 0 <= i < 3 :: local[i] <= max && Divides(local[i], global[i])
  {
    hide Product, Remainders;
    FactorsBelow(local);
    var p := Product(local, 3);
    if p < TWO_64 {
      assert p % TWO_64 == p;
      assert forall i | 0 <= i < 3 :: local[i] <= p <= max;
      ThreeRemainders(global, local);
      forall i | 0 <= i < 3
        ensures Divides(local[i], global[i])
      {
        ExactQuotient(global[i], local[i]);
      }
    }
  }

  lemma ExactQuotient(n: nat, d: nat)
    requires d > 0 && n % d == 0
    ensures n / d * d == n
  {
  }

  lemma ThreeFactors(local: seq<nat>)
    requires |local| == 3
    ensures Product(local, 3) == local[0] * local[1] * local[2]
  {
    assert Product(local, 1) == local[0];
    assert Product(local, 2) == local[0] * local[1];
  }

  lemma ThreeRemainders(global: seq<nat>, local: seq<nat>)
    requires |global| == 3 && |local| == 3 && forall i | 0 <= i < 3 :: 0 < local[i] < TWO_32
    ensures Remainders(global, local, 3) % TWO_64 == 0 ==> forall i | 0 <= i < 3 :: global[i] % local[i] == 0
  {
    var a, b, c := global[0] % local[0], global[1] % local[1], global[2] % local[2];
    ThreeTerms(global, local);
    hide Remainders;
    assert 0 <= a < local[0] && 0 <= b < local[1] && 0 <= c < local[2];
    assert (a + b + c) % TWO_64 == a + b + c;
  }

  lemma ThreeTerms(global: seq<nat>, local: seq<nat>)
    requires |global| == 3 && |local| == 3 && forall i | 0 <= i < 3 :: 0 < local[i]
    ensures Remainders(global, local, 3) == global[0] % local[0] + global[1] % local[1] + global[2] % local[2]
  {
    assert Remainders(global, local, 1) == global[0] % local[0];
    assert Remainders(global, local, 2) == Remainders(global, local, 1) + global[1] % local[1];
  }

  lemma FactorsBelow(local: seq<nat>)
    requires |local| == 3 && forall i | 0 <= i < 3 :: local[i] >= 1
    ensures Product(local, 3) == local[0] * local[1] * local[2] >= 1
    ensures forall i | 0 <= i < 3 :: local[i] <= Product(local, 3)
  {
    var x, y, z := local[0], local[1], local[2];
    ThreeFactors(local);
    hide Product;
    MulMonotone(x, 1, y);
    MulMonotone(y, 1, x);
    MulMonotone(x * y, 1, z);
    MulMonotone(z, 1, x * y);
  }

  /** A product that wraps to zero passes validation, whatever the limit. */
  lemma WrappedProductAccepted(max: nat)
    ensures Acceptable(3, [TWO_32, TWO_32, 1], [TWO_32, TWO_32, 1], [0, 0, 0], max)
    ensures Product([TWO_32, TWO_32, 1], 3) == TWO_64
  {
    var sizes := [TWO_32, TWO_32, 1];
    assert Product(sizes, 1) == TWO_32;
    assert Product(sizes, 2) == TWO_64;
    assert Remainders(sizes, sizes, 1) == 0;
    assert Remainders(sizes, sizes, 2) == 0;
  }

  /** A validated group never needs more hardware threads than one subslice has. */
  lemma GroupFitsSubSlice(hw: HwInfo, max: nat, local: nat, simdSize: nat)
    requires hw.subSliceCount > 0 && hw.euCount > 0 && IsLimit(max, SubSliceThreads(hw))
    requires WorkGroup.IsSimd(simdSize) && 1 <= local <= max
    ensures 1 <= WorkGroup.HwThreads(local, simdSize) <= SubSliceThreads(hw)
  {
    hide WorkGroup.HwThreads;
    var threads := SubSliceThreads(hw);
    LimitIsMultipleOfEight(max, threads);
    WorkGroup.ThreadsCoverGroup(local, simdSize);
    var t := WorkGroup.HwThreads(local, simdSize) - 1;
    MulMonotone(t, 8, simdSize);
    MulMonotone(8, t, if t < threads then t else threads);
  }

  lemma LimitIsMultipleOfEight(max: nat, threads: nat)
    requires IsLimit(max, threads) && max > 0
    ensures max % 8 == 0 && max <= threads * 8
  {
    var k: nat :| k <= max && max == Pow2(k);
    if k < 3 {
      Pow2Monotone(k, 2);
    } else {
      Pow2Add(3, k - 3);
    }
  }
}
