/** The soft-pin heap allocator of `driver/device.cpp`: a bump-down allocator of GPU addresses, and the
    canonical addresses and command bitfields derived from what it hands out.
 */
module HeapAllocator {
  import opened Bits
  import opened DriverUtils

  datatype Error = QueryFailed | SoftpinNotSupported | UnsupportedHardware | BufferAllocationFailed
  datatype Result<+T> = Ok(value: T) | Err(error: Error)

  /** The allocator's fields. */
  datatype Bounds = Bounds(base: nat, left: nat, right: nat, free: nat, taken: nat)

  const HEAP_SIZE: nat := 4 * GIGA_BYTE
  const GFX_BASE: nat := 0x8000_0000_0000
  const HEAP_BASE: nat := GFX_BASE + HEAP_SIZE

  function InitialBounds(): Bounds
  {
    var left, right := HEAP_BASE + MEGA_BYTE, HEAP_BASE + HEAP_SIZE - 0x1_0000;
    Bounds(HEAP_BASE, left, right, right - left, 0)
  }

  /** A new heap: 4 GiB from 2^47 + 4 GiB on, of which the first MiB and the last 64 KiB are never handed out. */
  lemma NewHeap()
    ensures HEAP_BASE == 0x8001_0000_0000 && HEAP_SIZE == 0x1_0000_0000
    ensures InitialBounds() == Bounds(base := 0x8001_0000_0000, left := 0x8001_0010_0000, right := 0x8001_ffff_0000,
                                      free := 0xffef_0000, taken := 0)
  {
  }

  /** A range [start, end) of GPU addresses. */
  datatype Range = Range(start: nat, end: nat)

  /** One allocation request, on 64-bit words. */
  function Request(b: Bounds, size: nat): (r: (Bounds, Result<nat>))
    requires size < TWO_64
    ensures r.1.Ok? ==> r.1.value < TWO_64
  {
    Serve(b, AlignUp(size, PAGE_SIZE) % TWO_64)
  }

  /** The same once the size is rounded up to n bytes. */
  function Serve(b: Bounds, n: nat): (r: (Bounds, Result<nat>))
    requires n < TWO_64
    ensures r.1.Ok? ==> r.1.value < TWO_64
  {
    if (b.left + n) % TWO_64 <= b.right then
      var right := (b.right - n) % TWO_64;
      (Bounds(b.base, b.left, right, (b.free - n) % TWO_64, (b.taken + n) % TWO_64), Ok(right))
    else
      (b, Err(BufferAllocationFailed))
  }

  /** The state every allocator is in: the free space [left, right) is page-aligned and lies inside the heap,
      and free and allocated space add up to the whole. */
  predicate Valid(b: Bounds)
  {
    && b.base == HEAP_BASE && b.left == HEAP_BASE + MEGA_BYTE
    && b.left <= b.right <= InitialBounds().right && b.right % PAGE_SIZE == 0
    && b.free == b.right - b.left
    && b.free + b.taken == InitialBounds().free
  }

  lemma BaseIsFixed(b: Bounds)
    requires Valid(b)
    ensures b.base == HEAP_BASE
  {
  }

  class Allocator {
    var gpuBaseAddress: nat
    var pLeftBound: nat
    var pRightBound: nat
    var availableSize: nat
    var allocatedSize: nat

    function State(): Bounds
      reads this
    {
      Bounds(gpuBaseAddress, pLeftBound, pRightBound, availableSize, allocatedSize)
    }

    constructor ()
      ensures State() == Bounds(0, 0, 0, 0, 0)
    {
      gpuBaseAddress, pLeftBound, pRightBound, availableSize, allocatedSize := 0, 0, 0, 0, 0;
    }

    /** `initHeapAllocatorForSoftpinning`; the three parameters are what the kernel driver answers. */
    method Init(softpin: Result<bool>, gttSize: Result<nat>) returns (r: Result<()>)
      requires gttSize.Ok? ==> gttSize.value < TWO_64
      modifies this
      ensures softpin.Err? ==> r == Err(QueryFailed)
      ensures softpin == Ok(false) ==> r == Err(SoftpinNotSupported)
      ensures softpin == Ok(true) && gttSize.Err? ==> r == Err(QueryFailed)
      ensures softpin == Ok(true) && gttSize.Ok? && gttSize.value != TWO_48 ==> r == Err(UnsupportedHardware)
      ensures r.Ok? <==> softpin == Ok(true) && gttSize == Ok(TWO_48)
      ensures if r.Ok? then State() == InitialBounds() && Valid(State()) else State() == old(State())
    {
      if softpin.Err? {
        return Err(QueryFailed);
      }
      if !softpin.value {
        return Err(SoftpinNotSupported);
      }
      if gttSize.Err? {
        return Err(QueryFailed);
      }
      hide MaxNBitValue;
      AddressMasks();
      var gpuAddressSpace := (gttSize.value - 1) % TWO_64;
      if gpuAddressSpace != MaxNBitValue(48) {
        return Err(UnsupportedHardware);
      }
      gpuBaseAddress := MaxNBitValue(47) + 1 + HEAP_SIZE;
      pLeftBound := gpuBaseAddress + MEGA_BYTE;
      pRightBound := gpuBaseAddress + HEAP_SIZE - 0x1_0000;
      availableSize := pRightBound - pLeftBound;
      allocatedSize := 0;
      return Ok(());
    }

    /** `allocateHeapMemoryForSoftpinning`: the canonical base address, and the canonical GPU address. */
    method AllocateHeapMemory(size: nat) returns (gpuBase: nat, gpuAddress: Result<nat>)
      requires size < TWO_64 && Valid(State())
      modifies this
      ensures gpuBase == Canonize(HEAP_BASE)
      ensures State() == Request(old(State()), size).0
      ensures match Request(old(State()), size).1
              case Ok(address) => gpuAddress == Ok(Canonize(address))
              case Err(e) => gpuAddress == Err(e)
    {
      hide AlignUp, Ceil, Canonize, Valid;
      BaseIsFixed(State());
      AlignedBelow(size);
      assert AlignUp(size, PAGE_SIZE) % TWO_64 == AlignUp(size, PAGE_SIZE);
      gpuBase := Canonize(gpuBaseAddress);
      var sizeToAllocate := AlignUp(size, PAGE_SIZE);
      if (pLeftBound + sizeToAllocate) % TWO_64 <= pRightBound {
        pRightBound := (pRightBound - sizeToAllocate) % TWO_64;
        availableSize := (availableSize - sizeToAllocate) % TWO_64;
        allocatedSize := (allocatedSize + sizeToAllocate) % TWO_64;
        gpuAddress := Ok(Canonize(pRightBound));
      } else {
        gpuAddress := Err(BufferAllocationFailed);
      }
    }
  }

  lemma AddressMasks()
    ensures MaxNBitValue(47) + 1 == GFX_BASE && MaxNBitValue(48) + 1 == TWO_48
  {
    Pow2Constants();
    assert Pow2(48) == 2 * Pow2(47);
  }

  // ---------- one request ----------

  lemma AlignedBelow(size: nat)
    requires size < TWO_64
    ensures AlignUp(size, PAGE_SIZE) == if size + PAGE_SIZE <= TWO_64 then Ceil(size, PAGE_SIZE) else 0
    ensures AlignUp(size, PAGE_SIZE) < TWO_64 && AlignUp(size, PAGE_SIZE) % PAGE_SIZE == 0
    ensures size <= Ceil(size, PAGE_SIZE)
  {
    Pow2Constants();
    AlignUpRoundsUp(size, 12);
    CeilIsLeastMultiple(size, PAGE_SIZE, 0);
  }

  /** A request is served soundly when it either fails and changes nothing, or hands out at least `size`
      bytes from the end of the free space and leaves a valid allocator. */
  predicate ServedSoundly(b: Bounds, size: nat)
    requires size < TWO_64
  {
    var (after, r) := Request(b, size);
    && Valid(after)
    && match r
       case Err(_) => after == b
       case Ok(address) => address == after.right && address % PAGE_SIZE == 0 && address + size <= b.right
  }

  /** Exactly the requests whose page-rounded end does not leave the 64-bit address space are served
      soundly. */
  lemma SoundIffNoWrap(b: Bounds, size: nat)
    requires Valid(b) && size < TWO_64
    ensures ServedSoundly(b, size) <==> b.left + Ceil(size, PAGE_SIZE) < TWO_64
    ensures b.left + Ceil(size, PAGE_SIZE) < TWO_64 ==>
              (Request(b, size).1.Ok? <==> Ceil(size, PAGE_SIZE) <= b.free)
  {
    hide AlignUp, Ceil, Serve;
    AlignedBelow(size);
    var n := AlignUp(size, PAGE_SIZE);
    assert Request(b, size) == Serve(b, n);
    hide Request, Valid;
    ServeIff(b, size, n);
    if size + PAGE_SIZE <= TWO_64 {
      CeilIsLeastMultiple(size, PAGE_SIZE, 0);
      assert n == Ceil(size, PAGE_SIZE);
    }
  }

  lemma ServeIff(b: Bounds, size: nat, n: nat)
    requires Valid(b) && n < TWO_64 && n % PAGE_SIZE == 0
    ensures b.left + n < TWO_64 ==>
              var (after, r) := Serve(b, n);
              Valid(after) && if n <= b.free then r == Ok(b.right - n) && after.right == b.right - n
                              else after == b && r.Err?
    ensures b.left + n >= TWO_64 ==> Serve(b, n).1 == Ok(b.right + TWO_64 - n)
    ensures n == 0 ==> Serve(b, n).1 == Ok(b.right)
  {
    InsideHeap(b, n);
    hide Valid, InitialBounds;
    if b.left + n >= TWO_64 {
      NoWrap(b.left + n - TWO_64);
      NoWrap(b.right - n + TWO_64);
    } else if n <= b.free {
      ServeFits(b, n);
    } else {
      NoWrap(b.left + n);
    }
  }

  lemma InsideHeap(b: Bounds, n: nat)
    requires Valid(b)
    ensures b.left <= b.right < TWO_64 / 2 && b.free == b.right - b.left && b.free + b.taken < TWO_64
    ensures n <= b.free && n % PAGE_SIZE == 0 ==> Valid(Bounds(b.base, b.left, b.right - n, b.free - n, b.taken + n))
  {
  }

  lemma ServeFits(b: Bounds, n: nat)
    requires b.left <= b.right < TWO_64 && n <= b.free == b.right - b.left && b.free + b.taken < TWO_64
    ensures Serve(b, n) == (Bounds(b.base, b.left, b.right - n, b.free - n, b.taken + n), Ok(b.right - n))
  {
    NoWrap(b.left + n);
    NoWrap(b.right - n);
    NoWrap(b.free - n);
    NoWrap(b.taken + n);
  }

  lemma NoWrap(v: int)
    requires 0 <= v < TWO_64
    ensures v % TWO_64 == v && (v + TWO_64) % TWO_64 == v && (v - TWO_64) % TWO_64 == v
  {
  }

  // ---------- every sequence of requests ----------

  /** The allocator after the requests `sizes`, and the ranges handed out, in order. */
  function RunRequests(b: Bounds, sizes: seq<nat>): (Bounds, seq<Range>)
    requires forall i | 0 <= i < |sizes| :: sizes[i] < TWO_64
    decreases |sizes|
  {
    if sizes == [] then (b, [])
    else
      var (b1, r) := Request(b, sizes[0]);
      var (b2, ranges) := RunRequests(b1, sizes[1..]);
      (b2, if r.Ok? then [Range(r.value, r.value + sizes[0])] + ranges else ranges)
  }

  /** Over every sequence of requests the ranges are page-aligned, inside the free space, and each lies
      entirely below the earlier ones. */
  lemma {:induction false} RangesAreDisjoint(b: Bounds, sizes: seq<nat>)
    requires Valid(b) && forall i | 0 <= i < |sizes| :: sizes[i] < TWO_64 - HEAP_BASE - HEAP_SIZE
    ensures var (after, ranges) := RunRequests(b, sizes);
            && Valid(after) && after.right <= b.right
            && (forall i | 0 <= i < |ranges| ::
                  ranges[i].start % PAGE_SIZE == 0 && b.left <= ranges[i].start <= ranges[i].end <= b.right)
            && (forall i, j | 0 <= i < j < |ranges| :: ranges[j].end <= ranges[i].start)
    decreases |sizes|
  {
    hide Request, Ceil;
    if sizes != [] {
      CeilIsLeastMultiple(sizes[0], PAGE_SIZE, 0);
      SoundIffNoWrap(b, sizes[0]);
      RangesAreDisjoint(Request(b, sizes[0]).0, sizes[1..]);
    }
  }

  // ---------- addresses rebuilt by the hardware ----------

  /** A bitfield of `width` bits that starts at bit `shift`, as the driver fills it. */
  function Field(value: nat, shift: nat, width: nat): nat
  {
    Shr(value, shift) % Pow2(width)
  }

  /** The addresses the heap hands out. */
  predicate HeapAddress(address: nat)
  {
    HEAP_BASE <= address < HEAP_BASE + HEAP_SIZE && address % PAGE_SIZE == 0
  }

  /** What the heap hands out is a page address in it, below its last 64 KiB. */
  lemma RangesAreHeapAddresses(sizes: seq<nat>, i: nat)
    requires forall i | 0 <= i < |sizes| :: sizes[i] < TWO_64 - HEAP_BASE - HEAP_SIZE
    requires i < |RunRequests(InitialBounds(), sizes).1|
    ensures var range := RunRequests(InitialBounds(), sizes).1[i];
            && HeapAddress(range.start) && 0x8001_0010_0000 <= range.start <= range.end <= 0x8001_ffff_0000
            && range.end + 0x1_0000 <= HEAP_BASE + HEAP_SIZE
  {
    hide RunRequests;
    RangesAreDisjoint(InitialBounds(), sizes);
  }

  /** For every heap address, decanonize undoes canonize, and the canonical difference to the heap base is
      the plain one and fits 32 bits. */
  lemma CanonicalDifference(address: nat)
    requires HeapAddress(address)
    ensures Decanonize(Canonize(address)) == address
    ensures Canonize(address) - Canonize(HEAP_BASE) == address - HEAP_BASE < TWO_32
    ensures Canonize(HEAP_BASE) == HEAP_BASE + (TWO_64 - TWO_48) && Decanonize(Canonize(HEAP_BASE)) == HEAP_BASE
  {
    hide Canonize, Decanonize;
    CanonicalRoundTrip(address);
    CanonicalRoundTrip(HEAP_BASE);
    CanonizeSignExtends(address);
    CanonizeSignExtends(HEAP_BASE);
  }

  lemma AlignedDistance(address: nat)
    requires HeapAddress(address)
    ensures 0 <= address - HEAP_BASE < TWO_32
    ensures (address - HEAP_BASE) % 0x10 == 0 && (address - HEAP_BASE) % 0x40 == 0
  {
    var page, base := address / 0x1000, HEAP_BASE / 0x1000;
    assert address == 0x1000 * page && HEAP_BASE == 0x1000 * base;
    DivModUnique(address - HEAP_BASE, 0x10, 0x100 * (page - base), 0);
    DivModUnique(address - HEAP_BASE, 0x40, 0x40 * (page - base), 0);
  }

  /** `gpuAddress - gpuBaseAddress`, the distance the commands carry. */
  function BaseDistance(address: nat): (d: nat)
    requires HeapAddress(address)
    ensures d == address - HEAP_BASE
  {
    CanonicalDifference(address);
    Canonize(address) - Canonize(HEAP_BASE)
  }

  /** The kernel start address: InstructionBaseAddress (bits 12 up, 52 wide), KernelStartPointer (bits 6 up,
      26 wide) and KernelStartPointerHigh (16 wide) rebuild the decanonized address of the kernel. */
  lemma KernelStartRebuilds(address: nat)
    requires HeapAddress(address)
    ensures Field(Decanonize(Canonize(HEAP_BASE)), 12, 52) * 0x1000
            + Field(BaseDistance(address) % TWO_32, 6, 26) * 0x40 + Field(BaseDistance(address), 32, 16) * TWO_32
            == Decanonize(Canonize(address))
  {
    hide Field, Canonize, Decanonize, Pow2, BaseDistance;
    CanonicalDifference(address);
    Pow2Constants();
    FieldExact(HEAP_BASE, 12, 52);
    SplitOffset(BaseDistance(address));
  }

  lemma SplitOffset(offset: nat)
    requires offset < TWO_32 && offset % 0x40 == 0
    ensures Field(offset % TWO_32, 6, 26) * 0x40 + Field(offset, 32, 16) * TWO_32 == offset
  {
    hide Field, Pow2;
    Pow2Constants();
    FieldExact(offset, 6, 26);
    FieldExact(offset, 32, 16);
  }

  /** The system routine: SystemInstructionPointer (bits 4 up, 60 wide) relative to the same base. */
  lemma SipRebuilds(address: nat)
    requires HeapAddress(address)
    ensures Field(Decanonize(Canonize(HEAP_BASE)), 12, 52) * 0x1000 + Field(BaseDistance(address), 4, 60) * 0x10
            == Decanonize(Canonize(address))
  {
    hide Field, Canonize, Decanonize, BaseDistance, HeapAddress;
    CanonicalDifference(address);
    BaseField();
    AlignedDistance(address);
    DistanceField(BaseDistance(address));
  }

  lemma BaseField()
    ensures Field(HEAP_BASE, 12, 52) * 0x1000 == HEAP_BASE
  {
    hide Field, Pow2;
    Pow2Constants();
    FieldExact(HEAP_BASE, 12, 52);
  }

  lemma DistanceField(distance: nat)
    requires distance < TWO_32 && distance % 0x10 == 0
    ensures Field(distance, 4, 60) * 0x10 == distance
  {
    hide Field, Pow2;
    Pow2Constants();
    FieldExact(distance, 4, 60);
  }

  /** Indirect data: IndirectObjectBaseAddress holds the canonical base, and the walker's
      IndirectDataStartAddress (bits 6 up, 26 wide) rebuilds the address of any 64-aligned offset into a
      heap buffer. */
  lemma IndirectDataRebuilds(address: nat, offset: nat)
    requires HeapAddress(address) && offset % 64 == 0 && address + offset < HEAP_BASE + HEAP_SIZE
    ensures Field(Canonize(HEAP_BASE), 12, 52) * 0x1000 + Field(BaseDistance(address) + offset, 6, 26) * 0x40
            == Canonize(address) + offset
  {
    hide Field, Canonize, Decanonize, Pow2, BaseDistance;
    CanonicalDifference(address);
    var base, d := Canonize(HEAP_BASE), BaseDistance(address) + offset;
    assert base == 0xffff_8001_0000_0000;
    AlignedDistance(address);
    AlignedSum(address - HEAP_BASE, offset);
    Pow2Constants();
    FieldExact(base, 12, 52);
    FieldExact(d, 6, 26);
  }

  lemma AlignedSum(a: nat, b: nat)
    requires a % 0x40 == 0 && b % 0x40 == 0
    ensures (a + b) % 0x40 == 0
  {
  }

  /** A field wide enough for the value loses no bits but those below its shift. */
  lemma FieldExact(value: nat, shift: nat, width: nat)
    requires value < Pow2(shift + width)
    ensures Field(value, shift, width) * Pow2(shift) == value - value % Pow2(shift)
  {
    ShrDivides(value, shift);
    Pow2Add(shift, width);
    var q := Shr(value, shift);
    if q >= Pow2(width) {
      MulMonotone(Pow2(shift), Pow2(width), q);
    }
    DivModUnique(q, Pow2(width), 0, q);
  }
}
