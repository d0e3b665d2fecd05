/** `createSurfaceStateHeap`: a kernel's surface states and binding table are appended to the heap, and the
    table's pointers are rebased.
 */
module SurfaceHeap {
  import opened Bits
  import opened Words
  import opened DriverUtils
  import opened BufferObjects

  const SURFACE_STATE_SIZE: nat := 64

  /** Entry i of a binding table; its pointer are the bits from 6 up. */
  function Entry(m: seq<byte>, table: nat, i: nat): uint32
    requires table + 4 * i + 4 <= |m|
  {
    U32At(m, table + 4 * i)
  }

  function Pointer(entry: uint32): nat { entry / 0x40 * 0x40 }

  /** An entry of the copied table: the field is shifted out, the heap offset added in 32 bits, and the sum
      shifted back in. */
  function Rebase(entry: uint32, start: nat): uint32
  {
    var localSurfaceStateOffset := entry / 0x40 * 0x40;
    var offseted := (localSurfaceStateOffset + start) % TWO_32;
    offseted / 0x40 * 0x40
  }

  /** The kernel's blob with the first n entries of its table rebased. */
  function Relocated(blob: seq<byte>, table: nat, n: nat, start: nat): (r: seq<byte>)
    requires table + 4 * n <= |blob|
    ensures |r| == |blob|
  {
    if n == 0 then blob
    else Patch(Relocated(blob, table, n - 1, start), table + 4 * (n - 1), U32Bytes(Rebase(Entry(blob, table, n - 1), start)))
  }

  /** A kernel's surface-state blob with a binding table of `count` entries at `table`. */
  datatype Surfaces = Surfaces(blob: seq<byte>, table: nat, count: nat)
  {
    predicate Valid() { count > 0 ==> table + 4 * count <= |blob| }
  }

  /** Bytes a launch reserves: one surface state and one entry per binding. */
  function Reserved(count: nat): nat { count * SURFACE_STATE_SIZE + count * 4 }

  /** The heap offset after a launch. */
  function NextOffset(offset: nat, count: nat): nat
  {
    if count == 0 then offset else Ceil(offset + Reserved(count), CACHE_LINE_SIZE)
  }

  /** `createSurfaceStateHeap` on an allocated heap. */
  method AppendSurfaces(bo: BufferObject, k: Surfaces)
    requires bo.Valid() && k.Valid() && bo.cpuAddress.Length <= TWO_32
    requires k.count > 0 ==> bo.offset + |k.blob| <= bo.cpuAddress.Length
    requires NextOffset(bo.offset, k.count) <= bo.cpuAddress.Length
    modifies bo`offset, bo.cpuAddress
    ensures bo.Valid() && bo.offset == NextOffset(old(bo.offset), k.count)
    ensures bo.cpuAddress[..] ==
            if k.count == 0 then old(bo.cpuAddress[..])
            else Patch(old(bo.cpuAddress[..]), old(bo.offset), Relocated(k.blob, k.table, k.count, old(bo.offset)))
  {
    if k.count == 0 {
      return;
    }
    CopyAndRebase(bo.cpuAddress, k, bo.offset);
    hide Relocated, Patch, AlignUp;
    bo.offset := bo.offset + k.count * SURFACE_STATE_SIZE;
    bo.offset := bo.offset + k.count * 4;
    AlignUpTo64(bo.offset);
    CeilIsLeastMultiple(bo.offset, CACHE_LINE_SIZE, 0);
    bo.offset := AlignUp(bo.offset, CACHE_LINE_SIZE);
  }

  /** The copy of the blob to the heap, and the loop over its table. */
  method CopyAndRebase(heap: array<byte>, k: Surfaces, surfaceStatesOffset: nat)
    requires k.Valid() && k.count > 0 && surfaceStatesOffset + |k.blob| <= heap.Length
    modifies heap
    ensures heap[..] ==
            Patch(old(heap[..]), surfaceStatesOffset, Relocated(k.blob, k.table, k.count, surfaceStatesOffset))
  {
    hide Entry, Rebase, Relocated, Patch, U32Bytes;
    ghost var before := heap[..];
    RelocatedNext(before, k, surfaceStatesOffset, 0);
    CopyInto(heap, surfaceStatesOffset, k.blob);
    var i := 0;
    while i != k.count
      invariant 0 <= i <= k.count
      invariant heap[..] == Patch(before, surfaceStatesOffset, Relocated(k.blob, k.table, i, surfaceStatesOffset))
    {
      var bti := Rebase(Entry(k.blob, k.table, i), surfaceStatesOffset);
      RelocatedNext(before, k, surfaceStatesOffset, i);
      CopyInto(heap, surfaceStatesOffset + k.table + 4 * i, U32Bytes(bti));
      i := i + 1;
    }
  }

  lemma RelocatedNext(before: seq<byte>, k: Surfaces, start: nat, i: nat)
    requires k.Valid() && i < k.count && start + |k.blob| <= |before|
    ensures Relocated(k.blob, k.table, 0, start) == k.blob
    ensures Patch(Patch(before, start, Relocated(k.blob, k.table, i, start)), start + k.table + 4 * i,
                  U32Bytes(Rebase(Entry(k.blob, k.table, i), start)))
            == Patch(before, start, Relocated(k.blob, k.table, i + 1, start))
  {
    hide Entry, Rebase, Patch, U32Bytes;
    PatchInside(before, start, Relocated(k.blob, k.table, i, start), k.table + 4 * i,
                U32Bytes(Rebase(Entry(k.blob, k.table, i), start)));
  }

  // ---------- what relocation means ----------

  /** Relocation rewrites exactly the table: entry i becomes the rebased entry i. */
  lemma {:induction false} RelocatedEntry(blob: seq<byte>, table: nat, n: nat, start: nat, i: nat)
    requires table + 4 * n <= |blob| && i < n
    ensures Entry(Relocated(blob, table, n, start), table, i) == Rebase(Entry(blob, table, i), start)
  {
    hide U32At, U32Bytes, Rebase;
    var before := Relocated(blob, table, n - 1, start);
    var bytes := U32Bytes(Rebase(Entry(blob, table, n - 1), start));
    var after := Patch(before, table + 4 * (n - 1), bytes);
    if i == n - 1 {
      U32RoundTrip(before[..table + 4 * i], Rebase(Entry(blob, table, i), start), before[table + 4 * i + 4..]);
    } else {
      RelocatedEntry(blob, table, n - 1, start, i);
      U32Local(after, table + 4 * i, before, table + 4 * i);
    }
  }

  lemma {:induction false} RelocatedElsewhere(blob: seq<byte>, table: nat, n: nat, start: nat, at: nat)
    requires table + 4 * n <= |blob| && at < |blob| && !(table <= at < table + 4 * n)
    ensures Relocated(blob, table, n, start)[at] == blob[at]
  {
    if n > 0 { RelocatedElsewhere(blob, table, n - 1, start, at); }
  }

  /** Surface state i of a blob lies inside it and outside the table. */
  predicate StateInBlob(k: Surfaces, i: nat)
    requires k.Valid() && i < k.count
  {
    var p := Pointer(Entry(k.blob, k.table, i));
    p + SURFACE_STATE_SIZE <= |k.blob| && (p + SURFACE_STATE_SIZE <= k.table || k.table + 4 * k.count <= p)
  }

  /** Following the relocated entry i from the heap's base reaches a byte-for-byte copy of the surface state
      that the source entry i named. */
  lemma RelocationKeepsMeaning(heap: seq<byte>, start: nat, k: Surfaces, i: nat)
    requires k.Valid() && i < k.count && StateInBlob(k, i)
    requires start % 64 == 0 && start + |k.blob| <= |heap| <= TWO_32
    ensures var after := Patch(heap, start, Relocated(k.blob, k.table, k.count, start));
            var source, target := Pointer(Entry(k.blob, k.table, i)), Pointer(Entry(after, start + k.table, i));
            && target == start + source
            && after[target..target + SURFACE_STATE_SIZE] == k.blob[source..source + SURFACE_STATE_SIZE]
  {
    hide Relocated, Rebase, Pointer;
    var relocated := Relocated(k.blob, k.table, k.count, start);
    var source := Pointer(Entry(k.blob, k.table, i));
    EntryInPatch(heap, start, relocated, k.table, i);
    RelocatedEntry(k.blob, k.table, k.count, start, i);
    RebaseExact(Entry(k.blob, k.table, i), start);
    StateUntouched(k, start, i);
    SliceOfPatch(heap, start, relocated, source, source + SURFACE_STATE_SIZE);
  }

  /** So in a heap that holds the relocated blob, entry i of its table leads to a copy of the state it stood for. */
  lemma EntryLeadsToState(m: seq<byte>, start: nat, k: Surfaces, i: nat)
    requires k.Valid() && i < k.count && StateInBlob(k, i) && start % 64 == 0 && |m| <= TWO_32
    requires start + |k.blob| <= |m| && m[start..start + |k.blob|] == Relocated(k.blob, k.table, k.count, start)
    ensures var source, target := Pointer(Entry(k.blob, k.table, i)), Pointer(Entry(m, start + k.table, i));
            target == start + source
            && m[target..target + SURFACE_STATE_SIZE] == k.blob[source..source + SURFACE_STATE_SIZE]
  {
    hide Relocated, Pointer, Entry;
    RelocationKeepsMeaning(m, start, k, i);
    SamePatch(m, start, Relocated(k.blob, k.table, k.count, start));
  }

  lemma SamePatch(m: seq<byte>, at: nat, bytes: seq<byte>)
    requires at + |bytes| <= |m| && m[at..at + |bytes|] == bytes
    ensures Patch(m, at, bytes) == m
  {
    forall i | at <= i < at + |bytes| ensures bytes[i - at] == m[i] { assert m[at..at + |bytes|][i - at] == m[i]; }
  }

  lemma EntryInPatch(heap: seq<byte>, start: nat, blob: seq<byte>, table: nat, i: nat)
    requires start + |blob| <= |heap| && table + 4 * i + 4 <= |blob|
    ensures Entry(Patch(heap, start, blob), start + table, i) == Entry(blob, table, i)
  {
    SliceOfPatch(heap, start, blob, table + 4 * i, table + 4 * i + 4);
    U32Local(Patch(heap, start, blob), start + table + 4 * i, blob, table + 4 * i);
  }

  lemma SliceOfPatch(heap: seq<byte>, start: nat, blob: seq<byte>, lo: nat, hi: nat)
    requires start + |blob| <= |heap| && lo <= hi <= |blob|
    ensures Patch(heap, start, blob)[start + lo..start + hi] == blob[lo..hi]
  {
  }

  lemma StateUntouched(k: Surfaces, start: nat, i: nat)
    requires k.Valid() && i < k.count && StateInBlob(k, i)
    ensures var p := Pointer(Entry(k.blob, k.table, i));
            Relocated(k.blob, k.table, k.count, start)[p..p + SURFACE_STATE_SIZE] == k.blob[p..p + SURFACE_STATE_SIZE]
  {
    hide Relocated;
    var p := Pointer(Entry(k.blob, k.table, i));
    forall at | p <= at < p + SURFACE_STATE_SIZE
      ensures Relocated(k.blob, k.table, k.count, start)[at] == k.blob[at]
    {
      RelocatedElsewhere(k.blob, k.table, k.count, start, at);
    }
  }

  /** At a 64-aligned place rebasing adds the place and loses no bits. */
  lemma RebaseExact(entry: uint32, start: nat)
    requires start % 64 == 0 && Pointer(entry) + start < TWO_32
    ensures Pointer(Rebase(entry, start)) == start + Pointer(entry)
  {
    var q, s := entry / 0x40, start / 0x40;
    assert start == 0x40 * s;
    DivModUnique(0x40 * (q + s), 0x40, q + s, 0);
  }

  // ---------- the pointer to the table ----------

  /** The interface descriptor's BindingTablePointer (bits 5 to 15), computed backwards from the heap's end. */
  function BindingTablePointer(offset: nat): nat
    requires offset >= CACHE_LINE_SIZE
  {
    (offset - CACHE_LINE_SIZE) % TWO_32 / 0x20 % 0x800
  }

  /** The place the hardware derives from it. */
  function BindingTablePlace(offset: nat): nat
    requires offset >= CACHE_LINE_SIZE
  {
    BindingTablePointer(offset) * 0x20
  }

  /** With the table right behind n surface states, the programmed pointer names the place where the table was
      written exactly for one to sixteen entries. */
  lemma TablePointerIff(start: nat, n: nat)
    requires start % 64 == 0 && start >= 64 && NextOffset(start, n) <= 0x1_0000
    ensures NextOffset(start, n) % 64 == 0 && NextOffset(start, n) >= start
    ensures BindingTablePlace(NextOffset(start, n)) == start + n * SURFACE_STATE_SIZE <==> 1 <= n <= 16
  {
    hide BindingTablePlace, Ceil;
    var end := NextOffset(start, n);
    CeilIsLeastMultiple(start + Reserved(n), CACHE_LINE_SIZE, 0);
    BackwardsPlace(end);
    if n >= 1 {
      CeilShift(start, Reserved(n));
      CeilShift(n * 64, n * 4);
      TableOfOneLine(n);
    }
  }

  /** Sixteen entries fill a cache line. */
  lemma TableOfOneLine(n: nat)
    requires n >= 1
    ensures Ceil(n * 4, 64) == 64 <==> n <= 16
  {
    hide Ceil;
    CeilIsLeastMultiple(n * 4, 64, 64);
  }

  lemma BackwardsPlace(end: nat)
    requires end % 64 == 0 && 64 <= end <= 0x1_0000
    ensures BindingTablePlace(end) == end - 64
  {
    var q := end / 64;
    assert end == 64 * q;
    DivModUnique(end - 64, 0x20, 2 * q - 2, 0);
    DivModUnique(2 * q - 2, 0x800, 0, 2 * q - 2);
  }

  /** For a table anywhere else in the blob: the pointer is right exactly when the table starts one cache line
      before the aligned end of what the launch reserved. */
  lemma TablePointerAnywhere(start: nat, k: Surfaces)
    requires start % 64 == 0 && start >= 64 && NextOffset(start, k.count) <= 0x1_0000 && k.count > 0
    ensures BindingTablePlace(NextOffset(start, k.count)) == start + k.table
            <==> k.table == Ceil(Reserved(k.count), CACHE_LINE_SIZE) - CACHE_LINE_SIZE
  {
    CeilIsLeastMultiple(start + Reserved(k.count), CACHE_LINE_SIZE, 0);
    CeilShift(start, Reserved(k.count));
    BackwardsPlace(NextOffset(start, k.count));
  }
}
