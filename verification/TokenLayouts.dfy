/** The records of `driver/kernel.h` that the decoder reads, with their fields by name and in their order, and what
    decoding them yields.
 */
module TokenLayouts {
  import opened Options
  import opened Words
  import opened PatchTokens

  datatype Record =
    | DataParameter(kind: uint32, argumentNumber: uint32, offset: uint32, dataSize: uint32, sourceOffset: uint32,
                    locationIndex: uint32, locationIndex2: uint32, isEmulationArgument: uint32)
    | GlobalObject(argumentNumber: uint32, surfaceStateHeapOffset: uint32, locationIndex: uint32, locationIndex2: uint32,
                   isEmulationArgument: uint32)
    | StatelessGlobalObject(argumentNumber: uint32, surfaceStateHeapOffset: uint32, dataParamOffset: uint32,
                            dataParamSize: uint32, locationIndex: uint32, locationIndex2: uint32,
                            isEmulationArgument: uint32)
    | StatelessConstantObject(argumentNumber: uint32, surfaceStateHeapOffset: uint32, dataParamOffset: uint32,
                              dataParamSize: uint32, locationIndex: uint32, locationIndex2: uint32,
                              isEmulationArgument: uint32)
    | BindingTable(tableOffset: uint32, count: uint32, surfaceStateOffset: uint32)
    | ThreadPayload(headerPresent: uint32, localIdXPresent: uint32, localIdYPresent: uint32, localIdZPresent: uint32,
                    rest: seq<uint32>)
    | ExecutionEnvironment(requiredX: uint32, requiredY: uint32, requiredZ: uint32, largestCompiledSimdSize: uint32,
                           compiledSubGroupsNumber: uint32, hasBarriers: uint32, rest: seq<uint32>)
    | DataParameterStream(dataParameterStreamSize: uint32)
    | Other(token: Token)
  {
    /** A token of another number. */
    predicate Valid() { Other? ==> token.id !in {8, 11, 17, 22, 23, 25, 30, 31} }

    predicate IsPointer() { GlobalObject? || StatelessGlobalObject? || StatelessConstantObject? }
    predicate IsValue() { DataParameter? && kind == 1 }
    predicate IsLocalMemory() { DataParameter? && kind == 8 }

    /** Whether this says how argument a is given. */
    predicate Names(a: nat) { (IsValue() || IsLocalMemory() || IsPointer()) && argumentNumber == a }
  }

  /** The fields in memory. */
  function Fields(r: Record): seq<uint32>
    requires !r.Other?
  {
    match r
    case DataParameter(kind, argumentNumber, offset, dataSize, sourceOffset, index, index2, emulation) =>
      [kind, argumentNumber, offset, dataSize, sourceOffset, index, index2, emulation]
    case GlobalObject(argumentNumber, surfaceState, index, index2, emulation) =>
      [argumentNumber, surfaceState, index, index2, emulation]
    case StatelessGlobalObject(argumentNumber, surfaceState, offset, size, index, index2, emulation) =>
      [argumentNumber, surfaceState, offset, size, index, index2, emulation]
    case StatelessConstantObject(argumentNumber, surfaceState, offset, size, index, index2, emulation) =>
      [argumentNumber, surfaceState, offset, size, index, index2, emulation]
    case BindingTable(offset, count, surfaceStateOffset) => [offset, count, surfaceStateOffset]
    case ThreadPayload(header, x, y, z, rest) => [header, x, y, z] + rest
    case ExecutionEnvironment(x, y, z, simdSize, subGroups, barriers, rest) =>
      [x, y, z, simdSize, subGroups, barriers] + rest
    case DataParameterStream(size) => [size]
  }

  function Number(r: Record): uint32
  {
    match r
    case DataParameter(_, _, _, _, _, _, _, _) => 17
    case GlobalObject(_, _, _, _, _) => 11
    case StatelessGlobalObject(_, _, _, _, _, _, _) => 30
    case StatelessConstantObject(_, _, _, _, _, _, _) => 31
    case BindingTable(_, _, _) => 8
    case ThreadPayload(_, _, _, _, _) => 22
    case ExecutionEnvironment(_, _, _, _, _, _, _) => 23
    case DataParameterStream(_) => 25
    case Other(token) => token.id
  }

  function TokenOf(r: Record): (t: Token)
    ensures t.id == Number(r)
  {
    if r.Other? then r.token else Token(Number(r), DwordBytes(Fields(r)))
  }

  function TokensOf(rs: seq<Record>): (ts: seq<Token>)
    ensures |ts| == |rs| && forall i | 0 <= i < |rs| :: ts[i] == TokenOf(rs[i])
  {
    seq(|rs|, i requires 0 <= i < |rs| => TokenOf(rs[i]))
  }

  /** The fields of a record's token are the record's. */
  lemma FieldsReadBack(r: Record, i: nat)
    requires !r.Other? && i < |Fields(r)|
    ensures TokenOf(r).Field(i) == Fields(r)[i]
  {
    hide U32At, DwordBytes, Fields;
    DwordRoundTrip([], Fields(r), [], i);
    assert [] + DwordBytes(Fields(r)) + [] == DwordBytes(Fields(r));
  }

  // ---------- what the records say of arguments ----------

  /** A field that the driver keeps in 16 bits. */
  function Short(v: uint32): nat { v % 0x1_0000 }

  /** The piece of a value that a parameter record asks for. */
  function PieceOf(r: Record): Element
    requires r.DataParameter?
  {
    Element(crossThreadDataOffset := Short(r.offset), size := Short(r.dataSize), sourceOffset := Short(r.sourceOffset))
  }

  /** How a record other than a value's gives its argument. */
  function PointerIn(r: Record): ArgDescriptor
    requires r.IsLocalMemory() || r.IsPointer()
  {
    if r.DataParameter? then
      ArgLocal(argIsSet := false, crossThreadDataOffset := Short(r.offset), requiredSlmAlignment := Short(r.sourceOffset))
    else
      ArgBuffer(argIsSet := false, surfaceStateHeapOffset := Short(r.surfaceStateHeapOffset),
                crossThreadDataOffset := if r.GlobalObject? then 0 else Short(r.dataParamOffset))
  }

  /** How the records give argument a: the pieces of its value in order, or what the last record says. */
  function SlotIn(rs: seq<Record>, a: nat): Option<ArgDescriptor>
  {
    if rs == [] then None
    else
      var before, r := SlotIn(rs[..|rs| - 1], a), rs[|rs| - 1];
      if !r.Names(a) then before
      else if !r.IsValue() then Some(PointerIn(r))
      else if before.Some? && before.value.ArgValue? then Some(ArgValue(false, before.value.elements + [PieceOf(r)]))
      else Some(ArgValue(false, [PieceOf(r)]))
  }

  /** No argument is given both by value and by another kind of record. */
  ghost predicate Unmixed(rs: seq<Record>)
  {
    forall i, j, a: nat | 0 <= i < |rs| && 0 <= j < |rs| && rs[i].Names(a) && rs[j].Names(a) ::
      rs[i].IsValue() == rs[j].IsValue()
  }

  ghost predicate AllValid(rs: seq<Record>) { forall i | 0 <= i < |rs| :: rs[i].Valid() }

  /** The decoder's view of one record's token. */
  lemma TokenNames(r: Record, a: nat)
    requires r.Valid()
    ensures NamesArgument(TokenOf(r)) && ArgumentOf(TokenOf(r)) == a <==> r.Names(a)
    ensures r.IsValue() <==> IsImmediate(TokenOf(r))
    ensures r.IsValue() ==> ElementOf(TokenOf(r)) == PieceOf(r)
    ensures r.Names(a) && !r.IsValue() ==> PointerOf(TokenOf(r)) == PointerIn(r)
  {
    hide Token.Field, DwordBytes;
    if r.DataParameter? {
      FieldsReadBack(r, 0);
      FieldsReadBack(r, 1);
      FieldsReadBack(r, 2);
      FieldsReadBack(r, 3);
      FieldsReadBack(r, 4);
    } else if r.IsPointer() {
      FieldsReadBack(r, 0);
      FieldsReadBack(r, 1);
      if !r.GlobalObject? { FieldsReadBack(r, 2); }
    }
  }

  // ---------- what is decoded ----------

  /** The decoder's fields after these records. */
  function Read(rs: seq<Record>): (d: Decoded)
    ensures |d.localWorkSize| == 3 && |d.localWorkSize2| == 3
  {
    DecodeAll(NOTHING, TokensOf(rs))
  }

  lemma ReadOneMore(rs: seq<Record>)
    ensures Read([]) == NOTHING
    ensures rs != [] ==> Read(rs) == Decode(Read(rs[..|rs| - 1]), TokenOf(rs[|rs| - 1]))
  {
    hide Decode, TokenOf;
    if rs != [] {
      assert TokensOf(rs)[..|rs| - 1] == TokensOf(rs[..|rs| - 1]);
    }
  }

  lemma {:induction false} SlotKind(rs: seq<Record>, a: nat)
    ensures SlotIn(rs, a).None?
            || exists i :: 0 <= i < |rs| && rs[i].Names(a) && rs[i].IsValue() == SlotIn(rs, a).value.ArgValue?
    ensures SlotIn(rs, a).Some? ==> !SlotIn(rs, a).value.argIsSet
  {
    hide PieceOf;
    if rs != [] {
      var shorter, r := rs[..|rs| - 1], rs[|rs| - 1];
      SlotKind(shorter, a);
      if r.Names(a) {
        assert rs[|rs| - 1] == r;
      } else if SlotIn(shorter, a).Some? {
        var i :| 0 <= i < |shorter| && shorter[i].Names(a) && shorter[i].IsValue() == SlotIn(shorter, a).value.ArgValue?;
        assert rs[i] == shorter[i];
      }
    }
  }

  lemma {:induction false} ShorterIsValid(rs: seq<Record>)
    requires rs != [] && AllValid(rs) && Unmixed(rs)
    ensures AllValid(rs[..|rs| - 1]) && Unmixed(rs[..|rs| - 1]) && rs[|rs| - 1].Valid()
  {
    var shorter := rs[..|rs| - 1];
    assert forall i | 0 <= i < |shorter| :: shorter[i] == rs[i];
  }

  lemma ValueAfterValues(rs: seq<Record>, a: nat)
    requires rs != [] && Unmixed(rs) && rs[|rs| - 1].Names(a) && rs[|rs| - 1].IsValue()
    ensures var before := SlotIn(rs[..|rs| - 1], a); before.Some? ==> before.value.ArgValue? && !before.value.argIsSet
  {
    hide Record.Names, Record.IsValue, SlotIn;
    var shorter := rs[..|rs| - 1];
    SlotKind(shorter, a);
    if SlotIn(shorter, a).Some? {
      var i :| 0 <= i < |shorter| && shorter[i].Names(a) && shorter[i].IsValue() == SlotIn(shorter, a).value.ArgValue?;
      assert rs[i] == shorter[i];
    }
  }

  /** Every slot of the argument table is what the records say of its argument. */
  lemma {:induction false} SlotsAreRead(rs: seq<Record>)
    requires AllValid(rs) && Unmixed(rs)
    ensures forall a: nat :: Entry(Read(rs).argDescriptor, a) == SlotIn(rs, a)
    decreases |rs|
  {
    hide Decode, DecodeArgument, NamesArgument, ArgumentOf, IsImmediate, ElementOf, PointerOf, TokenOf, PieceOf, PointerIn,
         Record.Names, Record.IsValue, Record.Valid, Read, Unmixed, AllValid;
    ReadOneMore(rs);
    if rs != [] {
      var shorter, r := rs[..|rs| - 1], rs[|rs| - 1];
      ShorterIsValid(rs);
      SlotsAreRead(shorter);
      var before, t := Read(shorter), TokenOf(r);
      DecodeTable(before, t);
      if NamesArgument(t) {
        TableGrows(before.argDescriptor, t);
      }
      forall a: nat ensures Entry(Read(rs).argDescriptor, a) == SlotIn(rs, a)
      {
        TokenNames(r, a);
        if r.Names(a) && r.IsValue() { ValueAfterValues(rs, a); }
      }
    }
  }

  /** A value's slot holds the piece of each of its records. */
  lemma {:induction false} PieceIsThere(rs: seq<Record>, i: nat, a: nat)
    requires Unmixed(rs) && i < |rs| && rs[i].Names(a) && rs[i].IsValue()
    ensures SlotIn(rs, a).Some? && SlotIn(rs, a).value.ArgValue?
    ensures exists e :: 0 <= e < |SlotIn(rs, a).value.elements| && SlotIn(rs, a).value.elements[e] == PieceOf(rs[i])
    decreases |rs|
  {
    hide PieceOf, PointerIn, Record.Names;
    var n := |rs| - 1;
    var shorter, r := rs[..n], rs[n];
    assert r.Names(a) ==> r.IsValue();
    if i == n {
      var es := SlotIn(rs, a).value.elements;
      assert es[|es| - 1] == PieceOf(r);
    } else {
      assert Unmixed(shorter) by { assert forall k | 0 <= k < |shorter| :: shorter[k] == rs[k]; }
      PieceIsThere(shorter, i, a);
      var es := SlotIn(shorter, a).value.elements;
      var e :| 0 <= e < |es| && es[e] == PieceOf(rs[i]);
      assert SlotIn(rs, a).value.elements[e] == PieceOf(rs[i]);
    }
  }

  /** Without a later record of its argument, a pointer's counts. */
  lemma {:induction false} LastPointerCounts(rs: seq<Record>, i: nat, a: nat)
    requires i < |rs| && rs[i].Names(a) && !rs[i].IsValue() && forall j | i < j < |rs| :: !rs[j].Names(a)
    ensures SlotIn(rs, a) == Some(PointerIn(rs[i]))
    decreases |rs|
  {
    hide PointerIn, Record.Names;
    if i < |rs| - 1 {
      LastPointerCounts(rs[..|rs| - 1], i, a);
    }
  }

  // ---------- work sizes ----------

  /** A parameter record of this kind for dimension i (its source offset counts bytes). */
  predicate Wants(r: Record, kind: uint32, i: nat) { r.DataParameter? && r.kind == kind && r.sourceOffset / 4 == i }

  /** Where the last such record wants its size. */
  function LastPlace(rs: seq<Record>, kind: uint32, i: nat): Option<nat>
  {
    if rs == [] then None
    else if Wants(rs[|rs| - 1], kind, i) then Some(rs[|rs| - 1].offset)
    else LastPlace(rs[..|rs| - 1], kind, i)
  }

  function FirstPlace(rs: seq<Record>, kind: uint32, i: nat): Option<nat>
  {
    if rs == [] then None
    else if Wants(rs[0], kind, i) then Some(rs[0].offset)
    else FirstPlace(rs[1..], kind, i)
  }

  /** The last of several. */
  function LaterPlace(rs: seq<Record>, kind: uint32, i: nat): Option<nat>
  {
    if rs == [] then None
    else if Wants(rs[0], kind, i) then LastPlace(rs[1..], kind, i)
    else LaterPlace(rs[1..], kind, i)
  }

  /** Where the last record that asks for the number of dimensions wants it. */
  function DimensionsPlace(rs: seq<Record>): Option<nat>
  {
    if rs == [] then None
    else
      var r := rs[|rs| - 1];
      if r.DataParameter? && r.kind == 5 then Some(r.offset) else DimensionsPlace(rs[..|rs| - 1])
  }

  lemma TokenWants(r: Record, kind: uint32, i: nat)
    requires r.Valid()
    ensures IsParameter(TokenOf(r), kind) && Dimension(TokenOf(r)) == i <==> Wants(r, kind, i)
    ensures IsParameter(TokenOf(r), kind) <==> r.DataParameter? && r.kind == kind
    ensures TokenOf(r).id == 17 <==> r.DataParameter?
    ensures r.DataParameter? ==> TokenOf(r).Field(0) == r.kind && TokenOf(r).Field(2) == r.offset
    ensures r.DataParameter? ==> Dimension(TokenOf(r)) == r.sourceOffset / 4
  {
    hide Token.Field, DwordBytes;
    if r.DataParameter? {
      FieldsReadBack(r, 0);
      FieldsReadBack(r, 2);
      FieldsReadBack(r, 4);
    }
  }

  lemma WorkSizeStep(s: Decoded, t: Token, kind: uint32, i: nat)
    requires |s.localWorkSize| == 3 && |s.localWorkSize2| == 3
    requires (kind in {3, 4, 16, 28} && i <= 2) || (kind == 5 && i == 0)
    ensures Decode(s, t).PlaceIn(kind, i) ==
            if IsParameter(t, kind) && (kind == 5 || Dimension(t) == i) then Some(t.Field(2)) else s.PlaceIn(kind, i)
  {
    hide Token.Field, DecodeArgument;
  }

  /** For global and enqueued sizes, group counts and offsets, the last record of each dimension counts. */
  lemma {:induction false} WorkSizesAreRead(rs: seq<Record>, kind: uint32, i: nat)
    requires AllValid(rs) && kind in {3, 4, 16, 28} && i <= 2
    ensures Read(rs).PlaceIn(kind, i) == LastPlace(rs, kind, i)
    decreases |rs|
  {
    hide Decode, Wants, IsParameter, Dimension, TokenOf, Token.Field, Read, Decoded.PlaceIn, Record.Valid;
    ReadOneMore(rs);
    if rs == [] {
      NothingPlaced(kind, i);
    } else {
      var shorter, r := rs[..|rs| - 1], rs[|rs| - 1];
      assert forall k | 0 <= k < |shorter| :: shorter[k] == rs[k];
      WorkSizesAreRead(shorter, kind, i);
      WorkSizeStep(Read(shorter), TokenOf(r), kind, i);
      TokenWants(r, kind, i);
      WantsIsParameter(r, kind, i);
    }
  }

  lemma WantsIsParameter(r: Record, kind: uint32, i: nat)
    ensures Wants(r, kind, i) ==> r.DataParameter?
  {
  }

  lemma NothingPlaced(kind: uint32, i: nat)
    ensures NOTHING.PlaceIn(kind, i) == None
  {
  }

  lemma {:induction false} DimensionsAreRead(rs: seq<Record>)
    requires AllValid(rs)
    ensures Read(rs).PlaceIn(5, 0) == DimensionsPlace(rs)
    decreases |rs|
  {
    hide Decode, IsParameter, Dimension, TokenOf, Token.Field, Read, Decoded.PlaceIn, Record.Valid;
    ReadOneMore(rs);
    if rs == [] {
      NothingPlaced(5, 0);
    } else {
      var shorter, r := rs[..|rs| - 1], rs[|rs| - 1];
      assert forall k | 0 <= k < |shorter| :: shorter[k] == rs[k];
      DimensionsAreRead(shorter);
      WorkSizeStep(Read(shorter), TokenOf(r), 5, 0);
      TokenWants(r, 5, 0);
    }
  }

  lemma {:induction false} FirstAppended(rs: seq<Record>, r: Record, kind: uint32, i: nat)
    ensures FirstPlace(rs + [r], kind, i) ==
            if FirstPlace(rs, kind, i).None? && Wants(r, kind, i) then Some(r.offset) else FirstPlace(rs, kind, i)
    decreases |rs|
  {
    hide Wants;
    WantsIsParameter(r, kind, i);
    if rs != [] {
      FirstAppended(rs[1..], r, kind, i);
      assert (rs + [r])[1..] == rs[1..] + [r];
    }
  }

  lemma {:induction false} LaterAppended(rs: seq<Record>, r: Record, kind: uint32, i: nat)
    ensures LaterPlace(rs + [r], kind, i) ==
            if FirstPlace(rs, kind, i).Some? && Wants(r, kind, i) then Some(r.offset) else LaterPlace(rs, kind, i)
    decreases |rs|
  {
    hide Wants;
    WantsIsParameter(r, kind, i);
    if rs == [] {
      assert ([] + [r])[1..] == [];
    } else {
      LaterAppended(rs[1..], r, kind, i);
      assert (rs + [r])[1..] == rs[1..] + [r];
      assert (rs[1..] + [r])[..|rs[1..]|] == rs[1..];
    }
  }

  /** For local sizes, the first record of each dimension and the last of the others count. */
  lemma {:induction false} LocalSizesAreRead(rs: seq<Record>, i: nat)
    requires AllValid(rs) && i < 3
    ensures PlaceOf(Read(rs).localWorkSize[i]) == FirstPlace(rs, 2, i)
    ensures PlaceOf(Read(rs).localWorkSize2[i]) == LaterPlace(rs, 2, i)
    decreases |rs|
  {
    hide Decode, IsParameter, Dimension, TokenOf, Token.Field, Read, Record.Valid, Wants, FirstPlace, LaterPlace;
    ReadOneMore(rs);
    if rs == [] {
      NothingFirst(i);
    } else {
      var shorter, r := rs[..|rs| - 1], rs[|rs| - 1];
      assert forall k | 0 <= k < |shorter| :: shorter[k] == rs[k];
      LocalSizesAreRead(shorter, i);
      LocalSizeStep(Read(shorter), TokenOf(r), i);
      TokenWants(r, 2, i);
      WantsIsParameter(r, 2, i);
      FirstAppended(shorter, r, 2, i);
      LaterAppended(shorter, r, 2, i);
      assert rs == shorter + [r];
    }
  }

  lemma NothingFirst(i: nat)
    ensures FirstPlace([], 2, i) == None && LaterPlace([], 2, i) == None
  {
  }

  // ---------- metadata ----------

  /** The last record with this number. */
  function LastNumbered(rs: seq<Record>, number: uint32): (r: Option<Record>)
    ensures r.Some? ==> Number(r.value) == number && r.value in rs
  {
    if rs == [] then None
    else if Number(rs[|rs| - 1]) == number then Some(rs[|rs| - 1])
    else LastNumbered(rs[..|rs| - 1], number)
  }

  /** Of the records that are kept as they are, the last one of each number is. */
  lemma {:induction false} LastIsKept(rs: seq<Record>, number: uint32)
    requires number in {8, 22, 23, 25}
    ensures var r := LastNumbered(rs, number);
            if r.None? then number !in Read(rs).recorded
            else number in Read(rs).recorded && Read(rs).recorded[number] == TokenOf(r.value)
    decreases |rs|
  {
    hide Decode, TokenOf, Read, Number;
    ReadOneMore(rs);
    if rs != [] {
      LastIsKept(rs[..|rs| - 1], number);
      RecordStep(Read(rs[..|rs| - 1]), TokenOf(rs[|rs| - 1]), number);
    }
  }

  /** The table's place and number of entries. */
  lemma TableIsKept(rs: seq<Record>)
    requires AllValid(rs) && LastNumbered(rs, 8).Some?
    ensures LastNumbered(rs, 8).value.BindingTable? && 8 in Read(rs).recorded
    ensures var r, t := LastNumbered(rs, 8).value, Read(rs).recorded[8];
            t.Field(0) == r.tableOffset && t.Field(1) == r.count
  {
    hide Read, Token.Field;
    LastIsKept(rs, 8);
    assert LastNumbered(rs, 8).value.Valid();
    FieldsReadBack(LastNumbered(rs, 8).value, 0);
    FieldsReadBack(LastNumbered(rs, 8).value, 1);
  }

  /** The flags of the IDs that a kernel reads. */
  lemma PayloadIsKept(rs: seq<Record>)
    requires AllValid(rs) && LastNumbered(rs, 22).Some?
    ensures LastNumbered(rs, 22).value.ThreadPayload? && 22 in Read(rs).recorded
    ensures var r, t := LastNumbered(rs, 22).value, Read(rs).recorded[22];
            t.Field(1) == r.localIdXPresent && t.Field(2) == r.localIdYPresent && t.Field(3) == r.localIdZPresent
  {
    hide Read, Token.Field;
    LastIsKept(rs, 22);
    var r := LastNumbered(rs, 22).value;
    assert r.Valid();
    FieldsReadBack(r, 1);
    FieldsReadBack(r, 2);
    FieldsReadBack(r, 3);
  }

  /** Required sizes, the SIMD size and barriers. */
  lemma EnvironmentIsKept(rs: seq<Record>)
    requires AllValid(rs) && LastNumbered(rs, 23).Some?
    ensures LastNumbered(rs, 23).value.ExecutionEnvironment? && 23 in Read(rs).recorded
    ensures var r, t := LastNumbered(rs, 23).value, Read(rs).recorded[23];
            && t.Field(0) == r.requiredX && t.Field(1) == r.requiredY && t.Field(2) == r.requiredZ
            && t.Field(3) == r.largestCompiledSimdSize && t.Field(5) == r.hasBarriers
  {
    hide Read, Token.Field;
    LastIsKept(rs, 23);
    var r := LastNumbered(rs, 23).value;
    assert r.Valid();
    FieldsReadBack(r, 0);
    FieldsReadBack(r, 1);
    FieldsReadBack(r, 2);
    FieldsReadBack(r, 3);
    FieldsReadBack(r, 5);
  }

  /** The size of the cross-thread data. */
  lemma StreamIsKept(rs: seq<Record>)
    requires AllValid(rs) && LastNumbered(rs, 25).Some?
    ensures LastNumbered(rs, 25).value.DataParameterStream? && 25 in Read(rs).recorded
    ensures Read(rs).recorded[25].Field(0) == LastNumbered(rs, 25).value.dataParameterStreamSize
  {
    hide Read, Token.Field;
    LastIsKept(rs, 25);
    assert LastNumbered(rs, 25).value.Valid();
    FieldsReadBack(LastNumbered(rs, 25).value, 0);
  }

  // ---------- from bytes ----------

  ghost predicate AllEncodable(rs: seq<Record>) { forall i | 0 <= i < |rs| :: Encodable(TokenOf(rs[i])) }

  /** Walking the bytes of records decodes them, all but a last one without fields. */
  lemma BytesAreRead(rs: seq<Record>)
    requires AllEncodable(rs)
    ensures Walk2(Encode(TokensOf(rs))).Some?
    ensures rs != [] && TokenOf(rs[|rs| - 1]).Size() > 8 ==>
              DecodeAll(NOTHING, Walk2(Encode(TokensOf(rs))).value) == Read(rs)
  {
    hide TokenOf, Walk2, Encode, DecodeAll;
    WalkVisitsEncodedTokens(TokensOf(rs));
  }
}
