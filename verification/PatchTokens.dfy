/** The patch-token walk of `driver/kernel.cpp`, on bytes, and what a decoded token list means. */
module PatchTokens {
  import opened Options
  import opened Bits
  import opened Words

  /** A token: its number, and the bytes after its eight-byte header. */
  datatype Token = Token(id: uint32, payload: seq<byte>)
  {
    function Size(): nat { 8 + |payload| }

    /** The k-th 32-bit field after the header (zero when the payload is too short for it). */
    function Field(k: nat): uint32
    {
      if 4 * k + 4 <= |payload| then U32At(payload, 4 * k) else 0
    }
  }

  // ---------- bytes ----------

  predicate Encodable(t: Token) { t.Size() < 0x1_0000_0000 }

  function EncodeToken(t: Token): seq<byte>
    requires Encodable(t)
  {
    U32Bytes(t.id) + U32Bytes(t.Size()) + t.payload
  }

  function Encode(ts: seq<Token>): seq<byte>
    requires forall i | 0 <= i < |ts| :: Encodable(ts[i])
  {
    if ts == [] then [] else EncodeToken(ts[0]) + Encode(ts[1..])
  }

  /** The token at the start of a blob. */
  function Head(blob: seq<byte>): (t: Token)
    requires |blob| > 8 && 8 <= U32At(blob, 4) <= |blob|
  {
    Token(U32At(blob, 0), blob[8..U32At(blob, 4)])
  }

  /** `decodePatchtokensList2`: visit tokens while more than a header is left.  None where a size field is
      below the header size or leads past the end, for which the driver's loop has no meaning. */
  function Walk2(blob: seq<byte>): Option<seq<Token>>
    decreases |blob|
  {
    if |blob| <= 8 then Some([])
    else
      var size := U32At(blob, 4);
      if size < 8 || size > |blob| then None
      else
        match Walk2(blob[size..])
        case None => None
        case Some(rest) => Some([Head(blob)] + rest)
  }

  /** `decodePatchtokensList1`: the same, but only over leading tokens 41 and 42. */
  function Walk1(blob: seq<byte>): Option<seq<Token>>
    decreases |blob|
  {
    if |blob| <= 8 || (U32At(blob, 0) != 41 && U32At(blob, 0) != 42) then Some([])
    else
      var size := U32At(blob, 4);
      if size < 8 || size > |blob| then None
      else
        match Walk1(blob[size..])
        case None => None
        case Some(rest) => Some([Head(blob)] + rest)
  }

  lemma Walk2Step(blob: seq<byte>)
    requires Walk2(blob).Some? && |blob| > 8
    ensures 8 <= U32At(blob, 4) <= |blob|
    ensures var rest := Walk2(blob[U32At(blob, 4)..]);
            rest.Some? && Walk2(blob).value == [Head(blob)] + rest.value
  {
  }

  lemma Walk1Step(blob: seq<byte>)
    requires Walk1(blob).Some? && |blob| > 8 && (U32At(blob, 0) == 41 || U32At(blob, 0) == 42)
    ensures 8 <= U32At(blob, 4) <= |blob|
    ensures var rest := Walk1(blob[U32At(blob, 4)..]);
            rest.Some? && Walk1(blob).value == [Head(blob)] + rest.value
  {
  }

  /** The walk never looks at a final token that is a bare header. */
  function Visited(ts: seq<Token>): seq<Token>
  {
    if ts != [] && ts[|ts| - 1].Size() == 8 then ts[..|ts| - 1] else ts
  }

  function LeadingProgramTokens(ts: seq<Token>): seq<Token>
  {
    if ts == [] || (ts[0].id != 41 && ts[0].id != 42) then [] else [ts[0]] + LeadingProgramTokens(ts[1..])
  }

  lemma HeadOfEncoding(t: Token, rest: seq<byte>)
    requires Encodable(t)
    ensures var blob := EncodeToken(t) + rest;
            && |blob| == t.Size() + |rest| && U32At(blob, 0) == t.id && U32At(blob, 4) == t.Size()
            && blob[t.Size()..] == rest && (|blob| > 8 ==> Head(blob) == t)
  {
    var blob := EncodeToken(t) + rest;
    assert blob == [] + U32Bytes(t.id) + (U32Bytes(t.Size()) + t.payload + rest);
    U32RoundTrip([], t.id, U32Bytes(t.Size()) + t.payload + rest);
    assert blob == U32Bytes(t.id) + U32Bytes(t.Size()) + (t.payload + rest);
    U32RoundTrip(U32Bytes(t.id), t.Size(), t.payload + rest);
    assert blob[8..t.Size()] == t.payload;
  }

  /** Encoding a token list and walking the bytes visits exactly those tokens, in order, except for a final
      bare header. */
  lemma {:induction false} WalkVisitsEncodedTokens(ts: seq<Token>)
    requires forall i | 0 <= i < |ts| :: Encodable(ts[i])
    ensures Walk2(Encode(ts)) == Some(Visited(ts))
    decreases |ts|
  {
    hide U32At, EncodeToken, Head, Visited;
    if ts == [] {
      assert Visited([]) == [] by { NothingVisited(); }
    } else {
      var rest := Encode(ts[1..]);
      HeadOfEncoding(ts[0], rest);
      WalkVisitsEncodedTokens(ts[1..]);
      if |ts| == 1 {
        assert Encode(ts) == EncodeToken(ts[0]) + [];
        VisitedOne(ts);
      } else {
        EncodingNotEmpty(ts[1..]);
        VisitedCons(ts);
      }
    }
  }

  lemma NothingVisited()
    ensures Visited([]) == []
  {
  }

  lemma VisitedOne(ts: seq<Token>)
    requires |ts| == 1
    ensures Visited([]) == [] && ts == [ts[0]] + []
    ensures Visited(ts) == if ts[0].Size() == 8 then [] else ts
  {
  }

  lemma VisitedCons(ts: seq<Token>)
    requires |ts| > 1
    ensures Visited(ts) == [ts[0]] + Visited(ts[1..])
  {
    var rest := ts[1..];
    assert rest[|rest| - 1] == ts[|ts| - 1];
    assert [ts[0]] + rest == ts && [ts[0]] + rest[..|rest| - 1] == ts[..|ts| - 1];
  }

  lemma EncodingNotEmpty(ts: seq<Token>)
    requires ts != [] && forall i | 0 <= i < |ts| :: Encodable(ts[i])
    ensures |Encode(ts)| >= 8
  {
  }

  /** The program-level walk visits the longest run of leading tokens 41 and 42, under the same rule. */
  lemma {:induction false} Walk1VisitsLeadingTokens(ts: seq<Token>)
    requires forall i | 0 <= i < |ts| :: Encodable(ts[i])
    ensures Walk1(Encode(ts)) ==
            Some(if LeadingProgramTokens(ts) == ts then Visited(ts) else LeadingProgramTokens(ts))
    decreases |ts|
  {
    hide U32At, EncodeToken, Head, Visited;
    if ts == [] {
      assert Visited([]) == [] by { NothingVisited(); }
    } else {
      HeadOfEncoding(ts[0], Encode(ts[1..]));
      if |ts| == 1 {
        assert Encode(ts) == EncodeToken(ts[0]) + [];
        assert Walk1([]) == Some([]);
        VisitedOne(ts);
        assert LeadingProgramTokens(ts[1..]) == [];
      } else {
        EncodingNotEmpty(ts[1..]);
        Walk1VisitsLeadingTokens(ts[1..]);
        assert ts == [ts[0]] + ts[1..];
        VisitedCons(ts);
      }
    }
  }

  /** Whatever the walk accepts is the encoding of the tokens it visits, followed by at most a header. */
  lemma {:induction false} WalkedBytesAreAnEncoding(blob: seq<byte>)
    requires Walk2(blob).Some? && |blob| < 0x1_0000_0000
    ensures var ts := Walk2(blob).value;
            && (forall i | 0 <= i < |ts| :: Encodable(ts[i]))
            && exists tail :: |tail| <= 8 && blob == Encode(ts) + tail
    decreases |blob|
  {
    hide U32At, EncodeToken, Encodable, Head;
    if |blob| <= 8 {
      assert blob == Encode([]) + blob;
    } else {
      var size := U32At(blob, 4);
      WalkedBytesAreAnEncoding(blob[size..]);
      var rest := Walk2(blob[size..]).value;
      var tail :| |tail| <= 8 && blob[size..] == Encode(rest) + tail;
      HeadIsEncoded(blob);
      var ts := [Head(blob)] + rest;
      assert ts[1..] == rest;
      assert blob == blob[..size] + blob[size..];
      assert blob == Encode(ts) + tail;
    }
  }

  lemma HeadIsEncoded(blob: seq<byte>)
    requires 8 < |blob| < 0x1_0000_0000 && 8 <= U32At(blob, 4) <= |blob|
    ensures Encodable(Head(blob)) && EncodeToken(Head(blob)) == blob[..U32At(blob, 4)]
  {
    BytesOfU32(blob, 0);
    BytesOfU32(blob, 4);
    hide U32At, U32Bytes;
    var size := U32At(blob, 4);
    assert blob[..size] == blob[0..4] + blob[4..8] + blob[8..size];
  }

  lemma BytesOfU32(m: seq<byte>, p: nat)
    requires p + 4 <= |m|
    ensures U32Bytes(U32At(m, p)) == m[p..p + 4]
  {
    var a: int, b: int, c: int, d: int := m[p], m[p + 1], m[p + 2], m[p + 3];
    var v := U32At(m, p);
    DivModUnique(v, 0x100, b + 0x100 * c + 0x1_0000 * d, a);
    DivModUnique(v / 0x100, 0x100, c + 0x100 * d, b);
    DivModUnique(v, 0x1_0000, c + 0x100 * d, a + 0x100 * b);
    DivModUnique(v / 0x1_0000, 0x100, d, c);
    DivModUnique(v, 0x100_0000, d, a + 0x100 * b + 0x1_0000 * c);
  }

  // ---------- decoding ----------

  /** A piece of an immediate argument: `size` bytes of the value from `sourceOffset` on go to
      `crossThreadDataOffset`.  All three are 16-bit fields. */
  datatype Element = Element(crossThreadDataOffset: nat, size: nat, sourceOffset: nat)

  datatype ArgDescriptor =
    | ArgValue(argIsSet: bool, elements: seq<Element>)
    | ArgBuffer(argIsSet: bool, surfaceStateHeapOffset: nat, crossThreadDataOffset: nat)
    | ArgLocal(argIsSet: bool, crossThreadDataOffset: nat, requiredSlmAlignment: nat)

  datatype Flag = GlobalVariables | SamplerOrQueueOrImage | KernelPrintf | LinkerSupport | UnsupportedTokens

  /** The decoder's fields: the argument table, the latest token of each kind that is only recorded, the
      flags, and the work-size tokens per dimension. */
  datatype Decoded = Decoded(
    argDescriptor: seq<Option<ArgDescriptor>>,
    recorded: map<uint32, Token>,
    flags: set<Flag>,
    localWorkSize: seq<Option<Token>>,
    localWorkSize2: seq<Option<Token>>,
    workSizes: map<(uint32, nat), Token>)
  {
    /** Where the kernel wants a work size of this kind in dimension i. */
    function PlaceIn(kind: uint32, i: nat): Option<nat>
    {
      if (kind, i) in workSizes then Some(workSizes[(kind, i)].Field(2)) else None
    }
  }

  /** Where a work-size token wants its size. */
  function PlaceOf(t: Option<Token>): Option<nat> { if t.None? then None else Some(t.value.Field(2)) }

  const NOTHING := Decoded([], map[], {}, [None, None, None], [None, None, None], map[])

  const DATA_PARAMETER_BUFFER: uint32 := 17
  const GLOBAL_MEMORY_OBJECT: uint32 := 11
  const STATELESS_GLOBAL_MEMORY_OBJECT: uint32 := 30
  const STATELESS_CONSTANT_MEMORY_OBJECT: uint32 := 31

  /** The kinds that are recorded as they are: binding table, local surface, VFE state, interface descriptor
      load and data, execution environment, kernel attributes, thread payload, data parameter stream, and the
      two constant surfaces. */
  const RECORDED_KINDS: set<uint32> := {8, 15, 18, 19, 21, 23, 27, 22, 25, 42, 44}

  function FlagOf(id: uint32): Option<Flag>
  {
    if id == 43 then Some(GlobalVariables)
    else if id in {5, 16, 12, 46, 45} then Some(SamplerOrQueueOrImage)
    else if id in {33, 28} then Some(KernelPrintf)
    else if id in {53, 54} then Some(LinkerSupport)
    else if id in {52, 56, 36} then Some(UnsupportedTokens)
    else None
  }

  predicate IsParameter(t: Token, kind: uint32) { t.id == DATA_PARAMETER_BUFFER && t.Field(0) == kind }

  predicate IsImmediate(t: Token) { IsParameter(t, 1) }
  predicate IsLocal(t: Token) { IsParameter(t, 8) }
  predicate IsMemoryObject(t: Token)
  {
    t.id == GLOBAL_MEMORY_OBJECT || t.id == STATELESS_GLOBAL_MEMORY_OBJECT || t.id == STATELESS_CONSTANT_MEMORY_OBJECT
  }

  /** Tokens that name an argument. */
  predicate NamesArgument(t: Token) { IsImmediate(t) || IsLocal(t) || IsMemoryObject(t) }

  /** The argument a token names: a data parameter carries it in its second field, a memory object in its
      first. */
  function ArgumentOf(t: Token): uint32
  {
    if IsMemoryObject(t) then t.Field(0) else t.Field(1)
  }

  function U16(v: uint32): nat { v % 0x1_0000 }

  function ElementOf(t: Token): Element { Element(U16(t.Field(2)), U16(t.Field(3)), U16(t.Field(4))) }

  /** What a token that is not an immediate puts into its slot. */
  function PointerOf(t: Token): ArgDescriptor
  {
    if IsLocal(t) then ArgLocal(false, U16(t.Field(2)), U16(t.Field(4)))
    else ArgBuffer(false, U16(t.Field(1)), if t.id == GLOBAL_MEMORY_OBJECT then 0 else U16(t.Field(2)))
  }

  function Resize(args: seq<Option<ArgDescriptor>>, n: nat): (r: seq<Option<ArgDescriptor>>)
    ensures |r| == if |args| < n then n else |args|
    ensures forall i | 0 <= i < |r| :: r[i] == if i < |args| then args[i] else None
  {
    if |args| < n then args + seq(n - |args|, _ => None) else args
  }

  /** One token's effect on the argument table.  An immediate after a memory object of the same argument,
      for which the driver reinterprets the descriptor, leaves the slot alone here. */
  function DecodeArgument(args: seq<Option<ArgDescriptor>>, t: Token): seq<Option<ArgDescriptor>>
    requires NamesArgument(t)
  {
    var arg := ArgumentOf(t);
    var table := Resize(args, arg + 1);
    if !IsImmediate(t) then table[arg := Some(PointerOf(t))]
    else
      match table[arg]
      case None => table[arg := Some(ArgValue(false, [ElementOf(t)]))]
      case Some(ArgValue(isSet, elements)) => table[arg := Some(ArgValue(isSet, elements + [ElementOf(t)]))]
      case Some(_) => table
  }

  /** The dimension of a work-size token (its source offset counts bytes). */
  function Dimension(t: Token): nat { t.Field(4) / 4 }

  predicate IsLocalWorkSize(t: Token, d: nat) { IsParameter(t, 2) && Dimension(t) == d }

  /** `decodeToken` with `decodeKernelDataParameterToken`. */
  function Decode(s: Decoded, t: Token): Decoded
    requires |s.localWorkSize| == 3 && |s.localWorkSize2| == 3
  {
    if NamesArgument(t) then s.(argDescriptor := DecodeArgument(s.argDescriptor, t))
    else if IsParameter(t, 2) then
      var d := Dimension(t);
      if d > 2 then s
      else if s.localWorkSize[d].None? then s.(localWorkSize := s.localWorkSize[d := Some(t)])
      else s.(localWorkSize2 := s.localWorkSize2[d := Some(t)])
    else if t.id == DATA_PARAMETER_BUFFER then
      if t.Field(0) in {3, 4, 16, 28} && Dimension(t) <= 2 then
        s.(workSizes := s.workSizes[(t.Field(0), Dimension(t)) := t])
      else if t.Field(0) == 5 then s.(workSizes := s.workSizes[(5, 0) := t])
      else s
    else if t.id in RECORDED_KINDS then s.(recorded := s.recorded[t.id := t])
    else if FlagOf(t.id).Some? then s.(flags := s.flags + {FlagOf(t.id).value})
    else s
  }

  /** The tokens decoded one after the other. */
  function DecodeAll(s: Decoded, ts: seq<Token>): (r: Decoded)
    requires |s.localWorkSize| == 3 && |s.localWorkSize2| == 3
    ensures |r.localWorkSize| == 3 && |r.localWorkSize2| == 3
  {
    if ts == [] then s else Decode(DecodeAll(s, ts[..|ts| - 1]), ts[|ts| - 1])
  }

  lemma DecodeOneMore(s: Decoded, ts: seq<Token>, t: Token)
    requires |s.localWorkSize| == 3 && |s.localWorkSize2| == 3
    ensures DecodeAll(s, []) == s
    ensures DecodeAll(s, ts + [t]) == Decode(DecodeAll(s, ts), t)
  {
    assert (ts + [t])[..|ts|] == ts;
  }

  // ---------- what the decoder computes ----------

  /** The tokens that name an argument, in order. */
  function Naming(ts: seq<Token>, arg: nat): (r: seq<Token>)
    ensures forall i | 0 <= i < |r| :: NamesArgument(r[i]) && ArgumentOf(r[i]) == arg && r[i] in ts
  {
    if ts == [] then []
    else
      var r, t := Naming(ts[..|ts| - 1], arg), ts[|ts| - 1];
      if NamesArgument(t) && ArgumentOf(t) == arg then r + [t] else r
  }

  /** The tokens of one kind, in order. */
  function OfKind(ts: seq<Token>, kind: uint32): seq<Token>
  {
    if ts == [] then []
    else
      var r, t := OfKind(ts[..|ts| - 1], kind), ts[|ts| - 1];
      if t.id == kind then r + [t] else r
  }

  /** The local-work-size tokens of one dimension, in order. */
  function LocalSizesOf(ts: seq<Token>, d: nat): seq<Token>
  {
    if ts == [] then []
    else
      var r, t := LocalSizesOf(ts[..|ts| - 1], d), ts[|ts| - 1];
      if IsLocalWorkSize(t, d) then r + [t] else r
  }

  /** One more than the largest argument named (zero when none is). */
  function ArgumentCount(ts: seq<Token>): nat
  {
    if ts == [] then 0
    else
      var n, t := ArgumentCount(ts[..|ts| - 1]), ts[|ts| - 1];
      if NamesArgument(t) && ArgumentOf(t) >= n then ArgumentOf(t) + 1 else n
  }

  /** No argument is named both by an immediate and by another kind of token. */
  ghost predicate Unmixed(ts: seq<Token>)
  {
    forall i, j | 0 <= i < |ts| && 0 <= j < |ts| && NamesArgument(ts[i]) && NamesArgument(ts[j]) &&
                  ArgumentOf(ts[i]) == ArgumentOf(ts[j]) :: IsImmediate(ts[i]) == IsImmediate(ts[j])
  }

  function Elements(ts: seq<Token>): seq<Element>
  {
    if ts == [] then [] else Elements(ts[..|ts| - 1]) + [ElementOf(ts[|ts| - 1])]
  }

  /** What the tokens that name one argument mean: immediates contribute their elements in order, otherwise
      the last token counts. */
  function SlotOf(naming: seq<Token>): Option<ArgDescriptor>
  {
    if naming == [] then None
    else if IsImmediate(naming[|naming| - 1]) then Some(ArgValue(false, Elements(naming)))
    else Some(PointerOf(naming[|naming| - 1]))
  }

  lemma UnmixedPrefix(ts: seq<Token>)
    requires Unmixed(ts) && ts != []
    ensures Unmixed(ts[..|ts| - 1])
  {
    var shorter := ts[..|ts| - 1];
    assert forall i | 0 <= i < |shorter| :: shorter[i] == ts[i];
  }

  /** In an unmixed list, the tokens before the last one agree with it on how its argument is given. */
  lemma SameKindBefore(ts: seq<Token>)
    requires ts != [] && Unmixed(ts) && NamesArgument(ts[|ts| - 1])
    ensures var last := ts[|ts| - 1];
            var before := Naming(ts[..|ts| - 1], ArgumentOf(last));
            before != [] ==> IsImmediate(before[|before| - 1]) == IsImmediate(last)
  {
    var last, shorter := ts[|ts| - 1], ts[..|ts| - 1];
    var before := Naming(shorter, ArgumentOf(last));
    if before != [] {
      var t := before[|before| - 1];
      var i :| 0 <= i < |shorter| && shorter[i] == t;
      assert ts[i] == t;
    }
  }

  /** The argument table after any unmixed token list: its length is one more than the largest argument
      named, and every slot is what the tokens naming it mean. */
  lemma {:induction false} TableIsSlots(ts: seq<Token>)
    requires Unmixed(ts)
    ensures |DecodeAll(NOTHING, ts).argDescriptor| == ArgumentCount(ts)
    ensures forall a: nat :: Entry(DecodeAll(NOTHING, ts).argDescriptor, a) == SlotOf(Naming(ts, a))
  {
    hide NamesArgument, ArgumentOf, IsImmediate, ElementOf, PointerOf, Unmixed, SlotOf, DecodeArgument, ArgumentCount, Decode;
    if ts == [] {
      NoSlots();
    } else {
      var shorter, t := ts[..|ts| - 1], ts[|ts| - 1];
      UnmixedPrefix(ts);
      TableIsSlots(shorter);
      var before := DecodeAll(NOTHING, shorter);
      DecodeTable(before, t);
      CountGrows(ts);
      if NamesArgument(t) {
        SameKindBefore(ts);
        TableGrows(before.argDescriptor, t);
        SlotGrows(Naming(shorter, ArgumentOf(t)), t);
        forall a: nat
          ensures Entry(DecodeAll(NOTHING, ts).argDescriptor, a) == SlotOf(Naming(ts, a))
        {
          assert Naming(ts, a) == if ArgumentOf(t) == a then Naming(shorter, a) + [t] else Naming(shorter, a);
        }
      } else {
        assert forall a: nat :: Naming(ts, a) == Naming(shorter, a);
      }
    }
  }

  lemma NoSlots()
    ensures ArgumentCount([]) == 0 && SlotOf([]) == None
  {
  }

  lemma DecodeTable(s: Decoded, t: Token)
    requires |s.localWorkSize| == 3 && |s.localWorkSize2| == 3
    ensures Decode(s, t).argDescriptor ==
            if NamesArgument(t) then DecodeArgument(s.argDescriptor, t) else s.argDescriptor
  {
    hide DecodeArgument;
  }

  /** Slot a of a table, empty beyond its end. */
  function Entry(args: seq<Option<ArgDescriptor>>, a: nat): Option<ArgDescriptor>
  {
    if a < |args| then args[a] else None
  }

  lemma TableGrows(args: seq<Option<ArgDescriptor>>, t: Token)
    requires NamesArgument(t)
    ensures var arg, after := ArgumentOf(t), DecodeArgument(args, t);
            && |after| == (if |args| <= arg then arg + 1 else |args|)
            && (forall a: nat | a != arg :: Entry(after, a) == Entry(args, a))
            && (!IsImmediate(t) ==> Entry(after, arg) == Some(PointerOf(t)))
            && (IsImmediate(t) && Entry(args, arg) == None ==> Entry(after, arg) == Some(ArgValue(false, [ElementOf(t)])))
            && (IsImmediate(t) && Entry(args, arg).Some? && Entry(args, arg).value.ArgValue? ==>
                  var v := Entry(args, arg).value;
                  Entry(after, arg) == Some(ArgValue(v.argIsSet, v.elements + [ElementOf(t)])))
  {
    hide NamesArgument, ArgumentOf, IsImmediate, ElementOf, PointerOf;
  }

  lemma CountGrows(ts: seq<Token>)
    requires ts != []
    ensures var n, t := ArgumentCount(ts[..|ts| - 1]), ts[|ts| - 1];
            ArgumentCount(ts) == if NamesArgument(t) && ArgumentOf(t) >= n then ArgumentOf(t) + 1 else n
  {
  }

  /** One more token naming an argument changes what its slot means just as the decoder does. */
  lemma SlotGrows(naming: seq<Token>, t: Token)
    requires naming != [] ==> IsImmediate(naming[|naming| - 1]) == IsImmediate(t)
    ensures SlotOf([]) == None
    ensures SlotOf(naming + [t]) ==
            if !IsImmediate(t) then Some(PointerOf(t))
            else if naming == [] then Some(ArgValue(false, [ElementOf(t)]))
            else Some(ArgValue(false, Elements(naming) + [ElementOf(t)]))
    ensures naming != [] && IsImmediate(t) ==> SlotOf(naming) == Some(ArgValue(false, Elements(naming)))
  {
    hide IsImmediate, ElementOf, PointerOf;
    var longer := naming + [t];
    assert longer[|longer| - 1] == t && longer[..|longer| - 1] == naming;
    assert naming == [] ==> Elements(longer) == [ElementOf(t)];
  }

  /** A slot is empty exactly when no token named its argument. */
  lemma EmptyIffUnnamed(ts: seq<Token>, a: nat)
    requires Unmixed(ts) && a < |DecodeAll(NOTHING, ts).argDescriptor|
    ensures DecodeAll(NOTHING, ts).argDescriptor[a].None? <==>
            forall i | 0 <= i < |ts| && NamesArgument(ts[i]) :: ArgumentOf(ts[i]) != a
  {
    TableIsSlots(ts);
    NamingEmptyIff(ts, a);
  }

  lemma {:induction false} NamingEmptyIff(ts: seq<Token>, a: nat)
    ensures Naming(ts, a) == [] <==> forall i | 0 <= i < |ts| && NamesArgument(ts[i]) :: ArgumentOf(ts[i]) != a
  {
    if ts != [] {
      NamingEmptyIff(ts[..|ts| - 1], a);
      assert ts == ts[..|ts| - 1] + [ts[|ts| - 1]];
    }
  }

  /** Per dimension, the first local-work-size token goes to the first slot and the last later one to the
      second. */
  lemma {:induction false} LocalWorkSizes(ts: seq<Token>, d: nat)
    requires d < 3
    ensures var sizes := LocalSizesOf(ts, d);
            var s := DecodeAll(NOTHING, ts);
            && s.localWorkSize[d] == (if sizes == [] then None else Some(sizes[0]))
            && s.localWorkSize2[d] == (if |sizes| <= 1 then None else Some(sizes[|sizes| - 1]))
  {
    hide Decode, IsLocalWorkSize;
    if ts != [] {
      LocalWorkSizes(ts[..|ts| - 1], d);
      LocalSizeStep(DecodeAll(NOTHING, ts[..|ts| - 1]), ts[|ts| - 1], d);
    }
  }

  lemma LocalSizeStep(s: Decoded, t: Token, d: nat)
    requires |s.localWorkSize| == 3 && |s.localWorkSize2| == 3 && d < 3
    ensures Decode(s, t).localWorkSize[d] ==
            if IsLocalWorkSize(t, d) && s.localWorkSize[d].None? then Some(t) else s.localWorkSize[d]
    ensures Decode(s, t).localWorkSize2[d] ==
            if IsLocalWorkSize(t, d) && s.localWorkSize[d].Some? then Some(t) else s.localWorkSize2[d]
  {
    hide DecodeArgument;
  }

  lemma RecordStep(s: Decoded, t: Token, kind: uint32)
    requires |s.localWorkSize| == 3 && |s.localWorkSize2| == 3 && kind in RECORDED_KINDS
    ensures Decode(s, t).recorded == if t.id in RECORDED_KINDS then s.recorded[t.id := t] else s.recorded
  {
    assert t.id in RECORDED_KINDS ==> !NamesArgument(t) && t.id != DATA_PARAMETER_BUFFER;
  }

  /** Of the kinds that are only recorded, the last token of each kind counts. */
  lemma {:induction false} RecordedIsLast(ts: seq<Token>, kind: uint32)
    requires kind in RECORDED_KINDS
    ensures var same := OfKind(ts, kind);
            var recorded := DecodeAll(NOTHING, ts).recorded;
            if same == [] then kind !in recorded else kind in recorded && recorded[kind] == same[|same| - 1]
  {
    hide Decode;
    if ts != [] {
      RecordedIsLast(ts[..|ts| - 1], kind);
      RecordStep(DecodeAll(NOTHING, ts[..|ts| - 1]), ts[|ts| - 1], kind);
    }
  }

  /** The tokens that make a kernel one which the driver refuses, and why. */
  predicate Raises(id: uint32, f: Flag)
  {
    match f
    case GlobalVariables => id == 43
    case SamplerOrQueueOrImage => id in {5, 12, 16, 45, 46}
    case KernelPrintf => id in {28, 33}
    case LinkerSupport => id in {53, 54}
    case UnsupportedTokens => id in {36, 52, 56}
  }

  lemma FlagStep(s: Decoded, t: Token, f: Flag)
    requires |s.localWorkSize| == 3 && |s.localWorkSize2| == 3
    ensures f in Decode(s, t).flags <==> f in s.flags || Raises(t.id, f)
  {
    hide DecodeArgument;
  }

  /** A flag is raised if and only if one of its tokens is there. */
  lemma {:induction false} FlagsIff(ts: seq<Token>, f: Flag)
    ensures f in DecodeAll(NOTHING, ts).flags <==> exists i :: 0 <= i < |ts| && Raises(ts[i].id, f)
    decreases |ts|
  {
    hide Decode, Raises;
    if ts != [] {
      var shorter, t := ts[..|ts| - 1], ts[|ts| - 1];
      FlagsIff(shorter, f);
      FlagStep(DecodeAll(NOTHING, shorter), t, f);
      assert ts == shorter + [t];
    }
  }
}
