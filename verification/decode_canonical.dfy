/**
 * When encoding what was decoded gives the bytes back: exactly when they were
 * canonical, which is a matter of the bytes alone.
 */
module DecodeCanonical {
  import opened DecodeBounds
  import opened DecodeCode
  import opened EncodeCode
  import opened Leb128
  import opened LittleEndian

  // ----- integers -----

  /** The integer at the head of b is as short as can be: its last byte is not a superfluous 0. */
  predicate ShortU(b: bytes) {
    var h := Head(b);
    h == 1 || (h > 1 && b[h - 1] != 0)
  }

  /** Likewise for a signed one: its last byte does not merely repeat the sign of the byte before. */
  predicate ShortS(b: bytes) {
    var h := Head(b);
    h == 1 || (h > 1 && !(b[h - 1] == 0 && b[h - 2] < 192) && !(b[h - 1] == 127 && b[h - 2] >= 192))
  }

  lemma {:induction false} PutUShort(b: bytes, tail: bytes)
    requires Head(b) > 0
    ensures PutU(Groups(b[..Head(b)]), tail) == b <==> ShortU(b) && tail == b[Head(b)..]
    decreases |b|
  {
    var h := Head(b);
    if h == 1 {
      OneUnsigned(b);
      assert b == [b[0]] + b[1..];
      assert ([b[0]] + tail)[1..] == tail;
    } else {
      var rest := b[1..];
      var high := Groups(rest[..h - 1]);
      PutUShort(rest, tail);
      MoreUnsigned(b);
      assert b[h..] == rest[h - 1..] && b[h - 1] == rest[h - 2];
      PutUStep(b, Groups(b[..h]), high, tail);
      if h == 2 {
        OneUnsigned(rest);
      } else if high == 0 {
        ZeroGroups(rest[..h - 1]);
        assert rest[h - 2] == rest[..h - 1][h - 2];
      }
    }
  }

  /** One more byte in front: written alike, unless the number would have ended with it. */
  lemma PutUStep(b: bytes, v: nat, high: nat, tail: bytes)
    requires b != [] && b[0] >= 128 && v == b[0] % 128 + 128 * high
    ensures PutU(v, tail) == b <==> high != 0 && PutU(high, tail) == b[1..]
  {
    assert b == [b[0]] + b[1..];
    assert v % 128 == b[0] % 128 && v / 128 == high;
    if high == 0 {
      assert PutU(v, tail)[0] == v;
    } else {
      assert PutU(v, tail) == [b[0]] + PutU(high, tail);
      assert PutU(v, tail)[1..] == PutU(high, tail);
    }
  }

  lemma OneUnsigned(b: bytes)
    requires Head(b) == 1
    ensures Groups(b[..1]) == b[0] < 128
  {
    var one := b[..1];
    assert one == [b[0]] && one[1..] == [];
    assert Groups(one) == b[0] % 128 + 128 * Groups([]);
  }

  lemma MoreUnsigned(b: bytes)
    requires Head(b) > 1
    ensures Groups(b[..Head(b)]) == b[0] % 128 + 128 * Groups(b[1..][..Head(b) - 1])
  {
    var h := Head(b);
    assert b[..h][1..] == b[1..][..h - 1];
  }

  lemma {:induction false} ZeroGroups(b: bytes)
    requires Whole(b) && Groups(b) == 0
    ensures b[|b| - 1] == 0
  {
    if |b| > 1 {
      assert Whole(b[1..]);
      ZeroGroups(b[1..]);
    }
  }

  lemma {:induction false} PutSShort(b: bytes, tail: bytes)
    requires Head(b) > 0
    ensures PutS(SignedGroups(b[..Head(b)]), tail) == b <==> ShortS(b) && tail == b[Head(b)..]
    decreases |b|
  {
    if Head(b) == 1 {
      PutSOne(b, tail);
    } else {
      PutSShort(b[1..], tail);
      PutSMore(b, b[1..], Head(b), tail);
    }
  }

  lemma PutSOne(b: bytes, tail: bytes)
    requires Head(b) == 1
    ensures PutS(SignedGroups(b[..1]), tail) == b <==> ShortS(b) && tail == b[1..]
  {
    OneGroup(b);
    assert b == [b[0]] + b[1..];
    assert ([b[0]] + tail)[1..] == tail;
  }

  lemma PutSMore(b: bytes, rest: bytes, h: nat, tail: bytes)
    requires h == Head(b) > 1 && rest == b[1..]
    requires PutS(SignedGroups(rest[..h - 1]), tail) == rest <==> ShortS(rest) && tail == rest[h - 1..]
    ensures PutS(SignedGroups(b[..h]), tail) == b <==> ShortS(b) && tail == b[h..]
  {
    assert b[h..] == rest[h - 1..];
    SignedStep(b, h - 1);
    assert b[..h - 1 + 1] == b[..h];
    var high := SignedGroups(rest[..h - 1]);
    PutSStep(b, SignedGroups(b[..h]), high, tail);
    if h == 2 {
      OneGroup(rest);
    } else if PutS(high, tail) == rest {
      NotSmall(high, rest, tail);
    }
    ShortSFront(b);
  }

  lemma ShortSFront(b: bytes)
    requires Head(b) > 1
    ensures ShortS(b) <==>
      if Head(b) == 2 then !(b[1] == 0 && b[0] < 192) && !(b[1] == 127 && b[0] >= 192) else ShortS(b[1..])
  {
  }

  /** Numbers that are all sign are one byte. */
  lemma NotSmall(v: int, b: bytes, tail: bytes)
    requires b != [] && b[0] >= 128 && PutS(v, tail) == b
    ensures v != 0 && v != -1
  {
  }

  /** One more byte in front: written alike, unless the number would have ended with it. */
  lemma PutSStep(b: bytes, v: int, high: int, tail: bytes)
    requires b != [] && b[0] >= 128 && v == b[0] - 128 + 128 * high
    ensures PutS(v, tail) == b <==>
      !((high == 0 && b[0] < 192) || (high == -1 && b[0] >= 192)) && PutS(high, tail) == b[1..]
  {
    assert b == [b[0]] + b[1..];
    assert v % 128 == b[0] - 128 && v / 128 == high;
    if (high == 0 && b[0] < 192) || (high == -1 && b[0] >= 192) {
      assert PutS(v, tail)[0] == v % 128;
    } else {
      assert PutS(v, tail) == [b[0]] + PutS(high, tail);
      assert PutS(v, tail)[1..] == PutS(high, tail);
    }
  }

  lemma OneByte(c: byte)
    requires c < 128
    ensures SignedGroups([c]) == if c < 64 then c as int else (c as int) - 128
  {
    assert [c][1..] == [] && Groups([]) == 0;
    assert Groups([c]) == c % 128;
  }

  lemma OneGroup(b: bytes)
    requires Head(b) == 1
    ensures SignedGroups(b[..1]) == if b[0] < 64 then b[0] as int else (b[0] as int) - 128
  {
    assert b[..1] == [b[0]];
    OneByte(b[0]);
  }

  lemma UnsignedHead(b: bytes, bits: nat)
    requires Uleb(b, bits).Ok?
    ensures Head(b) > 0 && Uleb(b, bits) == Ok(Groups(b[..Head(b)]), b[Head(b)..])
  {
    UnsignedIs(b, MaxBytes(bits), 1, 0, 1);
  }

  lemma SignedHead(b: bytes, bits: nat)
    requires bits >= 1 && Sleb(b, bits).Ok?
    ensures Head(b) > 0 && Sleb(b, bits) == Ok(SignedGroups(b[..Head(b)]), b[Head(b)..])
  {
    SignedIs(b, MaxBytes(bits), 1, 0, 1);
  }

  lemma UCanonical(b: bytes, bits: nat, tail: bytes)
    requires Uleb(b, bits).Ok?
    ensures PutU(Uleb(b, bits).value, tail) == b <==> ShortU(b) && tail == Uleb(b, bits).rest
  {
    UnsignedHead(b, bits);
    PutUShort(b, tail);
  }

  lemma SCanonical(b: bytes, bits: nat, tail: bytes)
    requires bits >= 1 && Sleb(b, bits).Ok?
    ensures PutS(Sleb(b, bits).value, tail) == b <==> ShortS(b) && tail == Sleb(b, bits).rest
  {
    SignedHead(b, bits);
    PutSShort(b, tail);
  }

  // ----- types -----

  predicate CanonicalHeap(b: bytes) {
    ShortS(b)
  }

  /** The long form of a nullable reference is for a type index: an abstract heap type has its own byte. */
  predicate CanonicalNullable(b: bytes) {
    CanonicalHeap(b) && DecodeHeapType(b).Ok? && DecodeHeapType(b).value.TypeIndex?
  }

  predicate CanonicalVal(b: bytes) {
    b != [] && (b[0] == 0x63 ==> CanonicalNullable(b[1..])) && (b[0] == 0x64 ==> CanonicalHeap(b[1..]))
  }

  predicate CanonicalBlock(b: bytes) {
    && ShortS(b) && S33(b).Ok?
    && (S33(b).value == -29 ==> CanonicalNullable(S33(b).rest))
    && (S33(b).value == -28 ==> CanonicalHeap(S33(b).rest))
  }

  lemma Front(x: byte, a: bytes, b: bytes)
    ensures [x] + a == b <==> b != [] && b[0] == x && a == b[1..]
  {
    assert ([x] + a)[1..] == a;
    if b != [] { assert b == [b[0]] + b[1..]; }
  }

  lemma HeapCanonical(b: bytes, tail: bytes)
    requires DecodeHeapType(b).Ok?
    ensures var r := DecodeHeapType(b); PutHeap(r.value, tail) == b <==> CanonicalHeap(b) && tail == r.rest
  {
    SCanonical(b, 33, tail);
  }

  lemma ValCanonical(b: bytes, tail: bytes)
    requires DecodeValType(b).Ok?
    ensures var r := DecodeValType(b); PutValType(r.value, tail) == b <==> CanonicalVal(b) && tail == r.rest
  {
    if b[0] == 0x63 || b[0] == 0x64 {
      RefCanonical(b[0] == 0x63, b, b[1..], tail);
    } else {
      ShortS1((b[0] as int) - 128, tail);
      Front(b[0], tail, b);
    }
  }

  lemma ShortS1(x: int, tail: bytes)
    requires -64 <= x < 0
    ensures PutS(x, tail) == [x + 128] + tail
  {
  }

  /** A reference in its long form, behind the byte that says whether it can be null. */
  lemma RefCanonical(nullable: bool, b: bytes, heap: bytes, tail: bytes)
    requires b != [] && b[0] == (if nullable then 0x63 else 0x64) && heap == b[1..] && DecodeRef(nullable, heap).Ok?
    ensures var r := DecodeRef(nullable, heap);
      PutValType(r.value, tail) == b <==>
        (if nullable then CanonicalNullable(heap) else CanonicalHeap(heap)) && tail == r.rest
  {
    var h := DecodeHeapType(heap);
    HeapCanonical(heap, tail);
    Front(b[0], PutHeap(h.value, tail), b);
    if nullable && h.value.Abstract? {
      HeapTypeIs(heap);
      ShortS1(h.value.code, tail);
      assert PutValType(RefType(true, h.value), tail)[0] == h.value.code + 128;
    }
  }

  lemma BlockTypeCanonical(b: bytes, tail: bytes)
    requires DecodeBlockType(b).Ok?
    ensures var r := DecodeBlockType(b); PutBlockType(r.value, tail) == b <==> CanonicalBlock(b) && tail == r.rest
  {
    var x := S33(b);
    if x.value == -29 || x.value == -28 {
      LongBlockCanonical(b, tail);
    } else {
      SCanonical(b, 33, tail);
      if x.value == -64 { ShortS1(-64, tail); }
      OneByteOrIndex(b, tail);
    }
  }

  lemma OneByteOrIndex(b: bytes, tail: bytes)
    requires DecodeBlockType(b).Ok? && S33(b).value != -29 && S33(b).value != -28
    ensures DecodeBlockType(b).rest == S33(b).rest
    ensures S33(b).value != -64 ==> PutBlockType(DecodeBlockType(b).value, tail) == PutS(S33(b).value, tail)
  {
  }

  lemma LongBlockCanonical(b: bytes, tail: bytes)
    requires DecodeBlockType(b).Ok? && (S33(b).value == -29 || S33(b).value == -28)
    ensures var r := DecodeBlockType(b); PutBlockType(r.value, tail) == b <==> CanonicalBlock(b) && tail == r.rest
  {
    var x := S33(b);
    var nullable := x.value == -29;
    LongBlockReads(b);
    if ShortS(b) {
      SCanonical(b, 33, x.rest);
      ShortS1(x.value, x.rest);
      Front(if nullable then 0x63 else 0x64, x.rest, b);
      RefCanonical(nullable, b, x.rest, tail);
    } else {
      RefIs(nullable, x.rest, x.rest);
      RefFront(nullable, DecodeRef(nullable, x.rest).value, tail);
      LongHead(b);
    }
  }

  lemma LongBlockReads(b: bytes)
    requires DecodeBlockType(b).Ok? && (S33(b).value == -29 || S33(b).value == -28)
    ensures var r := DecodeRef(S33(b).value == -29, S33(b).rest);
      r.Ok? && DecodeBlockType(b) == Ok(Val(r.value), r.rest) && r.value.RefType?
      && r.value.nullable == (S33(b).value == -29)
  {
  }

  /** An integer that is not short has a first byte with the top bit set. */
  lemma LongHead(b: bytes)
    requires S33(b).Ok? && !ShortS(b)
    ensures b != [] && b[0] >= 128
  {
    SignedHead(b, 33);
    assert Head(b) > 1;
  }

  /** How an encoded reference begins. */
  lemma RefFront(nullable: bool, t: ValType, tail: bytes)
    requires t.RefType? && t.nullable == nullable && ValTypeOk(t)
    ensures PutValType(t, tail) != []
    ensures !(nullable && t.heap.Abstract?) ==> PutValType(t, tail)[0] == if nullable then 0x63 else 0x64
    ensures nullable && t.heap.Abstract? ==> 105 <= PutValType(t, tail)[0] < 117
  {
    if nullable && t.heap.Abstract? { ShortS1(t.heap.code, tail); }
  }

  // ----- vectors -----

  predicate CanonicalVecU32(n: nat, b: bytes)
    decreases n
  {
    n == 0 || (ShortU(b) && U32(b).Ok? && CanonicalVecU32(n - 1, U32(b).rest))
  }

  predicate CanonicalVecVal(n: nat, b: bytes)
    decreases n
  {
    n == 0 || (CanonicalVal(b) && DecodeValType(b).Ok? && CanonicalVecVal(n - 1, DecodeValType(b).rest))
  }

  predicate CanonicalTwo(b: bytes) {
    ShortU(b) && U32(b).Ok? && ShortU(U32(b).rest)
  }

  predicate CanonicalCatch(b: bytes) {
    b != [] && if b[0] < 2 then CanonicalTwo(b[1..]) else ShortU(b[1..])
  }

  predicate CanonicalVecCatch(n: nat, b: bytes)
    decreases n
  {
    n == 0 || (CanonicalCatch(b) && CatchClause(b).Ok? && CanonicalVecCatch(n - 1, CatchClause(b).rest))
  }

  lemma {:induction false} LabelsCanonical(n: nat, b: bytes, tail: bytes)
    requires VecU32(n, b).Ok?
    ensures var r := VecU32(n, b); PutLabels(r.value, tail) == b <==> CanonicalVecU32(n, b) && tail == r.rest
    decreases n
  {
    if n > 0 {
      var x := U32(b);
      var vs := VecU32(n - 1, x.rest);
      LabelsCanonical(n - 1, x.rest, tail);
      assert ([x.value] + vs.value)[1..] == vs.value;
      UCanonical(b, 32, PutLabels(vs.value, tail));
    }
  }

  lemma {:induction false} TypesCanonical(n: nat, b: bytes, tail: bytes)
    requires VecValType(n, b).Ok?
    ensures var r := VecValType(n, b); PutTypes(r.value, tail) == b <==> CanonicalVecVal(n, b) && tail == r.rest
    decreases n
  {
    if n > 0 {
      var x := DecodeValType(b);
      var ts := VecValType(n - 1, x.rest);
      TypesCanonical(n - 1, x.rest, tail);
      assert ([x.value] + ts.value)[1..] == ts.value;
      ValCanonical(b, PutTypes(ts.value, tail));
    }
  }

  lemma TwoCanonical(b: bytes, tail: bytes)
    requires DecodeTwo(b).Ok?
    ensures var r := DecodeTwo(b); PutU(r.value.0, PutU(r.value.1, tail)) == b <==> CanonicalTwo(b) && tail == r.rest
  {
    var x := U32(b);
    UCanonical(x.rest, 32, tail);
    UCanonical(b, 32, PutU(U32(x.rest).value, tail));
  }

  lemma CatchCanonical(b: bytes, tail: bytes)
    requires CatchClause(b).Ok?
    ensures var r := CatchClause(b); PutCatch(r.value, tail) == b <==> CanonicalCatch(b) && tail == r.rest
  {
    if b[0] < 2 {
      TwoCanonical(b[1..], tail);
      var two := DecodeTwo(b[1..]).value;
      Front(b[0], PutU(two.0, PutU(two.1, tail)), b);
    } else {
      UCanonical(b[1..], 32, tail);
      Front(b[0], PutU(U32(b[1..]).value, tail), b);
    }
  }

  lemma {:induction false} CatchesCanonical(n: nat, b: bytes, tail: bytes)
    requires VecCatch(n, b).Ok?
    ensures var r := VecCatch(n, b); PutCatches(r.value, tail) == b <==> CanonicalVecCatch(n, b) && tail == r.rest
    decreases n
  {
    if n > 0 {
      var x := CatchClause(b);
      var cs := VecCatch(n - 1, x.rest);
      CatchesCanonical(n - 1, x.rest, tail);
      CatchMore(b, x.value, cs.value, tail);
    }
  }

  lemma CatchMore(b: bytes, c: Catch, cs: seq<Catch>, tail: bytes)
    requires CatchClause(b).Ok? && CatchClause(b).value == c
    ensures PutCatches([c] + cs, tail) == b <==> CanonicalCatch(b) && PutCatches(cs, tail) == CatchClause(b).rest
  {
    assert ([c] + cs)[1..] == cs;
    CatchCanonical(b, PutCatches(cs, tail));
  }

  // ----- instructions that hold no instructions -----

  /** Bit 6 of the alignment is set only for a memory other than 0. */
  predicate CanonicalMem(b: bytes) {
    && ShortU(b) && U32(b).Ok?
    && var flags, rest := U32(b).value, U32(b).rest;
       if flags < 64 then ShortU(rest)
       else ShortU(rest) && U32(rest).Ok? && U32(rest).value != 0 && ShortU(U32(rest).rest)
  }

  lemma MemCanonical(op: byte, b: bytes, tail: bytes)
    requires MemArg(op, b).Ok?
    ensures var r := MemArg(op, b); var i := r.value;
      i.MemOp? && (PutMem(i.align, i.offset, i.mem, tail) == b <==> CanonicalMem(b) && tail == r.rest)
  {
    var flags := U32(b);
    if flags.value < 64 {
      var offset := U64(flags.rest);
      UCanonical(flags.rest, 64, tail);
      UCanonical(b, 32, PutU(offset.value, tail));
    } else {
      NamedMemCanonical(op, b, tail);
    }
  }

  lemma NamedMemCanonical(op: byte, b: bytes, tail: bytes)
    requires MemArg(op, b).Ok? && U32(b).value >= 64
    ensures var r := MemArg(op, b); var i := r.value;
      i.MemOp? && (PutMem(i.align, i.offset, i.mem, tail) == b <==> CanonicalMem(b) && tail == r.rest)
  {
    var flags := U32(b);
    var mem := U32(flags.rest);
    var offset := U64(mem.rest);
    var put := PutU(offset.value, tail);
    if mem.value == 0 {
      if PutU(flags.value - 64, put) == b {
        U32RoundTrip(flags.value - 64, put);
      }
    } else {
      UCanonical(mem.rest, 64, tail);
      UCanonical(flags.rest, 32, put);
      UCanonical(b, 32, PutU(mem.value, put));
    }
  }

  predicate CanonicalBrTable(b: bytes) {
    && ShortU(b) && Count(b).Ok?
    && var n, rest := Count(b).value, Count(b).rest;
       CanonicalVecU32(n, rest) && VecU32(n, rest).Ok? && ShortU(VecU32(n, rest).rest)
  }

  lemma BrTableCanonical(b: bytes, tail: bytes)
    requires DecodeBrTable(b).Ok?
    ensures var r := DecodeBrTable(b); var i := r.value;
      && i.BrTable?
      && (PutU(|i.labels|, PutLabels(i.labels, PutU(i.last, tail))) == b <==> CanonicalBrTable(b) && tail == r.rest)
  {
    var n := Count(b);
    var labels := VecU32(n.value, n.rest);
    var last := U32(labels.rest);
    var put := PutU(last.value, tail);
    UCanonical(labels.rest, 32, tail);
    LabelsCanonical(n.value, n.rest, put);
    UCanonical(b, 32, PutLabels(labels.value, put));
  }

  predicate CanonicalSelect(b: bytes) {
    ShortU(b) && Count(b).Ok? && CanonicalVecVal(Count(b).value, Count(b).rest)
  }

  lemma SelectCanonical(b: bytes, tail: bytes)
    requires DecodeOther(0x1C, b).Ok?
    ensures var r := DecodeOther(0x1C, b); var i := r.value;
      && i.Select?
      && (PutU(|i.types|, PutTypes(i.types, tail)) == b <==> CanonicalSelect(b) && tail == r.rest)
  {
    var n := Count(b);
    var types := VecValType(n.value, n.rest);
    TypesCanonical(n.value, n.rest, tail);
    UCanonical(b, 32, PutTypes(types.value, tail));
  }

  predicate CanonicalFC(b: bytes) {
    && ShortU(b) && U32(b).Ok?
    && var sub, rest := U32(b).value, U32(b).rest;
       (IsOneFC(sub) ==> ShortU(rest)) && (IsTwoFC(sub) ==> CanonicalTwo(rest))
  }

  lemma FCCanonical(b: bytes, tail: bytes)
    requires DecodeFC(b).Ok?
    ensures var r := DecodeFC(b);
      InstrOk(r.value) && (PutImmediates(r.value, tail) == b <==> CanonicalFC(b) && tail == r.rest)
  {
    FCIs(b);
    var sub := U32(b);
    UCanonical(b, 32, tail);
    if IsOneFC(sub.value) {
      UCanonical(sub.rest, 32, tail);
      UCanonical(b, 32, PutU(U32(sub.rest).value, tail));
    } else if IsTwoFC(sub.value) {
      TwoCanonical(sub.rest, tail);
      var two := DecodeTwo(sub.rest).value;
      UCanonical(b, 32, PutU(two.0, PutU(two.1, tail)));
    }
  }

  /** The bytes after a flat opcode. Floating point constants have one form. */
  predicate CanonicalFlat(op: byte, b: bytes) {
    if IsPlain(op) then true
    else if IsMem(op) then CanonicalMem(b)
    else if IsOne(op) then ShortU(b)
    else if IsTwo(op) then CanonicalTwo(b)
    else if op == 0x0E then CanonicalBrTable(b)
    else if op == 0xD0 then CanonicalHeap(b)
    else if op == 0x1C then CanonicalSelect(b)
    else if op == 0xFC then CanonicalFC(b)
    else if op == 0x41 || op == 0x42 then ShortS(b)
    else true
  }

  /** What a decoded instruction writes is what was read exactly when that was canonical and so is what follows. */
  predicate Agrees(op: byte, b: bytes, r: Parsed<Instr>, canonical: bool, tail: bytes) {
    r.Ok? ==>
      && InstrOk(r.value) && Opcode(r.value) == op
      && (PutImmediates(r.value, tail) == b <==> canonical && tail == r.rest)
  }

  lemma FixedCanonical(n: nat, b: bytes, tail: bytes)
    requires n <= |b|
    ensures LE(FromLE(b[..n]), n) + tail == b <==> tail == b[n..]
  {
    LittleAgain(b[..n]);
    assert b == b[..n] + b[n..];
    assert (b[..n] + tail)[n..] == tail;
  }

  lemma ConstCanonical(op: byte, b: bytes, tail: bytes)
    requires 0x41 <= op <= 0x44
    ensures Agrees(op, b, DecodeConst(op, b), op <= 0x42 ==> ShortS(b), tail)
  {
    ConstIs(op, b);
    if DecodeConst(op, b).Ok? {
      if op == 0x41 { SCanonical(b, 32, tail); }
      else if op == 0x42 { SCanonical(b, 64, tail); }
      else if op == 0x43 { FixedCanonical(4, b, tail); }
      else { FixedCanonical(8, b, tail); }
    }
  }

  lemma OtherCanonical(op: byte, b: bytes, tail: bytes)
    requires !IsPlain(op) && !IsMem(op) && !IsOne(op) && !IsTwo(op)
    ensures Agrees(op, b, DecodeOther(op, b), CanonicalFlat(op, b), tail)
  {
    OtherIs(op, b);
    if DecodeOther(op, b).Ok? {
      if op == 0x0E { BrTableCanonical(b, tail); }
      else if op == 0xD0 { HeapCanonical(b, tail); }
      else if op == 0x1C { SelectCanonical(b, tail); }
      else if op == 0xFC { FCOpcode(b); FCCanonical(b, tail); }
      else { ConstCanonical(op, b, tail); }
    }
  }

  lemma FCOpcode(b: bytes)
    requires DecodeFC(b).Ok?
    ensures DecodeFC(b).value.PlainFC? || DecodeFC(b).value.OneFC? || DecodeFC(b).value.TwoFC?
  {
  }

  lemma FlatCanonical(op: byte, b: bytes, tail: bytes)
    ensures Agrees(op, b, DecodeFlat(op, b), CanonicalFlat(op, b), tail)
  {
    FlatIs(op, b);
    if DecodeFlat(op, b).Ok? {
      if IsPlain(op) {
      } else if IsMem(op) {
        MemCanonical(op, b, tail);
      } else if IsOne(op) {
        UCanonical(b, 32, tail);
      } else if IsTwo(op) {
        TwoCanonical(b, tail);
      } else {
        OtherCanonical(op, b, tail);
      }
    }
  }

  // ----- instructions that hold instructions -----

  /** The bytes of a run of instructions, up to and including the byte that ends it. */
  predicate CanonicalRun(b: bytes)
    decreases |b|, 0
  {
    b != [] && (b[0] == 0x0B || b[0] == 0x05 ||
      (CanonicalInstr(b[0], b[1..]) && DecodeInstr(b[0], b[1..]).Ok? && CanonicalRun(DecodeInstr(b[0], b[1..]).rest)))
  }

  predicate CanonicalInstr(op: byte, b: bytes)
    decreases |b|, 4
  {
    if IsBlock(op) then CanonicalBlock(b) && DecodeBlockType(b).Ok? && CanonicalRun(DecodeBlockType(b).rest)
    else if op == 0x04 then CanonicalIf(b)
    else if op == 0x1F then CanonicalTryTable(b)
    else CanonicalFlat(op, b)
  }

  /** No else is empty. */
  predicate CanonicalIf(b: bytes)
    decreases |b|, 3
  {
    && CanonicalBlock(b) && DecodeBlockType(b).Ok?
    && var rest := DecodeBlockType(b).rest;
       && CanonicalRun(rest) && Instrs(rest).Ok?
       && (Instrs(rest).value.ending.Else? ==>
             var other := Instrs(rest).rest; other != [] && other[0] != 0x0B && CanonicalRun(other))
  }

  predicate CanonicalTryTable(b: bytes)
    decreases |b|, 3
  {
    && CanonicalBlock(b) && DecodeBlockType(b).Ok?
    && var rest := DecodeBlockType(b).rest;
       ShortU(rest) && Count(rest).Ok? && CanonicalHandled(Count(rest).value, Count(rest).rest)
  }

  /** The bytes of an expression. */
  predicate Canonical(b: bytes) {
    CanonicalRun(b)
  }

  lemma {:induction false} BlockCanonical(op: byte, b: bytes, tail: bytes)
    requires IsBlock(op)
    ensures Agrees(op, b, DecodeBlock(op, b), CanonicalInstr(op, b), tail)
    decreases |b|, 3
  {
    BlockIs(op, b);
    if DecodeBlock(op, b).Ok? {
      var bt := DecodeBlockType(b);
      var body := BlockBody(bt.rest);
      assert body.Ok? && Instrs(bt.rest).Ok?;
      RunCanonical(bt.rest, tail);
      BlockTypeCanonical(b, PutInstrs(body.value, [0x0B] + tail));
    }
  }

  lemma {:induction false} IfCanonical(b: bytes, tail: bytes)
    ensures Agrees(0x04, b, DecodeIf(b), CanonicalIf(b), tail)
    decreases |b|, 3
  {
    IfIs(b);
    if DecodeIf(b).Ok? {
      var bt := DecodeBlockType(b);
      var first := Instrs(bt.rest);
      InstrsAre(bt.rest);
      if first.value.ending.End? {
        RunCanonical(bt.rest, tail);
        BlockTypeCanonical(b, PutInstrs(first.value.instrs, [0x0B] + tail));
      } else {
        ElseCanonical(b, bt, first, tail);
      }
    }
  }

  lemma {:induction false} ElseCanonical(b: bytes, bt: Parsed<BlockType>, first: Parsed<Body>, tail: bytes)
    requires bt == DecodeBlockType(b) && bt.Ok? && first == Instrs(bt.rest) && first.Ok? && first.value.ending.Else?
    requires BlockBody(first.rest).Ok?
    requires DecodeIf(b)
          == Ok(If(bt.value, first.value.instrs, BlockBody(first.rest).value), BlockBody(first.rest).rest)
    requires InstrOk(DecodeIf(b).value)
    ensures Agrees(0x04, b, DecodeIf(b), CanonicalIf(b), tail)
    decreases |b|, 2
  {
    var other := first.rest;
    var second := BlockBody(other);
    EmptyBody(other);
    if second.value == [] {
      var put := PutInstrs(first.value.instrs, [0x0B] + tail);
      BlockTypeCanonical(b, put);
      if put == bt.rest {
        InstrsRead(first.value.instrs, End, tail);
        assert false;
      }
    } else {
      RunCanonical(other, tail);
      var put := PutInstrs(second.value, [0x0B] + tail);
      RunCanonical(bt.rest, put);
      BlockTypeCanonical(b, PutInstrs(first.value.instrs, [0x05] + put));
    }
  }

  /** A body is empty exactly when its first byte ends it. */
  lemma EmptyBody(b: bytes)
    requires BlockBody(b).Ok?
    ensures b != [] && (BlockBody(b).value == [] <==> b[0] == 0x0B)
  {
  }

  lemma {:induction false} TryTableCanonical(b: bytes, tail: bytes)
    ensures Agrees(0x1F, b, DecodeTryTable(b), CanonicalTryTable(b), tail)
    decreases |b|, 3
  {
    TryTableIs(b);
    if DecodeTryTable(b).Ok? {
      var bt := DecodeBlockType(b);
      var n := Count(bt.rest);
      BlockTypeIs(b);
      CountIs(bt.rest);
      assert DecodeTryTable(b) == DecodeHandled(bt.value, n.value, n.rest);
      HandledCanonical(bt.value, n.value, n.rest, tail);
      var i := DecodeHandled(bt.value, n.value, n.rest).value;
      var put := PutCatches(i.catches, PutInstrs(i.body, [0x0B] + tail));
      UCanonical(bt.rest, 32, put);
      BlockTypeCanonical(b, PutU(n.value, put));
    }
  }

  predicate CanonicalHandled(n: nat, b: bytes)
    decreases |b|, 2
  {
    CanonicalVecCatch(n, b) && VecCatch(n, b).Ok? && CanonicalRun(VecCatch(n, b).rest)
  }

  lemma {:induction false} HandledCanonical(bt: BlockType, n: nat, b: bytes, tail: bytes)
    requires BlockTypeOk(bt) && IsIndex(n) && DecodeHandled(bt, n, b).Ok?
    ensures var r := DecodeHandled(bt, n, b); var i := r.value;
      && InstrOk(i) && i.TryTable? && i.bt == bt && |i.catches| == n
      && (PutCatches(i.catches, PutInstrs(i.body, [0x0B] + tail)) == b <==> CanonicalHandled(n, b) && tail == r.rest)
    decreases |b|, 2
  {
    var catches := VecCatch(n, b);
    VecCatchIs(n, b);
    assert BlockBody(catches.rest).Ok? && Instrs(catches.rest).Ok?;
    var body := BlockBody(catches.rest);
    RunCanonical(catches.rest, tail);
    CatchesCanonical(n, b, PutInstrs(body.value, [0x0B] + tail));
  }

  lemma {:induction false} InstrCanonical(op: byte, b: bytes, tail: bytes)
    ensures Agrees(op, b, DecodeInstr(op, b), CanonicalInstr(op, b), tail)
    decreases |b|, 4
  {
    if IsBlock(op) {
      BlockCanonical(op, b, tail);
    } else if op == 0x04 {
      IfCanonical(b, tail);
    } else if op == 0x1F {
      TryTableCanonical(b, tail);
    } else {
      FlatCanonical(op, b, tail);
    }
  }

  lemma {:induction false} RunCanonical(b: bytes, tail: bytes)
    requires Instrs(b).Ok?
    ensures var r := Instrs(b);
      && AllOk(r.value.instrs)
      && (PutInstrs(r.value.instrs, [EndByte(r.value.ending)] + tail) == b <==> CanonicalRun(b) && tail == r.rest)
    decreases |b|, 0
  {
    InstrsAre(b);
    if b[0] == 0x0B || b[0] == 0x05 {
      Front(b[0], tail, b);
    } else {
      var i := DecodeInstr(b[0], b[1..]);
      var more := Instrs(i.rest);
      RunCanonical(i.rest, tail);
      var put := PutInstrs(more.value.instrs, [EndByte(more.value.ending)] + tail);
      InstrCanonical(b[0], b[1..], put);
      assert ([i.value] + more.value.instrs)[1..] == more.value.instrs;
      Front(b[0], PutImmediates(i.value, put), b);
    }
  }

  /**
   * Encoding what was decoded gives the bytes back if and only if they were
   * canonical: every integer as short as it can be, no else empty, memory 0
   * never named, and every nullable reference to an abstract heap type one byte.
   */
  lemma EncodingGivesBack(b: bytes)
    requires Expr(b).Ok?
    ensures var r := Expr(b);
      AllOk(r.value) && (PutInstrs(r.value, [0x0B] + r.rest) == b <==> Canonical(b))
  {
    RunCanonical(b, Instrs(b).rest);
  }

  // ----- three ways not to be -----

  lemma LongZero(tail: bytes)
    ensures Head([0x80, 0x00] + tail) == 2 && U32([0x80, 0x00] + tail) == Ok(0, tail)
  {
    var b := [0x80, 0x00] + tail;
    assert b[1..] == [0x00] + tail && b[1..][0] == 0x00 && b[1..][1..] == tail && b[2..] == tail;
    assert Head(b[1..]) == 1;
    assert Head(b) == 2;
    UnsignedIs(b, MaxBytes(32), 1, 0, 1);
    var two := b[..2];
    assert two == [0x80, 0x00] && two[1..] == [0x00] && two[1..][1..] == [];
    assert Groups(two[1..]) == 0 + 128 * Groups([]);
    assert Groups(two) == 0;
  }

  lemma RunBegins(op: byte, rest: bytes)
    requires op != 0x0B && op != 0x05
    ensures CanonicalRun([op] + rest) ==> CanonicalInstr(op, rest)
    ensures CanonicalRun([op] + rest) && !IsBlock(op) && op != 0x04 && op != 0x1F ==> CanonicalFlat(op, rest)
  {
    assert ([op] + rest)[1..] == rest;
  }

  /** A branch whose label is spelled in two bytes, */
  lemma LongInteger(tail: bytes)
    ensures var b := [0x0C, 0x80, 0x00, 0x0B] + tail;
      Expr(b) == Ok([One(0x0C, 0)], tail) && !Canonical(b)
  {
    var last := [0x0B] + tail;
    var long := [0x80, 0x00] + last;
    assert [0x0C, 0x80, 0x00, 0x0B] + tail == [0x0C] + long;
    LongZero(last);
    DispatchFlat(0x0C, long);
    OneInstr(0x0C, long, One(0x0C, 0), tail);
    RunBegins(0x0C, long);
  }

  /** an else with nothing in it, */
  lemma EmptyElseIsNot(tail: bytes)
    ensures !Canonical([0x04, 0x40, 0x05, 0x0B, 0x0B] + tail)
  {
    var other := [0x0B] + ([0x0B] + tail);
    var rest := [0x05] + other;
    assert [0x04, 0x40, 0x05, 0x0B, 0x0B] + tail == [0x04] + ([0x40] + rest);
    BlockTypeReads(Empty, rest);
    EmptyRun(other);
    assert !CanonicalIf([0x40] + rest);
    RunBegins(0x04, [0x40] + rest);
  }

  /** and memory 0 named. */
  lemma ExplicitMemoryIsNot(tail: bytes)
    ensures !Canonical([0x28, 0x42, 0x00, 0x07, 0x0B] + tail)
  {
    var rest := [0x00] + ([0x07, 0x0B] + tail);
    assert [0x28, 0x42, 0x00, 0x07, 0x0B] + tail == [0x28] + ([0x42] + rest);
    U32RoundTrip(66, rest);
    U32RoundTrip(0, [0x07, 0x0B] + tail);
    assert !CanonicalMem([0x42] + rest);
    RunBegins(0x28, [0x42] + rest);
  }
}
