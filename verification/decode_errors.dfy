/**
 * What the decoder says of bytes it refuses: that they were cut short only if
 * they can have been, and otherwise what the first fault in them is, however
 * deep and however far into them it comes.
 */
module DecodeErrors {
  import opened DecodeCode
  import opened EncodeCode
  import opened Leb128
  import opened LittleEndian

  // ----- more bytes -----

  /** An answer that more bytes at the end cannot change. */
  predicate Final<T>(r: Parsed<T>) {
    r.Ok? || (r.error != UnexpectedEnd && r.error != LengthOutOfBounds)
  }

  /** The same answer, with `x` behind what it leaves. */
  function On<T>(r: Parsed<T>, x: bytes): Parsed<T> {
    if r.Ok? then Ok(r.value, r.rest + x) else r
  }

  /** `more` is what is answered with `x` at the end: the same if that was final; and if it leaves all of `x`, there was
      an answer without it. */
  ghost predicate Goes<T>(r: Parsed<T>, more: Parsed<T>, x: bytes) {
    && (Final(r) ==> more == On(r, x))
    && (more.Ok? && |more.rest| >= |x| ==> r.Ok?)
  }

  lemma FirstOf(b: bytes, x: bytes)
    requires b != []
    ensures b + x != [] && (b + x)[0] == b[0] && (b + x)[1..] == b[1..] + x
  {
  }

  lemma {:induction false} UnsignedOn(b: bytes, x: bytes, max: nat, n: nat, acc: nat, p: nat)
    ensures Goes(Unsigned(b, max, n, acc, p), Unsigned(b + x, max, n, acc, p), x)
    decreases |b|
  {
    if b != [] {
      FirstOf(b, x);
      if b[0] >= 128 && n < max { UnsignedOn(b[1..], x, max, n + 1, acc + (b[0] - 128) * p, 128 * p); }
    } else {
      assert b + x == x;
      UnsignedIs(x, max, n, acc, p);
    }
  }

  lemma {:induction false} SignedOn(b: bytes, x: bytes, max: nat, n: nat, acc: nat, p: nat)
    ensures Goes(Signed(b, max, n, acc, p), Signed(b + x, max, n, acc, p), x)
    decreases |b|
  {
    if b != [] {
      FirstOf(b, x);
      if b[0] >= 128 && n < max { SignedOn(b[1..], x, max, n + 1, acc + (b[0] - 128) * p, 128 * p); }
    } else {
      assert b + x == x;
      SignedIs(x, max, n, acc, p);
    }
  }

  lemma UlebOn(b: bytes, x: bytes, bits: nat)
    ensures Goes(Uleb(b, bits), Uleb(b + x, bits), x)
  {
    UnsignedOn(b, x, MaxBytes(bits), 1, 0, 1);
  }

  lemma SlebOn(b: bytes, x: bytes, bits: nat)
    requires bits >= 1
    ensures Goes(Sleb(b, bits), Sleb(b + x, bits), x)
  {
    SignedOn(b, x, MaxBytes(bits), 1, 0, 1);
  }

  // ----- types and vectors -----

  lemma HeapTypeOn(b: bytes, x: bytes)
    ensures Goes(DecodeHeapType(b), DecodeHeapType(b + x), x)
  {
    SlebOn(b, x, 33);
  }

  lemma ValTypeOn(b: bytes, x: bytes)
    ensures Goes(DecodeValType(b), DecodeValType(b + x), x)
  {
    if b != [] {
      FirstOf(b, x);
      HeapTypeOn(b[1..], x);
    }
  }

  lemma RefOn(nullable: bool, b: bytes, x: bytes)
    ensures Goes(DecodeRef(nullable, b), DecodeRef(nullable, b + x), x)
  {
    HeapTypeOn(b, x);
  }

  lemma RefTypeOn(b: bytes, x: bytes)
    requires S33(b).Ok? && (S33(b).value == -29 || S33(b).value == -28) && S33(b + x) == On(S33(b), x)
    ensures Goes(DecodeBlockType(b), DecodeBlockType(b + x), x)
  {
    RefOn(S33(b).value == -29, S33(b).rest, x);
  }

  lemma BlockTypeOn(b: bytes, x: bytes)
    ensures Goes(DecodeBlockType(b), DecodeBlockType(b + x), x)
  {
    SlebOn(b, x, 33);
    if S33(b).Ok? && (S33(b).value == -29 || S33(b).value == -28) { RefTypeOn(b, x); }
  }

  lemma CountOn(b: bytes, x: bytes)
    ensures Final(Count(b)) ==> Count(b + x) == On(Count(b), x)
    ensures Count(b + x).Ok? && Count(b + x).value + |x| <= |Count(b + x).rest| ==> Count(b).Ok?
  {
    UlebOn(b, x, 32);
  }

  /** What is left is less, so if all of `x` is left behind a second read it was behind the first. */
  lemma LessLeft(b: bytes, bits: nat)
    ensures U32(b).Ok? && Uleb(U32(b).rest, bits).Ok? ==> |Uleb(U32(b).rest, bits).rest| < |U32(b).rest| < |b|
  {
    UShrinks(b, 32);
    if U32(b).Ok? { UShrinks(U32(b).rest, bits); }
  }

  lemma {:induction false} VecU32On(n: nat, b: bytes, x: bytes)
    ensures Goes(VecU32(n, b), VecU32(n, b + x), x)
    decreases n
  {
    if n > 0 {
      UlebOn(b, x, 32);
      if U32(b).Ok? { VecU32On(n - 1, U32(b).rest, x); }
    }
  }

  lemma {:induction false} VecValTypeOn(n: nat, b: bytes, x: bytes)
    ensures Goes(VecValType(n, b), VecValType(n, b + x), x)
    decreases n
  {
    if n > 0 {
      ValTypeOn(b, x);
      if DecodeValType(b).Ok? { VecValTypeOn(n - 1, DecodeValType(b).rest, x); }
    }
  }

  lemma TwoOn(b: bytes, x: bytes)
    ensures Goes(DecodeTwo(b), DecodeTwo(b + x), x)
  {
    UlebOn(b, x, 32);
    LessLeft(b + x, 32);
    if U32(b).Ok? { UlebOn(U32(b).rest, x, 32); }
  }

  lemma CatchOn(b: bytes, x: bytes)
    ensures Goes(CatchClause(b), CatchClause(b + x), x)
  {
    if b != [] {
      FirstOf(b, x);
      TwoOn(b[1..], x);
      UlebOn(b[1..], x, 32);
    }
  }

  lemma {:induction false} VecCatchOn(n: nat, b: bytes, x: bytes)
    ensures Goes(VecCatch(n, b), VecCatch(n, b + x), x)
    decreases n
  {
    if n > 0 {
      CatchOn(b, x);
      if CatchClause(b).Ok? { VecCatchOn(n - 1, CatchClause(b).rest, x); }
    }
  }

  // ----- instructions -----

  lemma OffsetOn(op: byte, align: nat, mem: nat, b: bytes, x: bytes)
    ensures Goes(Offset(op, align, mem, b), Offset(op, align, mem, b + x), x)
  {
    UlebOn(b, x, 64);
  }

  lemma MemArgOn(op: byte, b: bytes, x: bytes)
    ensures Goes(MemArg(op, b), MemArg(op, b + x), x)
  {
    UlebOn(b, x, 32);
    LessLeft(b + x, 32);
    if U32(b).Ok? {
      var flags, rest := U32(b).value, U32(b).rest;
      if flags < 64 {
        OffsetOn(op, flags, 0, rest, x);
      } else if flags < 128 {
        UlebOn(rest, x, 32);
        if U32(rest).Ok? { OffsetOn(op, flags - 64, U32(rest).value, U32(rest).rest, x); }
      }
    }
  }

  lemma BrTableOn(b: bytes, x: bytes)
    ensures Goes(DecodeBrTable(b), DecodeBrTable(b + x), x)
  {
    CountOn(b, x);
    LastLeft(b + x);
    if Count(b).Ok? {
      var n, rest := Count(b).value, Count(b).rest;
      VecU32On(n, rest, x);
      if VecU32(n, rest).Ok? { UlebOn(VecU32(n, rest).rest, x, 32); }
    }
  }

  lemma LastLeft(b: bytes)
    ensures DecodeBrTable(b).Ok? ==>
      && Count(b).Ok? && Count(b).value + |DecodeBrTable(b).rest| < |Count(b).rest|
      && |DecodeBrTable(b).rest| < |VecU32(Count(b).value, Count(b).rest).rest|
  {
    if Count(b).Ok? {
      var v := VecU32(Count(b).value, Count(b).rest);
      if v.Ok? { UShrinks(v.rest, 32); }
    }
  }

  lemma SelectOn(b: bytes, x: bytes)
    ensures Goes(DecodeOther(0x1C, b), DecodeOther(0x1C, b + x), x)
  {
    CountOn(b, x);
    if Count(b).Ok? { VecValTypeOn(Count(b).value, Count(b).rest, x); }
  }

  lemma FloatOn(op: byte, n: nat, b: bytes, x: bytes)
    requires (op == 0x43 && n == 4) || (op == 0x44 && n == 8)
    ensures Goes(DecodeConst(op, b), DecodeConst(op, b + x), x)
  {
    if |b| >= n { assert (b + x)[..n] == b[..n] && (b + x)[n..] == b[n..] + x; }
  }

  lemma ConstOn(op: byte, b: bytes, x: bytes)
    ensures Goes(DecodeConst(op, b), DecodeConst(op, b + x), x)
  {
    if op == 0x43 { FloatOn(op, 4, b, x); }
    else if op == 0x44 { FloatOn(op, 8, b, x); }
    else { SlebOn(b, x, if op == 0x41 then 32 else 64); }
  }

  lemma SubOn(sub: nat, b: bytes, x: bytes)
    ensures Goes(DecodeSub(sub, b), DecodeSub(sub, b + x), x)
  {
    UlebOn(b, x, 32);
    TwoOn(b, x);
  }

  lemma FCOn(b: bytes, x: bytes)
    ensures Goes(DecodeFC(b), DecodeFC(b + x), x)
  {
    UlebOn(b, x, 32);
    if U32(b).Ok? { SubOn(U32(b).value, U32(b).rest, x); }
  }

  lemma OtherOn(op: byte, b: bytes, x: bytes)
    ensures Goes(DecodeOther(op, b), DecodeOther(op, b + x), x)
  {
    if op == 0x0E { BrTableOn(b, x); }
    else if op == 0xD0 { HeapTypeOn(b, x); }
    else if op == 0x1C { SelectOn(b, x); }
    else if op == 0xFC { FCOn(b, x); }
    else { ConstOn(op, b, x); }
  }

  lemma FlatOn(op: byte, b: bytes, x: bytes)
    ensures Goes(DecodeFlat(op, b), DecodeFlat(op, b + x), x)
  {
    if IsMem(op) { MemArgOn(op, b, x); }
    else if IsOne(op) { UlebOn(b, x, 32); }
    else if IsTwo(op) { TwoOn(b, x); }
    else { OtherOn(op, b, x); }
  }

  lemma {:induction false} InstrsOn(b: bytes, x: bytes)
    ensures Goes(Instrs(b), Instrs(b + x), x)
    decreases |b|, 0
  {
    if b != [] {
      FirstOf(b, x);
      if b[0] != 0x0B && b[0] != 0x05 {
        InstrOn(b[0], b[1..], x);
        var r := DecodeInstr(b[0], b[1..]);
        if r.Ok? { InstrsOn(r.rest, x); }
      }
    }
  }

  lemma {:induction false} BodyOn(b: bytes, x: bytes)
    ensures Goes(BlockBody(b), BlockBody(b + x), x)
    decreases |b|, 1
  {
    InstrsOn(b, x);
  }

  lemma {:induction false} InstrOn(op: byte, b: bytes, x: bytes)
    ensures Goes(DecodeInstr(op, b), DecodeInstr(op, b + x), x)
    decreases |b|, 4
  {
    if IsBlock(op) { BlockOn(op, b, x); }
    else if op == 0x04 { IfOn(b, x); }
    else if op == 0x1F { TryTableOn(b, x); }
    else { FlatOn(op, b, x); }
  }

  lemma {:induction false} BlockOn(op: byte, b: bytes, x: bytes)
    ensures Goes(DecodeBlock(op, b), DecodeBlock(op, b + x), x)
    decreases |b|, 3
  {
    BlockTypeOn(b, x);
    var t := DecodeBlockType(b);
    if t.Ok? { BodyOn(t.rest, x); }
  }

  lemma {:induction false} IfOn(b: bytes, x: bytes)
    ensures Goes(DecodeIf(b), DecodeIf(b + x), x)
    decreases |b|, 3
  {
    BlockTypeOn(b, x);
    var t := DecodeBlockType(b);
    if t.Ok? {
      InstrsOn(t.rest, x);
      var first := Instrs(t.rest);
      if first.Ok? { BodyOn(first.rest, x); }
    }
  }

  lemma {:induction false} TryTableOn(b: bytes, x: bytes)
    ensures Goes(DecodeTryTable(b), DecodeTryTable(b + x), x)
    decreases |b|, 3
  {
    BlockTypeOn(b, x);
    var t := DecodeBlockType(b);
    if t.Ok? {
      CountOn(t.rest, x);
      var c := Count(t.rest);
      if c.Ok? { HandledOn(t.value, c.value, c.rest, x); }
    }
  }

  lemma {:induction false} HandledOn(bt: BlockType, n: nat, b: bytes, x: bytes)
    ensures Goes(DecodeHandled(bt, n, b), DecodeHandled(bt, n, b + x), x)
    decreases |b|, 2
  {
    VecCatchOn(n, b, x);
    var c := VecCatch(n, b);
    if c.Ok? { BodyOn(c.rest, x); }
  }

  /** Bytes behind an expression change nothing in it, and do not mend what was refused for any other reason than
      coming to an end. */
  lemma MoreChangesNothing(b: bytes, x: bytes)
    ensures Expr(b).Ok? ==> Expr(b + x) == Ok(Expr(b).value, Expr(b).rest + x)
    ensures Expr(b).Bad? && Expr(b).error != UnexpectedEnd && Expr(b).error != LengthOutOfBounds ==>
      Expr(b + x) == Expr(b)
  {
    BodyOn(b, x);
  }

  /** What the decoder accepts it refuses when cut short anywhere, as an end come upon or a count that does not fit. */
  lemma CutShort(b: bytes, k: nat)
    requires Expr(b).Ok? && k <= |b|
    ensures Expr(b[..k]).Ok? <==> k >= |b| - |Expr(b).rest|
    ensures var r := Expr(b[..k]); r.Bad? ==> r.error == UnexpectedEnd || r.error == LengthOutOfBounds
  {
    BodyOn(b[..k], b[k..]);
    assert b[..k] + b[k..] == b;
  }

  // ----- the first fault -----

  function Behind(instrs: seq<Instr>, r: Parsed<Body>): Parsed<Body> {
    if r.Ok? then Ok(Body(instrs + r.value.instrs, r.value.ending), r.rest) else r
  }

  lemma OneThen(i: Instr, b: bytes)
    requires InstrOk(i)
    ensures Instrs([Opcode(i)] + PutImmediates(i, b)) == Behind([i], Instrs(b))
  {
    assert ([Opcode(i)] + PutImmediates(i, b))[1..] == PutImmediates(i, b);
    InstrReads(i, b);
    NoTerminator(i);
  }

  lemma BehindOne(i: Instr, instrs: seq<Instr>, r: Parsed<Body>)
    ensures Behind([i], Behind(instrs, r)) == Behind([i] + instrs, r)
  {
    if r.Ok? { assert [i] + (instrs + r.value.instrs) == [i] + instrs + r.value.instrs; }
  }

  /** Behind any run of instructions the decoder does as it does without them. */
  lemma {:induction false} RunThen(instrs: seq<Instr>, b: bytes)
    requires AllOk(instrs)
    ensures Instrs(PutInstrs(instrs, b)) == Behind(instrs, Instrs(b))
    decreases instrs
  {
    if instrs == [] {
      assert Instrs(b).Ok? ==> [] + Instrs(b).value.instrs == Instrs(b).value.instrs;
    } else {
      RunThen(instrs[1..], b);
      OneThen(instrs[0], PutInstrs(instrs[1..], b));
      BehindOne(instrs[0], instrs[1..], Instrs(b));
      assert [instrs[0]] + instrs[1..] == instrs;
    }
  }

  /** The opening of an instruction that holds others, up to where they start. */
  datatype Opening =
    | OfBlock(op: byte, bt: BlockType)
    | OfThen(bt: BlockType)
    | OfElse(bt: BlockType, onTrue: seq<Instr>)
    | OfTry(bt: BlockType, catches: seq<Catch>)

  predicate OpeningOk(o: Opening) {
    && BlockTypeOk(o.bt)
    && (o.OfBlock? ==> IsBlock(o.op))
    && (o.OfElse? ==> AllOk(o.onTrue))
    && (o.OfTry? ==> CatchesOk(o.catches))
  }

  function Open(o: Opening, b: bytes): bytes
    requires OpeningOk(o)
  {
    match o
    case OfBlock(op, bt) => [op] + PutBlockType(bt, b)
    case OfThen(bt) => [0x04] + PutBlockType(bt, b)
    case OfElse(bt, onTrue) => [0x04] + PutBlockType(bt, PutInstrs(onTrue, [0x05] + b))
    case OfTry(bt, catches) => [0x1F] + PutBlockType(bt, PutU(|catches|, PutCatches(catches, b)))
  }

  /** A place in a tree: behind a run of instructions, inside an opening that is at a place itself. */
  datatype Spot = Top(before: seq<Instr>) | Inside(outer: Spot, opening: Opening, before: seq<Instr>)

  predicate SpotOk(s: Spot) {
    AllOk(s.before) && (s.Inside? ==> OpeningOk(s.opening) && SpotOk(s.outer))
  }

  /** The bytes of all that is open at a place, in front of `b`. */
  function Lead(s: Spot, b: bytes): bytes
    requires SpotOk(s)
  {
    match s
    case Top(before) => PutInstrs(before, b)
    case Inside(outer, o, before) => Lead(outer, Open(o, PutInstrs(before, b)))
  }

  /** What the decoder answers when the instructions inside an opening stop with `inside`. */
  ghost predicate Stopped(o: Opening, inside: Parsed<Body>, whole: Parsed<Body>) {
    && (inside.Bad? ==> whole == Bad(inside.error))
    && (inside.Ok? && inside.value.ending.Else? && !o.OfThen? ==> whole == Bad(UnexpectedElse))
  }

  /** A body whose instructions stop so is refused. */
  lemma BodyStops(b: bytes)
    ensures Instrs(b).Bad? ==> BlockBody(b) == Bad(Instrs(b).error)
    ensures Instrs(b).Ok? && Instrs(b).value.ending.Else? ==> BlockBody(b) == Bad(UnexpectedElse)
  {
  }

  /** An instruction that is refused ends the run. */
  lemma InstrStops(op: byte, b: bytes, e: Error)
    requires op != 0x0B && op != 0x05 && DecodeInstr(op, b) == Bad(e)
    ensures Instrs([op] + b) == Bad(e)
  {
    assert ([op] + b)[1..] == b;
  }

  lemma BlockStops(op: byte, bt: BlockType, b: bytes, e: Error)
    requires IsBlock(op) && BlockTypeOk(bt) && BlockBody(b) == Bad(e)
    ensures Instrs([op] + PutBlockType(bt, b)) == Bad(e)
  {
    var x := PutBlockType(bt, b);
    BlockTypeReads(bt, b);
    DispatchBody(op, x);
    assert DecodeBlock(op, x) == Bad(e);
    InstrStops(op, x, e);
  }

  lemma ThenStops(bt: BlockType, b: bytes, e: Error)
    requires BlockTypeOk(bt) && Instrs(b) == Bad(e)
    ensures Instrs([0x04] + PutBlockType(bt, b)) == Bad(e)
  {
    var x := PutBlockType(bt, b);
    BlockTypeReads(bt, b);
    DispatchBody(0x04, x);
    assert DecodeIf(x) == Bad(e);
    InstrStops(0x04, x, e);
  }

  lemma ElseStops(bt: BlockType, onTrue: seq<Instr>, b: bytes, e: Error)
    requires BlockTypeOk(bt) && AllOk(onTrue) && BlockBody(b) == Bad(e)
    ensures Instrs([0x04] + PutBlockType(bt, PutInstrs(onTrue, [0x05] + b))) == Bad(e)
  {
    var first := PutInstrs(onTrue, [EndByte(Else)] + b);
    var x := PutBlockType(bt, first);
    InstrsRead(onTrue, Else, b);
    BlockTypeReads(bt, first);
    DispatchBody(0x04, x);
    assert DecodeIf(x) == Bad(e);
    InstrStops(0x04, x, e);
  }

  lemma TryStops(bt: BlockType, catches: seq<Catch>, b: bytes, e: Error)
    requires BlockTypeOk(bt) && CatchesOk(catches) && BlockBody(b) == Bad(e)
    ensures Instrs([0x1F] + PutBlockType(bt, PutU(|catches|, PutCatches(catches, b)))) == Bad(e)
  {
    var handlers := PutCatches(catches, b);
    var vec := PutU(|catches|, handlers);
    var x := PutBlockType(bt, vec);
    CatchesRead(catches, b);
    CountReads(|catches|, handlers);
    BlockTypeReads(bt, vec);
    DispatchBody(0x1F, x);
    assert DecodeHandled(bt, |catches|, handlers) == Bad(e);
    assert DecodeTryTable(x) == Bad(e);
    InstrStops(0x1F, x, e);
  }

  lemma OpenThen(o: Opening, b: bytes)
    requires OpeningOk(o)
    ensures Stopped(o, Instrs(b), Instrs(Open(o, b)))
  {
    BodyStops(b);
    if o.OfThen? {
      if Instrs(b).Bad? { ThenStops(o.bt, b, Instrs(b).error); }
    } else if BlockBody(b).Bad? {
      var e := BlockBody(b).error;
      match o
      case OfBlock(op, bt) => BlockStops(op, bt, b, e);
      case OfElse(bt, onTrue) => ElseStops(bt, onTrue, b, e);
      case OfTry(bt, catches) => TryStops(bt, catches, b, e);
    }
  }

  /** However deep it comes, and whatever run of instructions is before it at each depth, what the decoder says of a
      fault is what it says of it alone. */
  lemma {:induction false} AnyDepth(s: Spot, b: bytes)
    requires SpotOk(s)
    ensures Instrs(b).Bad? ==> Instrs(Lead(s, b)) == Bad(Instrs(b).error)
  {
    RunThen(s.before, b);
    if s.Inside? {
      OpenThen(s.opening, PutInstrs(s.before, b));
      AnyDepth(s.outer, Open(s.opening, PutInstrs(s.before, b)));
    }
  }

  /** An `else` where none may be: at the top, or inside anything but the first half of an `if`. */
  lemma ElseOutOfPlace(s: Spot, b: bytes)
    requires SpotOk(s)
    ensures s.Top? ==> Expr(Lead(s, [0x05] + b)) == Bad(UnexpectedElse)
    ensures s.Inside? && !s.opening.OfThen? ==> Instrs(Lead(s, [0x05] + b)) == Bad(UnexpectedElse)
  {
    RunThen(s.before, [0x05] + b);
    if s.Inside? {
      OpenThen(s.opening, PutInstrs(s.before, [0x05] + b));
      AnyDepth(s.outer, Open(s.opening, PutInstrs(s.before, [0x05] + b)));
    }
  }

  // ----- the faults an instruction has in itself, at any place -----

  /** Opcodes with immediates of a form of their own, and the two that end a run. */
  const ODD: set<byte> := {0x04, 0x05, 0x0B, 0x0E, 0x1C, 0x1F, 0x41, 0x42, 0x43, 0x44, 0xD0, 0xFC}

  /** Prefixes whose instructions other modules decode. */
  const ELSEWHERE: set<byte> := {0xFB, 0xFD, 0xFE}

  lemma InstrFault(s: Spot, op: byte, b: bytes, e: Error)
    requires SpotOk(s) && op != 0x0B && op != 0x05 && DecodeInstr(op, b) == Bad(e)
    ensures Instrs(Lead(s, [op] + b)) == Bad(e)
  {
    InstrStops(op, b, e);
    AnyDepth(s, [op] + b);
  }

  lemma FlatFault(s: Spot, op: byte, b: bytes, e: Error)
    requires SpotOk(s) && DecodeFlat(op, b) == Bad(e)
    requires !IsBlock(op) && op != 0x04 && op != 0x05 && op != 0x0B && op != 0x1F
    ensures Instrs(Lead(s, [op] + b)) == Bad(e)
  {
    DispatchFlat(op, b);
    InstrFault(s, op, b, e);
  }

  /** A byte that is no opcode, and a prefix that belongs to another module. */
  lemma NoOpcode(s: Spot, op: byte, b: bytes)
    requires SpotOk(s) && Shapes(op / 16)[op % 16] == '.' && op !in ODD
    ensures Instrs(Lead(s, [op] + b)) == Bad(if op in ELSEWHERE then AnotherModule else IllegalOpcode)
  {
    OpcodesByShape(op);
    FlatFault(s, op, b, if op in ELSEWHERE then AnotherModule else IllegalOpcode);
  }

  lemma FCFirst(b: bytes, e: Error)
    requires DecodeFC(b) == Bad(e)
    ensures DecodeFlat(0xFC, b) == Bad(e)
  {
    assert DecodeOther(0xFC, b) == Bad(e);
  }

  lemma NoSubopcode(s: Spot, sub: nat, b: bytes)
    requires SpotOk(s) && |SHAPES_FC| <= sub < 0x1_0000_0000
    ensures Instrs(Lead(s, [0xFC] + PutU(sub, b))) == Bad(IllegalOpcode)
  {
    OpcodesByShapeFC(sub);
    U32RoundTrip(sub, b);
    FCFirst(PutU(sub, b), IllegalOpcode);
    FlatFault(s, 0xFC, PutU(sub, b), IllegalOpcode);
  }

  /** An integer of an immediate that is refused is what the instruction is refused for. */
  lemma BadInteger(s: Spot, op: byte, b: bytes)
    requires SpotOk(s) && (IsOne(op) || IsTwo(op) || IsMem(op) || op == 0x0E || op == 0x1C || op == 0xFC)
    ensures U32(b).Bad? ==> Instrs(Lead(s, [op] + b)) == Bad(U32(b).error)
  {
    if U32(b).Bad? {
      assert DecodeFlat(op, b) == Bad(U32(b).error);
      FlatFault(s, op, b, U32(b).error);
    }
  }

  lemma BadI32(s: Spot, b: bytes)
    requires SpotOk(s) && S32(b).Bad?
    ensures Instrs(Lead(s, [0x41] + b)) == Bad(S32(b).error)
  {
    assert DecodeConst(0x41, b) == Bad(S32(b).error);
    FlatFault(s, 0x41, b, S32(b).error);
  }

  lemma BadI64(s: Spot, b: bytes)
    requires SpotOk(s) && S64(b).Bad?
    ensures Instrs(Lead(s, [0x42] + b)) == Bad(S64(b).error)
  {
    assert DecodeConst(0x42, b) == Bad(S64(b).error);
    FlatFault(s, 0x42, b, S64(b).error);
  }

  lemma CutFloat(s: Spot, op: byte, b: bytes)
    requires SpotOk(s) && ((op == 0x43 && |b| < 4) || (op == 0x44 && |b| < 8))
    ensures Instrs(Lead(s, [op] + b)) == Bad(UnexpectedEnd)
  {
    assert DecodeConst(op, b) == Bad(UnexpectedEnd);
    FlatFault(s, op, b, UnexpectedEnd);
  }

  /** An alignment with bits above the flag. */
  lemma HighFlags(s: Spot, op: byte, flags: nat, b: bytes)
    requires SpotOk(s) && 0x28 <= op <= 0x3E && 128 <= flags < 0x1_0000_0000
    ensures Instrs(Lead(s, [op] + PutU(flags, b))) == Bad(MalformedMemopFlags)
  {
    U32RoundTrip(flags, b);
    FlatFault(s, op, PutU(flags, b), MalformedMemopFlags);
  }

  lemma LongCount(n: nat, b: bytes)
    requires |b| < n < 0x1_0000_0000
    ensures Count(PutU(n, b)) == Bad(LengthOutOfBounds)
  {
    U32RoundTrip(n, b);
  }

  lemma CountFirst(op: byte, b: bytes, e: Error)
    requires (op == 0x0E || op == 0x1C) && Count(b) == Bad(e)
    ensures DecodeFlat(op, b) == Bad(e)
  {
  }

  /** A vector of labels, types or handlers that declares more elements than there are bytes. */
  lemma CountTooLarge(s: Spot, op: byte, n: nat, b: bytes)
    requires SpotOk(s) && (op == 0x0E || op == 0x1C) && |b| < n < 0x1_0000_0000
    ensures Instrs(Lead(s, [op] + PutU(n, b))) == Bad(LengthOutOfBounds)
  {
    LongCount(n, b);
    CountFirst(op, PutU(n, b), LengthOutOfBounds);
    FlatFault(s, op, PutU(n, b), LengthOutOfBounds);
  }

  lemma HandlersTooMany(s: Spot, bt: BlockType, n: nat, b: bytes)
    requires SpotOk(s) && BlockTypeOk(bt) && |b| < n < 0x1_0000_0000
    ensures Instrs(Lead(s, [0x1F] + PutBlockType(bt, PutU(n, b)))) == Bad(LengthOutOfBounds)
  {
    LongCount(n, b);
    BlockTypeReads(bt, PutU(n, b));
    DispatchBody(0x1F, PutBlockType(bt, PutU(n, b)));
    InstrFault(s, 0x1F, PutBlockType(bt, PutU(n, b)), LengthOutOfBounds);
  }

  /** A negative code that is no heap type, and one that is no block type either. */
  lemma NoHeapType(s: Spot, code: int, b: bytes)
    requires SpotOk(s) && Within(code, 33) && code < 0 && !(-23 <= code <= -12)
    ensures Instrs(Lead(s, [0xD0] + PutS(code, b))) == Bad(MalformedHeapType)
  {
    SRoundTrip(code, 33, b);
    FlatFault(s, 0xD0, PutS(code, b), MalformedHeapType);
  }

  lemma NoBlockType(s: Spot, op: byte, code: int, b: bytes)
    requires SpotOk(s) && (0x02 <= op <= 0x04 || op == 0x1F) && Within(code, 33) && code < 0
    requires !(-5 <= code <= -1) && !(-23 <= code <= -12) && code != -28 && code != -29 && code != -64
    ensures Instrs(Lead(s, [op] + PutS(code, b))) == Bad(MalformedBlockType)
  {
    SRoundTrip(code, 33, b);
    DispatchBody(op, PutS(code, b));
    InstrFault(s, op, PutS(code, b), MalformedBlockType);
  }

  /** An element of a vector that is none, behind elements that are. */
  lemma NoValType(s: Spot, types: seq<ValType>, n: nat, t: byte, b: bytes)
    requires SpotOk(s) && TypesOk(types) && |types| < n < 0x1_0000_0000 && n <= |PutTypes(types, [t] + b)|
    requires !(0x7B <= t <= 0x7F) && !(0x69 <= t <= 0x74) && t != 0x63 && t != 0x64
    ensures Instrs(Lead(s, [0x1C] + PutU(n, PutTypes(types, [t] + b)))) == Bad(MalformedValueType)
  {
    var items := PutTypes(types, [t] + b);
    TypesThen(types, n, [t] + b, MalformedValueType);
    CountReads(n, items);
    FlatFault(s, 0x1C, PutU(n, items), MalformedValueType);
  }

  lemma {:induction false} TypesThen(types: seq<ValType>, n: nat, b: bytes, e: Error)
    requires (forall t <- types :: ValTypeOk(t)) && |types| < n && DecodeValType(b) == Bad(e)
    ensures VecValType(n, PutTypes(types, b)) == Bad(e)
    decreases n
  {
    if types != [] {
      ValTypeReads(types[0], PutTypes(types[1..], b));
      TypesThen(types[1..], n - 1, b, e);
    }
  }

  lemma NoCatch(s: Spot, bt: BlockType, catches: seq<Catch>, n: nat, kind: byte, b: bytes)
    requires SpotOk(s) && BlockTypeOk(bt) && CatchesOk(catches) && kind >= 4
    requires |catches| < n < 0x1_0000_0000 && n <= |PutCatches(catches, [kind] + b)|
    ensures Instrs(Lead(s, [0x1F] + PutBlockType(bt, PutU(n, PutCatches(catches, [kind] + b)))))
         == Bad(MalformedCatchClause)
  {
    var items := PutCatches(catches, [kind] + b);
    CatchesThen(catches, n, [kind] + b, MalformedCatchClause);
    CountReads(n, items);
    BlockTypeReads(bt, PutU(n, items));
    DispatchBody(0x1F, PutBlockType(bt, PutU(n, items)));
    InstrFault(s, 0x1F, PutBlockType(bt, PutU(n, items)), MalformedCatchClause);
  }

  lemma {:induction false} CatchesThen(catches: seq<Catch>, n: nat, b: bytes, e: Error)
    requires (forall c <- catches :: CatchOk(c)) && |catches| < n && CatchClause(b) == Bad(e)
    ensures VecCatch(n, PutCatches(catches, b)) == Bad(e)
    decreases n
  {
    if catches != [] {
      CatchesThen(catches[1..], n - 1, b, e);
      CatchThen(catches, n, b, e);
    }
  }

  lemma CatchThen(catches: seq<Catch>, n: nat, b: bytes, e: Error)
    requires catches != [] && CatchOk(catches[0]) && n > 0
    requires VecCatch(n - 1, PutCatches(catches[1..], b)) == Bad(e)
    ensures VecCatch(n, PutCatches(catches, b)) == Bad(e)
  {
    CatchReads(catches[0], PutCatches(catches[1..], b));
  }
}
