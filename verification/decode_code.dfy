/**
 * The instruction decoder and a canonical encoder that it inverts.
 *
 * Opcodes are grouped by the shape of their immediates; bodies nest. Types keep
 * the code the binary format gives them: i32 is -1, (ref null func) is a
 * nullable reference to the abstract heap type -16.
 */
module DecodeCode {
  import opened LittleEndian
  import opened Leb128

  datatype HeapType = Abstract(code: int) | TypeIndex(index: nat)

  datatype ValType = Num(code: int) | RefType(nullable: bool, heap: HeapType)

  datatype BlockType = Empty | Val(t: ValType) | FuncType(index: nat)

  /** `Tagged` is catch and catch_ref, the other catch_all and catch_all_ref. */
  datatype Catch = Tagged(kind: byte, tag: nat, target: nat) | All(kind: byte, target: nat)

  datatype Instr =
    | Plain(op: byte)
    | One(op: byte, index: nat)
    | Two(op: byte, first: nat, second: nat)
    | Block(op: byte, bt: BlockType, body: seq<Instr>)
    | If(bt: BlockType, onTrue: seq<Instr>, onFalse: seq<Instr>)
    | TryTable(bt: BlockType, catches: seq<Catch>, body: seq<Instr>)
    | BrTable(labels: seq<nat>, last: nat)
    | RefNull(heap: HeapType)
    | Select(types: seq<ValType>)
    | MemOp(op: byte, align: nat, offset: nat, mem: nat)
    | I32Const(v: int)
    | I64Const(v: int)
    | F32Const(bits: nat)
    | F64Const(bits: nat)
    | PlainFC(sub: nat)
    | OneFC(sub: nat, index: nat)
    | TwoFC(sub: nat, first: nat, second: nat)

  /** What ends a run of instructions. */
  datatype Ending = End | Else

  datatype Body = Body(instrs: seq<Instr>, ending: Ending)

  // ----- opcodes by the shape of their immediates -----

  predicate IsPlain(op: byte) {
    op == 0x00 || op == 0x01 || op == 0x0A || op == 0x0F || op == 0x1A || op == 0x1B
    || op == 0xD1 || op == 0xD3 || op == 0xD4 || 0x45 <= op <= 0xC4
  }

  predicate IsOne(op: byte) {
    op == 0x08 || op == 0x0C || op == 0x0D || op == 0x10 || op == 0x12 || op == 0x14 || op == 0x15
    || 0x20 <= op <= 0x26 || op == 0x3F || op == 0x40 || op == 0xD2 || op == 0xD5 || op == 0xD6
  }

  predicate IsTwo(op: byte) { op == 0x11 || op == 0x13 }

  predicate IsBlock(op: byte) { op == 0x02 || op == 0x03 }

  predicate IsMem(op: byte) { 0x28 <= op <= 0x3E }

  predicate IsPlainFC(sub: nat) { sub < 8 }

  predicate IsOneFC(sub: nat) { sub == 9 || sub == 11 || sub == 13 || 15 <= sub <= 17 }

  predicate IsTwoFC(sub: nat) { sub == 8 || sub == 10 || sub == 12 || sub == 14 }

  /** The abstract heap types, as negative s33 codes. */
  predicate IsAbstract(code: int) { -23 <= code <= -12 }

  predicate IsNum(code: int) { -5 <= code <= -1 }

  // ----- types -----

  function DecodeHeapType(b: bytes): (r: Parsed<HeapType>)
    ensures r.Ok? ==> |r.rest| < |b|
  {
    S33Shrinks(b);
    match S33(b)
    case Bad(e) => Bad(e)
    case Ok(x, rest) =>
      if IsAbstract(x) then Ok(Abstract(x), rest)
      else if x >= 0 then Ok(TypeIndex(x), rest)
      else Bad(MalformedHeapType)
  }

  function DecodeRef(nullable: bool, b: bytes): (r: Parsed<ValType>)
    ensures r.Ok? ==> |r.rest| < |b|
  {
    match DecodeHeapType(b)
    case Ok(heap, rest) => Ok(RefType(nullable, heap), rest)
    case Bad(e) => Bad(e)
  }

  function DecodeValType(b: bytes): (r: Parsed<ValType>)
    ensures r.Ok? ==> |r.rest| < |b|
  {
    if b == [] then Bad(UnexpectedEnd)
    else if 0x7B <= b[0] <= 0x7F then Ok(Num((b[0] as int) - 128), b[1..])
    else if 0x69 <= b[0] <= 0x74 then Ok(RefType(true, Abstract((b[0] as int) - 128)), b[1..])
    else if b[0] == 0x63 then DecodeRef(true, b[1..])
    else if b[0] == 0x64 then DecodeRef(false, b[1..])
    else Bad(MalformedValueType)
  }

  /** Value types are negative s33 values and type indices are not, so one signed read tells them apart. */
  function DecodeBlockType(b: bytes): (r: Parsed<BlockType>)
    ensures r.Ok? ==> |r.rest| < |b|
  {
    S33Shrinks(b);
    match S33(b)
    case Bad(e) => Bad(e)
    case Ok(x, rest) =>
      if x == -64 then Ok(Empty, rest)
      else if IsNum(x) then Ok(Val(Num(x)), rest)
      else if IsAbstract(x) then Ok(Val(RefType(true, Abstract(x))), rest)
      else if x == -29 || x == -28 then
        match DecodeRef(x == -29, rest)
        case Ok(t, rest1) => Ok(Val(t), rest1)
        case Bad(e) => Bad(e)
      else if x >= 0 then Ok(FuncType(x), rest)
      else Bad(MalformedBlockType)
  }

  lemma S33Shrinks(b: bytes)
    ensures S33(b).Ok? ==> |S33(b).rest| < |b|
  {
    SignedIs(b, MaxBytes(33), 1, 0, 1);
  }

  /** What every integer read leaves is shorter than what it was given. */
  lemma UShrinks(b: bytes, bits: nat)
    ensures Uleb(b, bits).Ok? ==> |Uleb(b, bits).rest| < |b|
  {
    UnsignedIs(b, MaxBytes(bits), 1, 0, 1);
  }

  // ----- vectors -----

  /** A declared count that could not fit is refused before anything is read. */
  function Count(b: bytes): (r: Parsed<nat>)
    ensures r.Ok? ==> |r.rest| < |b| && r.value <= |r.rest|
  {
    UShrinks(b, 32);
    match U32(b)
    case Ok(n, rest) => if n > |rest| then Bad(LengthOutOfBounds) else Ok(n, rest)
    case Bad(e) => Bad(e)
  }

  function VecU32(n: nat, b: bytes): (r: Parsed<seq<nat>>)
    ensures r.Ok? ==> |r.rest| + n <= |b| && |r.value| == n
  {
    if n == 0 then Ok([], b) else
      UShrinks(b, 32);
      match U32(b)
      case Bad(e) => Bad(e)
      case Ok(v, rest) =>
        match VecU32(n - 1, rest)
        case Bad(e) => Bad(e)
        case Ok(vs, rest1) => Ok([v] + vs, rest1)
  }

  function VecValType(n: nat, b: bytes): (r: Parsed<seq<ValType>>)
    ensures r.Ok? ==> |r.rest| + n <= |b| && |r.value| == n
  {
    if n == 0 then Ok([], b) else
      match DecodeValType(b)
      case Bad(e) => Bad(e)
      case Ok(t, rest) =>
        match VecValType(n - 1, rest)
        case Bad(e) => Bad(e)
        case Ok(ts, rest1) => Ok([t] + ts, rest1)
  }

  function CatchClause(b: bytes): (r: Parsed<Catch>)
    ensures r.Ok? ==> |r.rest| < |b|
  {
    if b == [] then Bad(UnexpectedEnd)
    else if b[0] < 2 then
      match DecodeTwo(b[1..])
      case Bad(e) => Bad(e)
      case Ok(two, rest) => Ok(Tagged(b[0], two.0, two.1), rest)
    else if b[0] < 4 then
      UShrinks(b[1..], 32);
      match U32(b[1..])
      case Bad(e) => Bad(e)
      case Ok(target, rest) => Ok(All(b[0], target), rest)
    else Bad(MalformedCatchClause)
  }

  function VecCatch(n: nat, b: bytes): (r: Parsed<seq<Catch>>)
    ensures r.Ok? ==> |r.rest| + n <= |b| && |r.value| == n
  {
    if n == 0 then Ok([], b) else
      match CatchClause(b)
      case Bad(e) => Bad(e)
      case Ok(c, rest) =>
        match VecCatch(n - 1, rest)
        case Bad(e) => Bad(e)
        case Ok(cs, rest1) => Ok([c] + cs, rest1)
  }

  function DecodeTwo(b: bytes): (r: Parsed<(nat, nat)>)
    ensures r.Ok? ==> |r.rest| + 2 <= |b|
  {
    UShrinks(b, 32);
    match U32(b)
    case Bad(e) => Bad(e)
    case Ok(x, rest) =>
      UShrinks(rest, 32);
      match U32(rest)
      case Bad(e) => Bad(e)
      case Ok(y, rest1) => Ok((x, y), rest1)
  }

  /** Bit 6 of the alignment says a memory index follows; anything above it is no encoding at all. */
  function MemArg(op: byte, b: bytes): (r: Parsed<Instr>)
    ensures r.Ok? ==> |r.rest| < |b|
  {
    UShrinks(b, 32);
    match U32(b)
    case Bad(e) => Bad(e)
    case Ok(flags, rest) =>
      if flags >= 128 then Bad(MalformedMemopFlags)
      else if flags >= 64 then
        UShrinks(rest, 32);
        match U32(rest)
        case Bad(e) => Bad(e)
        case Ok(mem, rest1) => Offset(op, flags - 64, mem, rest1)
      else Offset(op, flags, 0, rest)
  }

  function Offset(op: byte, align: nat, mem: nat, b: bytes): (r: Parsed<Instr>)
    ensures r.Ok? ==> |r.rest| < |b|
  {
    UShrinks(b, 64);
    match U64(b)
    case Bad(e) => Bad(e)
    case Ok(offset, rest) => Ok(MemOp(op, align, offset, mem), rest)
  }

  // ----- instructions -----

  function Expr(b: bytes): (r: Parsed<seq<Instr>>)
    ensures r.Ok? ==> |r.rest| < |b|
  {
    BlockBody(b)
  }

  /** Instructions up to and including the byte that ends them. */
  function Instrs(b: bytes): (r: Parsed<Body>)
    ensures r.Ok? ==> |r.rest| < |b|
    decreases |b|, 0
  {
    if b == [] then Bad(UnexpectedEnd)
    else if b[0] == 0x0B then Ok(Body([], End), b[1..])
    else if b[0] == 0x05 then Ok(Body([], Else), b[1..])
    else
      match DecodeInstr(b[0], b[1..])
      case Bad(e) => Bad(e)
      case Ok(i, rest) =>
        match Instrs(rest)
        case Bad(e) => Bad(e)
        case Ok(body, rest1) => Ok(Body([i] + body.instrs, body.ending), rest1)
  }

  /** A body that must end with `end`, never `else`. */
  function BlockBody(b: bytes): (r: Parsed<seq<Instr>>)
    ensures r.Ok? ==> |r.rest| < |b|
    decreases |b|, 1
  {
    match Instrs(b)
    case Bad(e) => Bad(e)
    case Ok(body, rest) => if body.ending.End? then Ok(body.instrs, rest) else Bad(UnexpectedElse)
  }

  function DecodeInstr(op: byte, b: bytes): (r: Parsed<Instr>)
    ensures r.Ok? ==> |r.rest| <= |b|
    decreases |b|, 4
  {
    if IsBlock(op) then DecodeBlock(op, b)
    else if op == 0x04 then DecodeIf(b)
    else if op == 0x1F then DecodeTryTable(b)
    else DecodeFlat(op, b)
  }

  function DecodeBlock(op: byte, b: bytes): (r: Parsed<Instr>)
    ensures r.Ok? ==> |r.rest| < |b|
    decreases |b|, 3
  {
    match DecodeBlockType(b)
    case Bad(e) => Bad(e)
    case Ok(bt, rest) =>
      match BlockBody(rest)
      case Bad(e) => Bad(e)
      case Ok(body, rest1) => Ok(Block(op, bt, body), rest1)
  }

  function DecodeIf(b: bytes): (r: Parsed<Instr>)
    ensures r.Ok? ==> |r.rest| < |b|
    decreases |b|, 3
  {
    match DecodeBlockType(b)
    case Bad(e) => Bad(e)
    case Ok(bt, rest) =>
      match Instrs(rest)
      case Bad(e) => Bad(e)
      case Ok(first, rest1) =>
        if first.ending.End? then Ok(If(bt, first.instrs, []), rest1)
        else
          match BlockBody(rest1)
          case Bad(e) => Bad(e)
          case Ok(second, rest2) => Ok(If(bt, first.instrs, second), rest2)
  }

  function DecodeTryTable(b: bytes): (r: Parsed<Instr>)
    ensures r.Ok? ==> |r.rest| < |b|
    decreases |b|, 3
  {
    match DecodeBlockType(b)
    case Bad(e) => Bad(e)
    case Ok(bt, rest) =>
      match Count(rest)
      case Bad(e) => Bad(e)
      case Ok(n, rest1) => DecodeHandled(bt, n, rest1)
  }

  /** The handlers of a try_table and the body they guard. */
  function DecodeHandled(bt: BlockType, n: nat, b: bytes): (r: Parsed<Instr>)
    ensures r.Ok? ==> |r.rest| + n < |b|
    decreases |b|, 2
  {
    match VecCatch(n, b)
    case Bad(e) => Bad(e)
    case Ok(catches, rest) =>
      match BlockBody(rest)
      case Bad(e) => Bad(e)
      case Ok(body, rest1) => Ok(TryTable(bt, catches, body), rest1)
  }

  /** The opcodes that hold no instructions. */
  function DecodeFlat(op: byte, b: bytes): (r: Parsed<Instr>)
    ensures r.Ok? ==> |r.rest| <= |b|
  {
    if IsPlain(op) then Ok(Plain(op), b)
    else if IsMem(op) then MemArg(op, b)
    else if IsOne(op) then
      UShrinks(b, 32);
      match U32(b)
      case Bad(e) => Bad(e)
      case Ok(x, rest) => Ok(One(op, x), rest)
    else if IsTwo(op) then
      match DecodeTwo(b)
      case Bad(e) => Bad(e)
      case Ok(two, rest) => Ok(Two(op, two.0, two.1), rest)
    else DecodeOther(op, b)
  }

  function DecodeOther(op: byte, b: bytes): (r: Parsed<Instr>)
    ensures r.Ok? ==> |r.rest| < |b|
  {
    if op == 0x0E then DecodeBrTable(b)
    else if op == 0xD0 then
      match DecodeHeapType(b)
      case Bad(e) => Bad(e)
      case Ok(heap, rest) => Ok(RefNull(heap), rest)
    else if op == 0x1C then
      match Count(b)
      case Bad(e) => Bad(e)
      case Ok(n, rest) =>
        match VecValType(n, rest)
        case Bad(e) => Bad(e)
        case Ok(types, rest1) => Ok(Select(types), rest1)
    else if op == 0xFC then DecodeFC(b)
    else if op == 0xFB || op == 0xFD || op == 0xFE then Bad(AnotherModule)
    else DecodeConst(op, b)
  }

  function DecodeBrTable(b: bytes): (r: Parsed<Instr>)
    ensures r.Ok? ==> |r.rest| < |b|
  {
    match Count(b)
    case Bad(e) => Bad(e)
    case Ok(n, rest) =>
      match VecU32(n, rest)
      case Bad(e) => Bad(e)
      case Ok(labels, rest1) =>
        UShrinks(rest1, 32);
        match U32(rest1)
        case Bad(e) => Bad(e)
        case Ok(last, rest2) => Ok(BrTable(labels, last), rest2)
  }

  function DecodeConst(op: byte, b: bytes): (r: Parsed<Instr>)
    ensures r.Ok? ==> |r.rest| < |b|
  {
    if op == 0x41 then
      SShrinks(b, 32);
      match S32(b)
      case Bad(e) => Bad(e)
      case Ok(v, rest) => Ok(I32Const(v), rest)
    else if op == 0x42 then
      SShrinks(b, 64);
      match S64(b)
      case Bad(e) => Bad(e)
      case Ok(v, rest) => Ok(I64Const(v), rest)
    else if op == 0x43 then
      if |b| < 4 then Bad(UnexpectedEnd) else Ok(F32Const(FromLE(b[..4])), b[4..])
    else if op == 0x44 then
      if |b| < 8 then Bad(UnexpectedEnd) else Ok(F64Const(FromLE(b[..8])), b[8..])
    else Bad(IllegalOpcode)
  }

  lemma SShrinks(b: bytes, bits: nat)
    requires bits >= 1
    ensures Sleb(b, bits).Ok? ==> |Sleb(b, bits).rest| < |b|
  {
    SignedIs(b, MaxBytes(bits), 1, 0, 1);
  }

  function DecodeFC(b: bytes): (r: Parsed<Instr>)
    ensures r.Ok? ==> |r.rest| < |b|
  {
    UShrinks(b, 32);
    match U32(b)
    case Bad(e) => Bad(e)
    case Ok(sub, rest) => DecodeSub(sub, rest)
  }

  function DecodeSub(sub: nat, b: bytes): (r: Parsed<Instr>)
    ensures r.Ok? ==> |r.rest| <= |b|
  {
    if IsPlainFC(sub) then Ok(PlainFC(sub), b)
    else if IsOneFC(sub) then
      UShrinks(b, 32);
      match U32(b)
      case Bad(e) => Bad(e)
      case Ok(x, rest) => Ok(OneFC(sub, x), rest)
    else if IsTwoFC(sub) then
      match DecodeTwo(b)
      case Bad(e) => Bad(e)
      case Ok(two, rest) => Ok(TwoFC(sub, two.0, two.1), rest)
    else Bad(IllegalOpcode)
  }

  // ----- the opcodes of section 5.4 -----

  /** What follows each opcode: nothing (`p`), one index (`1`), two (`2`), a block type and a body (`b`), a memory
      argument (`m`), or something of its own, if it is an opcode at all (`.`). A row for each sixteen. */
  function Shapes(row: nat): (shapes: string)
    ensures |shapes| == 16
  {
    match row
    case 0x0 => "ppbb....1.p.11.p"
    case 0x1 => "121211....pp...."
    case 0x2 => "1111111.mmmmmmmm"
    case 0x3 => "mmmmmmmmmmmmmmm1"
    case 0x4 => "1....ppppppppppp"
    case 0x5 => "pppppppppppppppp"
    case 0x6 => "pppppppppppppppp"
    case 0x7 => "pppppppppppppppp"
    case 0x8 => "pppppppppppppppp"
    case 0x9 => "pppppppppppppppp"
    case 0xA => "pppppppppppppppp"
    case 0xB => "pppppppppppppppp"
    case 0xC => "ppppp..........."
    case 0xD => ".p1pp11........."
    case _ => "................"
  }

  /** The same behind the prefix 0xFC. */
  const SHAPES_FC: string := "pppppppp2121212111"

  predicate Shaped(op: byte, shape: char) {
    && (IsPlain(op) <==> shape == 'p')
    && (IsOne(op) <==> shape == '1')
    && (IsTwo(op) <==> shape == '2')
    && (IsBlock(op) <==> shape == 'b')
    && (IsMem(op) <==> shape == 'm')
  }

  lemma Row0(op: byte)
    requires op / 16 == 0x0
    ensures Shaped(op, Shapes(op / 16)[op % 16])
  {
    assert op == 0x00 + op % 16;
  }

  lemma Row1(op: byte)
    requires op / 16 == 0x1
    ensures Shaped(op, Shapes(op / 16)[op % 16])
  {
    assert op == 0x10 + op % 16;
  }

  lemma Row2(op: byte)
    requires op / 16 == 0x2
    ensures Shaped(op, Shapes(op / 16)[op % 16])
  {
    assert op == 0x20 + op % 16;
  }

  lemma Row3(op: byte)
    requires op / 16 == 0x3
    ensures Shaped(op, Shapes(op / 16)[op % 16])
  {
    assert op == 0x30 + op % 16;
  }

  lemma Row4(op: byte)
    requires op / 16 == 0x4
    ensures Shaped(op, Shapes(op / 16)[op % 16])
  {
    assert op == 0x40 + op % 16;
  }

  lemma RowC(op: byte)
    requires op / 16 == 0xC
    ensures Shaped(op, Shapes(op / 16)[op % 16])
  {
    assert op == 0xC0 + op % 16;
  }

  lemma RowD(op: byte)
    requires op / 16 == 0xD
    ensures Shaped(op, Shapes(op / 16)[op % 16])
  {
    assert op == 0xD0 + op % 16;
  }

  lemma UniformRows(op: byte)
    requires 5 <= op / 16 <= 11 || op / 16 >= 14
    ensures Shaped(op, Shapes(op / 16)[op % 16])
  {
    assert Shapes(op / 16)[op % 16] == if op / 16 <= 11 then 'p' else '.';
  }

  /** The decoder's classes are those of the table, for every opcode. */
  lemma OpcodesByShape(op: byte)
    ensures Shaped(op, Shapes(op / 16)[op % 16])
  {
    match op / 16
    case 0x0 => Row0(op);
    case 0x1 => Row1(op);
    case 0x2 => Row2(op);
    case 0x3 => Row3(op);
    case 0x4 => Row4(op);
    case 0xC => RowC(op);
    case 0xD => RowD(op);
    case _ => UniformRows(op);
  }

  lemma OpcodesByShapeFC(sub: nat)
    ensures var shape := if sub < |SHAPES_FC| then SHAPES_FC[sub] else '.';
      && (IsPlainFC(sub) <==> shape == 'p')
      && (IsOneFC(sub) <==> shape == '1')
      && (IsTwoFC(sub) <==> shape == '2')
  {
  }

  // ----- the one-byte types of section 5.3 -----

  lemma ShortNegative(b: byte, rest: bytes)
    requires 0x40 <= b < 0x80
    ensures S33([b] + rest) == Ok(b - 128, rest)
  {
    var x := (b as int) - 128;
    assert PutS(x, rest) == [x + 128] + rest;
    assert Pow2(32) == 16 * Pow2(28) && Pow2(28) == 16 * Pow2(24) && Pow2(24) >= 4;
    SRoundTrip(x, 33, rest);
  }

  /** A byte from 0x40 up is a signed number by itself; the abstract heap types are those from 0x69 to 0x74, and the
      number types those from 0x7B. What is one is read as one, alone or behind the bytes of a reference. */
  lemma OneByteTypes(b: byte, rest: bytes)
    requires 0x40 <= b < 0x80
    ensures IsAbstract(b - 128) <==> 0x69 <= b <= 0x74
    ensures IsNum(b - 128) <==> 0x7B <= b
    ensures DecodeHeapType([b] + rest) == Ok(Abstract(b - 128), rest) <==> 0x69 <= b <= 0x74
    ensures DecodeValType([b] + rest) == Ok(RefType(true, Abstract(b - 128)), rest) <==> 0x69 <= b <= 0x74
    ensures DecodeValType([b] + rest) == Ok(Num(b - 128), rest) <==> 0x7B <= b
  {
    assert ([b] + rest)[1..] == rest;
    ShortNegative(b, rest);
  }
}
