/** The canonical encoding of instruction trees, which the decoder inverts whatever follows it. */
module EncodeCode {
  import opened LittleEndian
  import opened Leb128
  import opened DecodeCode

  // ----- trees the format can hold -----

  predicate IsIndex(n: nat) { n < 0x1_0000_0000 }

  predicate HeapOk(h: HeapType) {
    match h
    case Abstract(code) => IsAbstract(code)
    case TypeIndex(index) => IsIndex(index)
  }

  predicate ValTypeOk(t: ValType) {
    match t
    case Num(code) => IsNum(code)
    case RefType(_, heap) => HeapOk(heap)
  }

  predicate BlockTypeOk(bt: BlockType) {
    match bt
    case Empty => true
    case Val(t) => ValTypeOk(t)
    case FuncType(index) => IsIndex(index)
  }

  predicate CatchOk(c: Catch) {
    match c
    case Tagged(kind, tag, target) => kind < 2 && IsIndex(tag) && IsIndex(target)
    case All(kind, target) => 2 <= kind < 4 && IsIndex(target)
  }

  predicate TypesOk(types: seq<ValType>) { IsIndex(|types|) && forall t <- types :: ValTypeOk(t) }

  predicate CatchesOk(catches: seq<Catch>) { IsIndex(|catches|) && forall c <- catches :: CatchOk(c) }

  predicate LabelsOk(labels: seq<nat>) { IsIndex(|labels|) && forall l <- labels :: IsIndex(l) }

  predicate InstrOk(i: Instr) {
    match i
    case Plain(op) => IsPlain(op)
    case One(op, index) => IsOne(op) && IsIndex(index)
    case Two(op, first, second) => IsTwo(op) && IsIndex(first) && IsIndex(second)
    case Block(op, bt, body) => IsBlock(op) && BlockTypeOk(bt) && AllOk(body)
    case If(bt, onTrue, onFalse) => BlockTypeOk(bt) && AllOk(onTrue) && AllOk(onFalse)
    case TryTable(bt, catches, body) => BlockTypeOk(bt) && CatchesOk(catches) && AllOk(body)
    case BrTable(labels, last) => LabelsOk(labels) && IsIndex(last)
    case RefNull(heap) => HeapOk(heap)
    case Select(types) => TypesOk(types)
    case MemOp(op, align, offset, mem) => IsMem(op) && align < 64 && offset < Pow2(64) && IsIndex(mem)
    case I32Const(v) => Within(v, 32)
    case I64Const(v) => Within(v, 64)
    case F32Const(bits) => bits < Pow256(4)
    case F64Const(bits) => bits < Pow256(8)
    case PlainFC(sub) => IsPlainFC(sub)
    case OneFC(sub, index) => IsOneFC(sub) && IsIndex(index)
    case TwoFC(sub, first, second) => IsTwoFC(sub) && IsIndex(first) && IsIndex(second)
  }

  predicate AllOk(instrs: seq<Instr>) {
    if instrs == [] then true else InstrOk(instrs[0]) && AllOk(instrs[1..])
  }

  // ----- the encoder: each writes in front of `tail` -----

  function PutHeap(h: HeapType, tail: bytes): bytes {
    match h
    case Abstract(code) => PutS(code, tail)
    case TypeIndex(index) => PutS(index, tail)
  }

  function PutValType(t: ValType, tail: bytes): bytes {
    match t
    case Num(code) => PutS(code, tail)
    case RefType(true, Abstract(code)) => PutS(code, tail)
    case RefType(nullable, heap) => [if nullable then 0x63 else 0x64] + PutHeap(heap, tail)
  }

  function PutBlockType(bt: BlockType, tail: bytes): bytes {
    match bt
    case Empty => [0x40] + tail
    case Val(t) => PutValType(t, tail)
    case FuncType(index) => PutS(index, tail)
  }

  function PutLabels(labels: seq<nat>, tail: bytes): bytes
    decreases |labels|
  {
    if labels == [] then tail else PutU(labels[0], PutLabels(labels[1..], tail))
  }

  function PutTypes(types: seq<ValType>, tail: bytes): bytes
    decreases |types|
  {
    if types == [] then tail else PutValType(types[0], PutTypes(types[1..], tail))
  }

  function PutCatch(c: Catch, tail: bytes): bytes {
    match c
    case Tagged(kind, tag, target) => [kind] + PutU(tag, PutU(target, tail))
    case All(kind, target) => [kind] + PutU(target, tail)
  }

  function PutCatches(catches: seq<Catch>, tail: bytes): bytes
    decreases |catches|
  {
    if catches == [] then tail else PutCatch(catches[0], PutCatches(catches[1..], tail))
  }

  function PutMem(align: nat, offset: nat, mem: nat, tail: bytes): bytes {
    if mem == 0 then PutU(align, PutU(offset, tail)) else PutU(align + 64, PutU(mem, PutU(offset, tail)))
  }

  function Opcode(i: Instr): byte
    requires InstrOk(i)
  {
    match i
    case Plain(op) => op
    case One(op, _) => op
    case Two(op, _, _) => op
    case Block(op, _, _) => op
    case If(_, _, _) => 0x04
    case TryTable(_, _, _) => 0x1F
    case BrTable(_, _) => 0x0E
    case RefNull(_) => 0xD0
    case Select(_) => 0x1C
    case MemOp(op, _, _, _) => op
    case I32Const(_) => 0x41
    case I64Const(_) => 0x42
    case F32Const(_) => 0x43
    case F64Const(_) => 0x44
    case PlainFC(_) => 0xFC
    case OneFC(_, _) => 0xFC
    case TwoFC(_, _, _) => 0xFC
  }

  function PutImmediates(i: Instr, tail: bytes): bytes
    requires InstrOk(i)
    decreases i, 0
  {
    match i
    case Plain(_) => tail
    case One(_, index) => PutU(index, tail)
    case Two(_, first, second) => PutU(first, PutU(second, tail))
    case Block(_, bt, body) => PutBlockType(bt, PutInstrs(body, [0x0B] + tail))
    case If(bt, onTrue, onFalse) =>
      PutBlockType(bt, PutInstrs(onTrue,
        if onFalse == [] then [0x0B] + tail else [0x05] + PutInstrs(onFalse, [0x0B] + tail)))
    case TryTable(bt, catches, body) =>
      PutBlockType(bt, PutU(|catches|, PutCatches(catches, PutInstrs(body, [0x0B] + tail))))
    case BrTable(labels, last) => PutU(|labels|, PutLabels(labels, PutU(last, tail)))
    case RefNull(heap) => PutHeap(heap, tail)
    case Select(types) => PutU(|types|, PutTypes(types, tail))
    case MemOp(_, align, offset, mem) => PutMem(align, offset, mem, tail)
    case I32Const(v) => PutS(v, tail)
    case I64Const(v) => PutS(v, tail)
    case F32Const(bits) => LE(bits, 4) + tail
    case F64Const(bits) => LE(bits, 8) + tail
    case PlainFC(sub) => PutU(sub, tail)
    case OneFC(sub, index) => PutU(sub, PutU(index, tail))
    case TwoFC(sub, first, second) => PutU(sub, PutU(first, PutU(second, tail)))
  }

  function PutInstrs(instrs: seq<Instr>, tail: bytes): bytes
    requires AllOk(instrs)
    decreases instrs
  {
    if instrs == [] then tail
    else [Opcode(instrs[0])] + PutImmediates(instrs[0], PutInstrs(instrs[1..], tail))
  }

  // ----- writing in front of a tail is writing, and then the tail -----

  lemma {:induction false} PutUOn(v: nat, a: bytes, b: bytes)
    ensures PutU(v, a + b) == PutU(v, a) + b
    decreases v
  {
    if v >= 128 { PutUOn(v / 128, a, b); }
  }

  lemma {:induction false} PutSOn(v: int, a: bytes, b: bytes)
    ensures PutS(v, a + b) == PutS(v, a) + b
    decreases if v < 0 then -v else v
  {
    if !(-64 <= v < 64) { PutSOn(v / 128, a, b); }
  }

  lemma PutHeapOn(h: HeapType, a: bytes, b: bytes)
    ensures PutHeap(h, a + b) == PutHeap(h, a) + b
  {
    match h
    case Abstract(code) => PutSOn(code, a, b);
    case TypeIndex(index) => PutSOn(index, a, b);
  }

  lemma PutValTypeOn(t: ValType, a: bytes, b: bytes)
    ensures PutValType(t, a + b) == PutValType(t, a) + b
  {
    match t
    case Num(code) => PutSOn(code, a, b);
    case RefType(true, Abstract(code)) => PutSOn(code, a, b);
    case RefType(_, heap) => PutHeapOn(heap, a, b);
  }

  lemma PutBlockTypeOn(bt: BlockType, a: bytes, b: bytes)
    ensures PutBlockType(bt, a + b) == PutBlockType(bt, a) + b
  {
    match bt
    case Empty =>
    case Val(t) => PutValTypeOn(t, a, b);
    case FuncType(index) => PutSOn(index, a, b);
  }

  lemma {:induction false} PutLabelsOn(labels: seq<nat>, a: bytes, b: bytes)
    ensures PutLabels(labels, a + b) == PutLabels(labels, a) + b
    decreases |labels|
  {
    if labels != [] {
      PutLabelsOn(labels[1..], a, b);
      PutUOn(labels[0], PutLabels(labels[1..], a), b);
    }
  }

  lemma {:induction false} PutTypesOn(types: seq<ValType>, a: bytes, b: bytes)
    ensures PutTypes(types, a + b) == PutTypes(types, a) + b
    decreases |types|
  {
    if types != [] {
      PutTypesOn(types[1..], a, b);
      PutValTypeOn(types[0], PutTypes(types[1..], a), b);
    }
  }

  lemma PutCatchOn(c: Catch, a: bytes, b: bytes)
    ensures PutCatch(c, a + b) == PutCatch(c, a) + b
  {
    match c
    case Tagged(_, tag, target) => PutUOn(target, a, b); PutUOn(tag, PutU(target, a), b);
    case All(_, target) => PutUOn(target, a, b);
  }

  lemma {:induction false} PutCatchesOn(catches: seq<Catch>, a: bytes, b: bytes)
    ensures PutCatches(catches, a + b) == PutCatches(catches, a) + b
    decreases |catches|
  {
    if catches != [] {
      PutCatchesOn(catches[1..], a, b);
      PutCatchOn(catches[0], PutCatches(catches[1..], a), b);
    }
  }

  lemma PutMemOn(align: nat, offset: nat, mem: nat, a: bytes, b: bytes)
    ensures PutMem(align, offset, mem, a + b) == PutMem(align, offset, mem, a) + b
  {
    PutUOn(offset, a, b);
    PutUOn(align, PutU(offset, a), b);
    PutUOn(mem, PutU(offset, a), b);
    PutUOn(align + 64, PutU(mem, PutU(offset, a)), b);
  }

  lemma PutTwoOn(x: nat, y: nat, a: bytes, b: bytes)
    ensures PutU(x, PutU(y, a + b)) == PutU(x, PutU(y, a)) + b
  {
    PutUOn(y, a, b);
    PutUOn(x, PutU(y, a), b);
  }

  lemma PutFlatOn(i: Instr, a: bytes, b: bytes)
    requires InstrOk(i) && !i.Block? && !i.If? && !i.TryTable?
    ensures PutImmediates(i, a + b) == PutImmediates(i, a) + b
  {
    match i
    case Plain(_) =>
    case One(_, index) => PutUOn(index, a, b);
    case Two(_, first, second) => PutTwoOn(first, second, a, b);
    case BrTable(labels, last) =>
      PutUOn(last, a, b);
      PutLabelsOn(labels, PutU(last, a), b);
      PutUOn(|labels|, PutLabels(labels, PutU(last, a)), b);
    case RefNull(heap) => PutHeapOn(heap, a, b);
    case Select(types) => PutTypesOn(types, a, b); PutUOn(|types|, PutTypes(types, a), b);
    case MemOp(_, align, offset, mem) => PutMemOn(align, offset, mem, a, b);
    case I32Const(v) => PutSOn(v, a, b);
    case I64Const(v) => PutSOn(v, a, b);
    case F32Const(bits) => Assoc(LE(bits, 4), a, b);
    case F64Const(bits) => Assoc(LE(bits, 8), a, b);
    case PlainFC(sub) => PutUOn(sub, a, b);
    case OneFC(sub, index) => PutTwoOn(sub, index, a, b);
    case TwoFC(sub, first, second) => PutTwoOn(first, second, a, b); PutUOn(sub, PutU(first, PutU(second, a)), b);
  }

  lemma {:induction false} PutBodyOn(bt: BlockType, body: seq<Instr>, ender: bytes, a: bytes, b: bytes)
    requires AllOk(body)
    ensures PutBlockType(bt, PutInstrs(body, ender + (a + b))) == PutBlockType(bt, PutInstrs(body, ender + a)) + b
    decreases body, 1
  {
    Assoc(ender, a, b);
    PutInstrsAppends(body, ender + a, b);
    PutBlockTypeOn(bt, PutInstrs(body, ender + a), b);
  }

  lemma {:induction false} PutImmediatesOn(i: Instr, a: bytes, b: bytes)
    requires InstrOk(i)
    ensures PutImmediates(i, a + b) == PutImmediates(i, a) + b
    decreases i, 2
  {
    match i
    case Block(_, bt, body) => PutBodyOn(bt, body, [0x0B], a, b);
    case If(bt, onTrue, onFalse) =>
      if onFalse == [] {
        PutBodyOn(bt, onTrue, [0x0B], a, b);
      } else {
        Assoc([0x0B], a, b);
        PutInstrsAppends(onFalse, [0x0B] + a, b);
        PutBodyOn(bt, onTrue, [0x05], PutInstrs(onFalse, [0x0B] + a), b);
      }
    case TryTable(bt, catches, body) =>
      Assoc([0x0B], a, b);
      PutInstrsAppends(body, [0x0B] + a, b);
      var rest := PutInstrs(body, [0x0B] + a);
      PutCatchesOn(catches, rest, b);
      PutUOn(|catches|, PutCatches(catches, rest), b);
      PutBlockTypeOn(bt, PutU(|catches|, PutCatches(catches, rest)), b);
    case _ => PutFlatOn(i, a, b);
  }

  lemma {:induction false} PutInstrsAppends(instrs: seq<Instr>, a: bytes, b: bytes)
    requires AllOk(instrs)
    ensures PutInstrs(instrs, a + b) == PutInstrs(instrs, a) + b
    decreases instrs, 0
  {
    if instrs != [] {
      PutInstrsAppends(instrs[1..], a, b);
      PutImmediatesOn(instrs[0], PutInstrs(instrs[1..], a), b);
    }
  }

  // ----- the decoder undoes each -----

  lemma IndexIsS33(n: nat)
    requires IsIndex(n)
    ensures Within(n, 33)
  {
    Pow2Of32();
  }

  lemma SmallIsS33(x: int)
    requires -64 <= x < 64
    ensures Within(x, 33)
  {
    Pow2Of32();
  }

  lemma HeapReads(h: HeapType, tail: bytes)
    requires HeapOk(h)
    ensures DecodeHeapType(PutHeap(h, tail)) == Ok(h, tail)
  {
    match h
    case Abstract(code) => SmallIsS33(code); SRoundTrip(code, 33, tail);
    case TypeIndex(index) => IndexIsS33(index); SRoundTrip(index, 33, tail);
  }

  /** A small negative number is one byte. */
  lemma ShortS(x: int, tail: bytes)
    requires -64 <= x < 0
    ensures PutS(x, tail) == [x + 128] + tail
  {
  }

  lemma ValTypeReads(t: ValType, tail: bytes)
    requires ValTypeOk(t)
    ensures DecodeValType(PutValType(t, tail)) == Ok(t, tail)
  {
    var b := PutValType(t, tail);
    match t
    case Num(code) =>
      ShortS(code, tail);
      assert b[1..] == tail;
    case RefType(true, Abstract(code)) =>
      ShortS(code, tail);
      assert b[1..] == tail;
    case RefType(_, heap) =>
      HeapReads(heap, tail);
      assert b[1..] == PutHeap(heap, tail);
  }

  lemma BlockTypeReads(bt: BlockType, tail: bytes)
    requires BlockTypeOk(bt)
    ensures DecodeBlockType(PutBlockType(bt, tail)) == Ok(bt, tail)
  {
    match bt
    case Empty =>
      SmallIsS33(-64);
      SRoundTrip(-64, 33, tail);
      ShortS(-64, tail);
    case FuncType(index) =>
      IndexIsS33(index);
      SRoundTrip(index, 33, tail);
    case Val(Num(code)) =>
      SmallIsS33(code);
      SRoundTrip(code, 33, tail);
    case Val(RefType(true, Abstract(code))) =>
      SmallIsS33(code);
      SRoundTrip(code, 33, tail);
    case Val(RefType(nullable, heap)) =>
      var x := if nullable then -29 else -28;
      ShortS(x, PutHeap(heap, tail));
      SmallIsS33(x);
      SRoundTrip(x, 33, PutHeap(heap, tail));
      HeapReads(heap, tail);
  }

  lemma {:induction false} LabelsRead(labels: seq<nat>, tail: bytes)
    requires forall l <- labels :: IsIndex(l)
    ensures VecU32(|labels|, PutLabels(labels, tail)) == Ok(labels, tail)
    ensures |PutLabels(labels, tail)| >= |labels| + |tail|
    decreases |labels|
  {
    if labels != [] {
      assert labels[0] in labels;
      LabelsRead(labels[1..], tail);
      U32RoundTrip(labels[0], PutLabels(labels[1..], tail));
      UShrinks(PutLabels(labels, tail), 32);
      assert labels == [labels[0]] + labels[1..];
    }
  }

  lemma {:induction false} TypesRead(types: seq<ValType>, tail: bytes)
    requires forall t <- types :: ValTypeOk(t)
    ensures VecValType(|types|, PutTypes(types, tail)) == Ok(types, tail)
    ensures |PutTypes(types, tail)| >= |types| + |tail|
    decreases |types|
  {
    if types != [] {
      assert types[0] in types;
      TypesRead(types[1..], tail);
      ValTypeReads(types[0], PutTypes(types[1..], tail));
      assert types == [types[0]] + types[1..];
    }
  }

  lemma TwoReads(x: nat, y: nat, tail: bytes)
    requires IsIndex(x) && IsIndex(y)
    ensures DecodeTwo(PutU(x, PutU(y, tail))) == Ok((x, y), tail)
  {
    U32RoundTrip(x, PutU(y, tail));
    U32RoundTrip(y, tail);
  }

  lemma CatchReads(c: Catch, tail: bytes)
    requires CatchOk(c)
    ensures CatchClause(PutCatch(c, tail)) == Ok(c, tail)
  {
    var b := PutCatch(c, tail);
    match c
    case Tagged(kind, tag, target) =>
      assert b[1..] == PutU(tag, PutU(target, tail));
      TwoReads(tag, target, tail);
    case All(kind, target) =>
      assert b[1..] == PutU(target, tail);
      U32RoundTrip(target, tail);
  }

  lemma {:induction false} CatchesRead(catches: seq<Catch>, tail: bytes)
    requires forall c <- catches :: CatchOk(c)
    ensures VecCatch(|catches|, PutCatches(catches, tail)) == Ok(catches, tail)
    ensures |PutCatches(catches, tail)| >= |catches| + |tail|
    decreases |catches|
  {
    if catches != [] {
      assert catches[0] in catches;
      CatchesRead(catches[1..], tail);
      CatchReads(catches[0], PutCatches(catches[1..], tail));
      assert catches == [catches[0]] + catches[1..];
    }
  }

  lemma CountReads(n: nat, tail: bytes)
    requires IsIndex(n) && n <= |tail|
    ensures Count(PutU(n, tail)) == Ok(n, tail)
  {
    U32RoundTrip(n, tail);
  }

  lemma MemReads(op: byte, align: nat, offset: nat, mem: nat, tail: bytes)
    requires align < 64 && offset < Pow2(64) && IsIndex(mem)
    ensures MemArg(op, PutMem(align, offset, mem, tail)) == Ok(MemOp(op, align, offset, mem), tail)
  {
    U64RoundTrip(offset, tail);
    if mem == 0 {
      U32RoundTrip(align, PutU(offset, tail));
    } else {
      U32RoundTrip(align + 64, PutU(mem, PutU(offset, tail)));
      U32RoundTrip(mem, PutU(offset, tail));
    }
  }

  lemma FixedReads(bits: nat, n: nat, tail: bytes)
    requires bits < Pow256(n)
    ensures var b := LE(bits, n) + tail; b[..n] == LE(bits, n) && FromLE(b[..n]) == bits && b[n..] == tail
  {
    RoundTrip(bits, n);
    assert (LE(bits, n) + tail)[..n] == LE(bits, n);
  }

  /** What follows an instruction's opcode decodes to the instruction. */
  predicate Reads(i: Instr, tail: bytes)
    requires InstrOk(i)
  {
    DecodeInstr(Opcode(i), PutImmediates(i, tail)) == Ok(i, tail)
  }

  /** Where each opcode goes. */
  lemma DispatchFlat(op: byte, b: bytes)
    requires !IsBlock(op) && op != 0x04 && op != 0x1F
    ensures DecodeInstr(op, b) == DecodeFlat(op, b)
  {
  }

  lemma DispatchBody(op: byte, b: bytes)
    ensures IsBlock(op) ==> DecodeInstr(op, b) == DecodeBlock(op, b)
    ensures op == 0x04 ==> DecodeInstr(op, b) == DecodeIf(b)
    ensures op == 0x1F ==> DecodeInstr(op, b) == DecodeTryTable(b)
  {
  }

  lemma PlainReads(op: byte, tail: bytes)
    requires IsPlain(op)
    ensures DecodeFlat(op, tail) == Ok(Plain(op), tail)
  {
  }

  lemma PairReads(op: byte, first: nat, second: nat, tail: bytes)
    requires IsTwo(op) && IsIndex(first) && IsIndex(second)
    ensures DecodeFlat(op, PutU(first, PutU(second, tail))) == Ok(Two(op, first, second), tail)
  {
    TwoReads(first, second, tail);
  }

  lemma OneReads(op: byte, index: nat, tail: bytes)
    requires IsOne(op) && IsIndex(index)
    ensures DecodeFlat(op, PutU(index, tail)) == Ok(One(op, index), tail)
  {
    U32RoundTrip(index, tail);
  }

  lemma MemOpReads(op: byte, align: nat, offset: nat, mem: nat, tail: bytes)
    requires IsMem(op) && align < 64 && offset < Pow2(64) && IsIndex(mem)
    ensures DecodeFlat(op, PutMem(align, offset, mem, tail)) == Ok(MemOp(op, align, offset, mem), tail)
  {
    MemReads(op, align, offset, mem, tail);
    FlatMem(op, PutMem(align, offset, mem, tail));
  }

  lemma FlatMem(op: byte, b: bytes)
    requires IsMem(op)
    ensures DecodeFlat(op, b) == MemArg(op, b)
  {
  }

  lemma FlatOther(op: byte, b: bytes)
    requires !IsPlain(op) && !IsMem(op) && !IsOne(op) && !IsTwo(op)
    ensures DecodeFlat(op, b) == DecodeOther(op, b)
  {
  }

  lemma OtherBrTable(b: bytes)
    ensures DecodeOther(0x0E, b) == DecodeBrTable(b)
  {
  }

  lemma OtherFC(b: bytes)
    ensures DecodeOther(0xFC, b) == DecodeFC(b)
  {
  }

  lemma OtherConst(op: byte, b: bytes)
    requires 0x41 <= op <= 0x44
    ensures DecodeOther(op, b) == DecodeConst(op, b)
  {
  }

  lemma BrTableReads(labels: seq<nat>, last: nat, tail: bytes)
    requires LabelsOk(labels) && IsIndex(last)
    ensures DecodeFlat(0x0E, PutU(|labels|, PutLabels(labels, PutU(last, tail)))) == Ok(BrTable(labels, last), tail)
  {
    var b := PutU(|labels|, PutLabels(labels, PutU(last, tail)));
    FlatOther(0x0E, b);
    OtherBrTable(b);
    TargetsRead(labels, last, tail);
  }

  lemma TargetsRead(labels: seq<nat>, last: nat, tail: bytes)
    requires LabelsOk(labels) && IsIndex(last)
    ensures DecodeBrTable(PutU(|labels|, PutLabels(labels, PutU(last, tail)))) == Ok(BrTable(labels, last), tail)
  {
    LabelsRead(labels, PutU(last, tail));
    CountReads(|labels|, PutLabels(labels, PutU(last, tail)));
    U32RoundTrip(last, tail);
  }

  lemma RefNullReads(heap: HeapType, tail: bytes)
    requires HeapOk(heap)
    ensures DecodeFlat(0xD0, PutHeap(heap, tail)) == Ok(RefNull(heap), tail)
  {
    HeapReads(heap, tail);
  }

  lemma SelectReads(types: seq<ValType>, tail: bytes)
    requires TypesOk(types)
    ensures DecodeFlat(0x1C, PutU(|types|, PutTypes(types, tail))) == Ok(Select(types), tail)
  {
    TypesRead(types, tail);
    CountReads(|types|, PutTypes(types, tail));
  }

  lemma I32Reads(v: int, tail: bytes)
    requires Within(v, 32)
    ensures DecodeFlat(0x41, PutS(v, tail)) == Ok(I32Const(v), tail)
  {
    FlatOther(0x41, PutS(v, tail));
    OtherConst(0x41, PutS(v, tail));
    SRoundTrip(v, 32, tail);
  }

  lemma I64Reads(v: int, tail: bytes)
    requires Within(v, 64)
    ensures DecodeFlat(0x42, PutS(v, tail)) == Ok(I64Const(v), tail)
  {
    FlatOther(0x42, PutS(v, tail));
    OtherConst(0x42, PutS(v, tail));
    SRoundTrip(v, 64, tail);
  }

  lemma F32Reads(bits: nat, tail: bytes)
    requires bits < Pow256(4)
    ensures DecodeFlat(0x43, LE(bits, 4) + tail) == Ok(F32Const(bits), tail)
  {
    FlatOther(0x43, LE(bits, 4) + tail);
    OtherConst(0x43, LE(bits, 4) + tail);
    FixedReads(bits, 4, tail);
  }

  lemma F64Reads(bits: nat, tail: bytes)
    requires bits < Pow256(8)
    ensures DecodeFlat(0x44, LE(bits, 8) + tail) == Ok(F64Const(bits), tail)
  {
    FlatOther(0x44, LE(bits, 8) + tail);
    OtherConst(0x44, LE(bits, 8) + tail);
    FixedReads(bits, 8, tail);
  }

  lemma PlainFCReads(sub: nat, tail: bytes)
    requires IsPlainFC(sub)
    ensures DecodeFlat(0xFC, PutU(sub, tail)) == Ok(PlainFC(sub), tail)
  {
    var b := PutU(sub, tail);
    FlatOther(0xFC, b);
    OtherFC(b);
    U32RoundTrip(sub, tail);
    assert DecodeFC(b) == Ok(PlainFC(sub), tail);
  }

  lemma OneFCReads(sub: nat, index: nat, tail: bytes)
    requires IsOneFC(sub) && IsIndex(index)
    ensures DecodeFlat(0xFC, PutU(sub, PutU(index, tail))) == Ok(OneFC(sub, index), tail)
  {
    FlatOther(0xFC, PutU(sub, PutU(index, tail)));
    OtherFC(PutU(sub, PutU(index, tail)));
    U32RoundTrip(sub, PutU(index, tail));
    U32RoundTrip(index, tail);
    assert DecodeFC(PutU(sub, PutU(index, tail))) == Ok(OneFC(sub, index), tail);
  }

  lemma TwoFCReads(sub: nat, first: nat, second: nat, tail: bytes)
    requires IsTwoFC(sub) && IsIndex(first) && IsIndex(second)
    ensures DecodeFlat(0xFC, PutU(sub, PutU(first, PutU(second, tail)))) == Ok(TwoFC(sub, first, second), tail)
  {
    FlatOther(0xFC, PutU(sub, PutU(first, PutU(second, tail))));
    OtherFC(PutU(sub, PutU(first, PutU(second, tail))));
    U32RoundTrip(sub, PutU(first, PutU(second, tail)));
    TwoReads(first, second, tail);
    assert DecodeFC(PutU(sub, PutU(first, PutU(second, tail)))) == Ok(TwoFC(sub, first, second), tail);
  }

  lemma OtherReads(i: Instr, tail: bytes)
    requires InstrOk(i) && !i.Block? && !i.If? && !i.TryTable?
    ensures Reads(i, tail)
  {
    DispatchFlat(Opcode(i), PutImmediates(i, tail));
    match i
    case Plain(op) => PlainReads(op, tail);
    case One(op, index) => OneReads(op, index, tail);
    case Two(op, first, second) => PairReads(op, first, second, tail);
    case MemOp(op, align, offset, mem) => MemOpReads(op, align, offset, mem, tail);
    case BrTable(labels, last) => BrTableReads(labels, last, tail);
    case RefNull(heap) => RefNullReads(heap, tail);
    case Select(types) => SelectReads(types, tail);
    case I32Const(v) => I32Reads(v, tail);
    case I64Const(v) => I64Reads(v, tail);
    case F32Const(bits) => F32Reads(bits, tail);
    case F64Const(bits) => F64Reads(bits, tail);
    case PlainFC(sub) => PlainFCReads(sub, tail);
    case OneFC(sub, index) => OneFCReads(sub, index, tail);
    case TwoFC(sub, first, second) => TwoFCReads(sub, first, second, tail);
  }

  function EndByte(ending: Ending): byte { if ending.End? then 0x0B else 0x05 }

  lemma {:induction false} BlockReads(i: Instr, tail: bytes)
    requires InstrOk(i) && i.Block?
    ensures DecodeBlock(i.op, PutImmediates(i, tail)) == Ok(i, tail)
    decreases i, 0
  {
    BlockTypeReads(i.bt, PutInstrs(i.body, [0x0B] + tail));
    InstrsRead(i.body, End, tail);
  }

  lemma {:induction false} IfReads(i: Instr, tail: bytes)
    requires InstrOk(i) && i.If?
    ensures DecodeIf(PutImmediates(i, tail)) == Ok(i, tail)
    decreases i, 0
  {
    if i.onFalse == [] {
      BlockTypeReads(i.bt, PutInstrs(i.onTrue, [0x0B] + tail));
      InstrsRead(i.onTrue, End, tail);
    } else {
      var second := PutInstrs(i.onFalse, [0x0B] + tail);
      BlockTypeReads(i.bt, PutInstrs(i.onTrue, [0x05] + second));
      InstrsRead(i.onTrue, Else, second);
      InstrsRead(i.onFalse, End, tail);
    }
  }

  lemma {:induction false} TryTableReads(i: Instr, tail: bytes)
    requires InstrOk(i) && i.TryTable?
    ensures DecodeTryTable(PutImmediates(i, tail)) == Ok(i, tail)
    decreases i, 0
  {
    var body := PutInstrs(i.body, [0x0B] + tail);
    var catches := PutCatches(i.catches, body);
    BlockTypeReads(i.bt, PutU(|i.catches|, catches));
    CatchesRead(i.catches, body);
    CountReads(|i.catches|, catches);
    InstrsRead(i.body, End, tail);
    assert DecodeHandled(i.bt, |i.catches|, catches) == Ok(i, tail);
  }

  lemma {:induction false} InstrReads(i: Instr, tail: bytes)
    requires InstrOk(i)
    ensures Reads(i, tail)
    decreases i, 1
  {
    DispatchBody(Opcode(i), PutImmediates(i, tail));
    if i.Block? { BlockReads(i, tail); }
    else if i.If? { IfReads(i, tail); }
    else if i.TryTable? { TryTableReads(i, tail); }
    else { OtherReads(i, tail); }
  }

  lemma NoTerminator(i: Instr)
    requires InstrOk(i)
    ensures Opcode(i) != 0x0B && Opcode(i) != 0x05
  {
  }

  /** A run of instructions and the byte that ends it are read back, and exactly the bytes after it are left. */
  lemma {:induction false} InstrsRead(instrs: seq<Instr>, ending: Ending, tail: bytes)
    requires AllOk(instrs)
    ensures Instrs(PutInstrs(instrs, [EndByte(ending)] + tail)) == Ok(Body(instrs, ending), tail)
    decreases instrs
  {
    if instrs == [] {
      assert ([EndByte(ending)] + tail)[1..] == tail;
    } else {
      var i := instrs[0];
      var rest := PutInstrs(instrs[1..], [EndByte(ending)] + tail);
      assert ([Opcode(i)] + PutImmediates(i, rest))[1..] == PutImmediates(i, rest);
      InstrsRead(instrs[1..], ending, tail);
      InstrReads(i, rest);
      NoTerminator(i);
      assert instrs == [i] + instrs[1..];
    }
  }

  /** Decoding the canonical encoding of a tree yields the tree and exactly the bytes that follow. */
  lemma DecodeInverts(instrs: seq<Instr>, tail: bytes)
    requires AllOk(instrs)
    ensures Expr(PutInstrs(instrs, [0x0B] + tail)) == Ok(instrs, tail)
  {
    InstrsRead(instrs, End, tail);
  }

  /** The same with the encoding written out as one byte string after another. */
  lemma DecodeInvertsWritten(instrs: seq<Instr>, tail: bytes)
    requires AllOk(instrs)
    ensures Expr(PutInstrs(instrs, []) + [0x0B] + tail) == Ok(instrs, tail)
  {
    var b := [0x0B] + tail;
    PutInstrsAppends(instrs, [], b);
    assert [] + b == b;
    Assoc(PutInstrs(instrs, []), [0x0B], tail);
    DecodeInverts(instrs, tail);
  }
}
