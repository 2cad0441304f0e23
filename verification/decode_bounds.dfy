/**
 * What decoding arbitrary bytes can produce: a tree the format can hold, a
 * proper suffix of what it was given, and no more than it read.
 */
module DecodeBounds {
  import opened LittleEndian
  import opened Leb128
  import opened DecodeCode
  import opened EncodeCode

  /** `rest` is the end of `b`. */
  predicate EndOf(rest: bytes, b: bytes) { |rest| <= |b| && rest == b[|b| - |rest|..] }

  lemma EndOn(a: bytes, b: bytes, c: bytes)
    requires EndOf(a, b) && EndOf(b, c)
    ensures EndOf(a, c)
  {
  }

  /** Instructions, labels, handlers and types a tree holds. */
  function Weight(i: Instr): nat
    decreases i
  {
    match i
    case Block(_, _, body) => 1 + TotalWeight(body)
    case If(_, onTrue, onFalse) => 1 + TotalWeight(onTrue) + TotalWeight(onFalse)
    case TryTable(_, catches, body) => 1 + |catches| + TotalWeight(body)
    case BrTable(labels, _) => 1 + |labels|
    case Select(types) => 1 + |types|
    case _ => 1
  }

  function TotalWeight(instrs: seq<Instr>): nat
    decreases instrs
  {
    if instrs == [] then 0 else Weight(instrs[0]) + TotalWeight(instrs[1..])
  }

  // ----- integers -----

  lemma U32Is(b: bytes)
    ensures U32(b).Ok? ==> IsIndex(U32(b).value) && EndOf(U32(b).rest, b) && |U32(b).rest| < |b|
  {
    UnsignedIs(b, MaxBytes(32), 1, 0, 1);
    Pow2Of32();
  }

  lemma U64Is(b: bytes)
    ensures U64(b).Ok? ==> U64(b).value < Pow2(64) && EndOf(U64(b).rest, b) && |U64(b).rest| < |b|
  {
    UnsignedIs(b, MaxBytes(64), 1, 0, 1);
  }

  lemma SIs(b: bytes, bits: nat)
    requires bits >= 1
    ensures var r := Sleb(b, bits); r.Ok? ==> Within(r.value, bits) && EndOf(r.rest, b) && |r.rest| < |b|
  {
    SignedIs(b, MaxBytes(bits), 1, 0, 1);
  }

  // ----- types and vectors -----

  lemma HeapTypeIs(b: bytes)
    ensures var r := DecodeHeapType(b); r.Ok? ==> HeapOk(r.value) && EndOf(r.rest, b)
  {
    SIs(b, 33);
    Pow2Of32();
  }

  lemma ValTypeIs(b: bytes)
    ensures var r := DecodeValType(b); r.Ok? ==> ValTypeOk(r.value) && EndOf(r.rest, b)
  {
    if b != [] {
      HeapTypeIs(b[1..]);
      EndOf1(b);
      var r := DecodeHeapType(b[1..]);
      if r.Ok? { EndOn(r.rest, b[1..], b); }
    }
  }

  lemma EndOf1(b: bytes)
    requires b != []
    ensures EndOf(b[1..], b)
  {
  }

  lemma S33Is(b: bytes)
    ensures var r := S33(b); r.Ok? ==> r.value < 0x1_0000_0000 && EndOf(r.rest, b) && |r.rest| < |b|
  {
    SIs(b, 33);
    Pow2Of32();
  }

  lemma BlockTypeIs(b: bytes)
    ensures var r := DecodeBlockType(b); r.Ok? ==> BlockTypeOk(r.value) && EndOf(r.rest, b)
  {
    S33Is(b);
    var x := S33(b);
    if x.Ok? { RefIs(x.value == -29, x.rest, b); }
  }

  lemma RefIs(nullable: bool, b: bytes, whole: bytes)
    requires EndOf(b, whole)
    ensures var r := DecodeRef(nullable, b); r.Ok? ==> ValTypeOk(r.value) && EndOf(r.rest, whole)
  {
    HeapTypeIs(b);
    var r := DecodeHeapType(b);
    if r.Ok? { EndOn(r.rest, b, whole); }
  }

  lemma CountIs(b: bytes)
    ensures var r := Count(b); r.Ok? ==> IsIndex(r.value) && EndOf(r.rest, b)
  {
    U32Is(b);
  }

  lemma {:induction false} VecU32Is(n: nat, b: bytes)
    ensures var r := VecU32(n, b); r.Ok? ==> (forall l <- r.value :: IsIndex(l)) && EndOf(r.rest, b)
    decreases n
  {
    if n > 0 {
      U32Is(b);
      var x := U32(b);
      if x.Ok? {
        VecU32Is(n - 1, x.rest);
        var r := VecU32(n - 1, x.rest);
        if r.Ok? { EndOn(r.rest, x.rest, b); }
      }
    }
  }

  lemma {:induction false} VecValTypeIs(n: nat, b: bytes)
    ensures var r := VecValType(n, b); r.Ok? ==> (forall t <- r.value :: ValTypeOk(t)) && EndOf(r.rest, b)
    decreases n
  {
    if n > 0 {
      ValTypeIs(b);
      var x := DecodeValType(b);
      if x.Ok? {
        VecValTypeIs(n - 1, x.rest);
        var r := VecValType(n - 1, x.rest);
        if r.Ok? { EndOn(r.rest, x.rest, b); }
      }
    }
  }

  lemma TwoIs(b: bytes)
    ensures var r := DecodeTwo(b); r.Ok? ==> IsIndex(r.value.0) && IsIndex(r.value.1) && EndOf(r.rest, b)
  {
    U32Is(b);
    var x := U32(b);
    if x.Ok? {
      U32Is(x.rest);
      var y := U32(x.rest);
      if y.Ok? { EndOn(y.rest, x.rest, b); }
    }
  }

  lemma CatchIs(b: bytes)
    ensures var r := CatchClause(b); r.Ok? ==> CatchOk(r.value) && EndOf(r.rest, b)
  {
    if b != [] {
      EndOf1(b);
      if b[0] < 2 {
        TwoIs(b[1..]);
        var r := DecodeTwo(b[1..]);
        if r.Ok? { EndOn(r.rest, b[1..], b); }
      } else if b[0] < 4 {
        U32Is(b[1..]);
        var r := U32(b[1..]);
        if r.Ok? { EndOn(r.rest, b[1..], b); }
      }
    }
  }

  lemma {:induction false} VecCatchIs(n: nat, b: bytes)
    ensures var r := VecCatch(n, b); r.Ok? ==> (forall c <- r.value :: CatchOk(c)) && EndOf(r.rest, b)
    decreases n
  {
    if n > 0 {
      CatchIs(b);
      var x := CatchClause(b);
      if x.Ok? {
        VecCatchIs(n - 1, x.rest);
        var r := VecCatch(n - 1, x.rest);
        if r.Ok? { EndOn(r.rest, x.rest, b); }
      }
    }
  }

  // ----- instructions -----

  /** A decoded instruction is one of the format, its rest the end of what was given, its weight what was read. */
  predicate Sound(b: bytes, r: Parsed<Instr>) {
    r.Ok? ==> InstrOk(r.value) && EndOf(r.rest, b) && Weight(r.value) + |r.rest| <= |b| + 1
  }

  predicate BodySound(b: bytes, r: Parsed<Body>) {
    r.Ok? ==> AllOk(r.value.instrs) && EndOf(r.rest, b) && TotalWeight(r.value.instrs) + |r.rest| < |b|
  }

  predicate RunSound(b: bytes, r: Parsed<seq<Instr>>) {
    r.Ok? ==> AllOk(r.value) && EndOf(r.rest, b) && TotalWeight(r.value) + |r.rest| < |b|
  }

  lemma MemOpSound(op: byte, align: nat, offset: nat, mem: nat, rest: bytes, whole: bytes)
    requires IsMem(op) && align < 64 && offset < Pow2(64) && IsIndex(mem) && EndOf(rest, whole)
    ensures Sound(whole, Ok(MemOp(op, align, offset, mem), rest))
  {
  }

  lemma OneFCSound(sub: nat, index: nat, rest: bytes, whole: bytes)
    requires IsOneFC(sub) && IsIndex(index) && EndOf(rest, whole)
    ensures Sound(whole, Ok(OneFC(sub, index), rest))
  {
  }

  lemma TwoFCSound(sub: nat, first: nat, second: nat, rest: bytes, whole: bytes)
    requires IsTwoFC(sub) && IsIndex(first) && IsIndex(second) && EndOf(rest, whole)
    ensures Sound(whole, Ok(TwoFC(sub, first, second), rest))
  {
  }

  lemma BrTableSound(labels: seq<nat>, last: nat, rest: bytes, whole: bytes)
    requires LabelsOk(labels) && IsIndex(last) && EndOf(rest, whole) && |labels| + |rest| <= |whole|
    ensures Sound(whole, Ok(BrTable(labels, last), rest))
  {
  }

  lemma MemArgIs(op: byte, b: bytes)
    requires IsMem(op)
    ensures Sound(b, MemArg(op, b))
  {
    U32Is(b);
    var flags := U32(b);
    if flags.Ok? {
      var rest := flags.rest;
      if 64 <= flags.value < 128 {
        U32Is(rest);
        var mem := U32(rest);
        if mem.Ok? {
          EndOn(mem.rest, rest, b);
          OffsetIs(op, flags.value - 64, mem.value, mem.rest, b);
        }
      } else if flags.value < 64 {
        OffsetIs(op, flags.value, 0, rest, b);
      }
    }
  }

  lemma OffsetIs(op: byte, align: nat, mem: nat, b: bytes, whole: bytes)
    requires IsMem(op) && align < 64 && IsIndex(mem) && EndOf(b, whole)
    ensures Sound(whole, Offset(op, align, mem, b))
  {
    U64Is(b);
    var r := U64(b);
    if r.Ok? {
      EndOn(r.rest, b, whole);
      MemOpSound(op, align, r.value, mem, r.rest, whole);
    }
  }

  lemma BrTableIs(b: bytes)
    ensures Sound(b, DecodeBrTable(b))
  {
    CountIs(b);
    var n := Count(b);
    if n.Ok? {
      VecU32Is(n.value, n.rest);
      var labels := VecU32(n.value, n.rest);
      if labels.Ok? {
        EndOn(labels.rest, n.rest, b);
        U32Is(labels.rest);
        var last := U32(labels.rest);
        if last.Ok? {
          EndOn(last.rest, labels.rest, b);
          BrTableSound(labels.value, last.value, last.rest, b);
        }
      }
    }
  }

  lemma SelectIs(b: bytes)
    ensures Sound(b, DecodeOther(0x1C, b))
  {
    CountIs(b);
    var n := Count(b);
    if n.Ok? {
      VecValTypeIs(n.value, n.rest);
      var types := VecValType(n.value, n.rest);
      if types.Ok? { EndOn(types.rest, n.rest, b); }
    }
  }

  lemma ConstIs(op: byte, b: bytes)
    ensures Sound(b, DecodeConst(op, b))
  {
    SIs(b, 32);
    SIs(b, 64);
    if |b| >= 4 { FromLEBound(b[..4]); }
    if |b| >= 8 { FromLEBound(b[..8]); }
  }

  lemma FCIs(b: bytes)
    ensures Sound(b, DecodeFC(b))
  {
    U32Is(b);
    var sub := U32(b);
    if sub.Ok? { SubIs(sub.value, sub.rest, b); }
  }

  lemma SubIs(sub: nat, b: bytes, whole: bytes)
    requires EndOf(b, whole)
    ensures Sound(whole, DecodeSub(sub, b))
  {
    if IsOneFC(sub) {
      OneFCIs(sub, b, whole);
    } else if IsTwoFC(sub) {
      TwoFCIs(sub, b, whole);
    }
  }

  lemma OneFCIs(sub: nat, b: bytes, whole: bytes)
    requires EndOf(b, whole) && IsOneFC(sub)
    ensures Sound(whole, DecodeSub(sub, b))
  {
    U32Is(b);
    var r := U32(b);
    if r.Ok? {
      EndOn(r.rest, b, whole);
      OneFCSound(sub, r.value, r.rest, whole);
    }
  }

  lemma TwoFCIs(sub: nat, b: bytes, whole: bytes)
    requires EndOf(b, whole) && IsTwoFC(sub)
    ensures Sound(whole, DecodeSub(sub, b))
  {
    TwoIs(b);
    var r := DecodeTwo(b);
    if r.Ok? {
      EndOn(r.rest, b, whole);
      TwoFCSound(sub, r.value.0, r.value.1, r.rest, whole);
    }
  }

  lemma OtherIs(op: byte, b: bytes)
    ensures Sound(b, DecodeOther(op, b))
  {
    if op == 0x0E { BrTableIs(b); }
    else if op == 0xD0 { HeapTypeIs(b); }
    else if op == 0x1C { SelectIs(b); }
    else if op == 0xFC { FCIs(b); }
    else { ConstIs(op, b); }
  }

  lemma FlatIs(op: byte, b: bytes)
    ensures Sound(b, DecodeFlat(op, b))
  {
    if IsPlain(op) {
    } else if IsMem(op) {
      MemArgIs(op, b);
    } else if IsOne(op) {
      U32Is(b);
    } else if IsTwo(op) {
      TwoIs(b);
    } else {
      OtherIs(op, b);
    }
  }

  lemma {:induction false} BlockIs(op: byte, b: bytes)
    requires IsBlock(op)
    ensures Sound(b, DecodeBlock(op, b))
    decreases |b|, 3
  {
    BlockTypeIs(b);
    var bt := DecodeBlockType(b);
    if bt.Ok? {
      BodyIs(bt.rest);
      var body := BlockBody(bt.rest);
      if body.Ok? { EndOn(body.rest, bt.rest, b); }
    }
  }

  lemma {:induction false} IfIs(b: bytes)
    ensures Sound(b, DecodeIf(b))
    decreases |b|, 3
  {
    BlockTypeIs(b);
    var bt := DecodeBlockType(b);
    if bt.Ok? {
      InstrsAre(bt.rest);
      var first := Instrs(bt.rest);
      if first.Ok? {
        EndOn(first.rest, bt.rest, b);
        if first.value.ending.Else? {
          BodyIs(first.rest);
          var second := BlockBody(first.rest);
          if second.Ok? {
            EndOn(second.rest, first.rest, b);
            IfOk(bt.value, first.value.instrs, second.value);
          }
        } else {
          IfOk(bt.value, first.value.instrs, []);
        }
      }
    }
  }

  lemma IfOk(bt: BlockType, onTrue: seq<Instr>, onFalse: seq<Instr>)
    requires BlockTypeOk(bt) && AllOk(onTrue) && AllOk(onFalse)
    ensures InstrOk(If(bt, onTrue, onFalse))
    ensures Weight(If(bt, onTrue, onFalse)) == 1 + TotalWeight(onTrue) + TotalWeight(onFalse)
  {
  }

  lemma {:induction false} TryTableIs(b: bytes)
    ensures Sound(b, DecodeTryTable(b))
    decreases |b|, 3
  {
    BlockTypeIs(b);
    var bt := DecodeBlockType(b);
    if bt.Ok? {
      CountIs(bt.rest);
      var n := Count(bt.rest);
      if n.Ok? {
        EndOn(n.rest, bt.rest, b);
        HandledIs(bt.value, n.value, n.rest, b);
      }
    }
  }

  lemma {:induction false} HandledIs(bt: BlockType, n: nat, b: bytes, whole: bytes)
    requires EndOf(b, whole) && |b| < |whole| && BlockTypeOk(bt) && IsIndex(n)
    ensures Sound(whole, DecodeHandled(bt, n, b))
    decreases |whole|, 2
  {
    VecCatchIs(n, b);
    var catches := VecCatch(n, b);
    if catches.Ok? {
      EndOn(catches.rest, b, whole);
      BodyIs(catches.rest);
      var body := BlockBody(catches.rest);
      if body.Ok? {
        EndOn(body.rest, catches.rest, whole);
        HandledOk(bt, catches.value, body.value);
      }
    }
  }

  lemma HandledOk(bt: BlockType, catches: seq<Catch>, body: seq<Instr>)
    requires BlockTypeOk(bt) && CatchesOk(catches) && AllOk(body)
    ensures InstrOk(TryTable(bt, catches, body))
    ensures Weight(TryTable(bt, catches, body)) == 1 + |catches| + TotalWeight(body)
  {
  }

  lemma {:induction false} InstrIs(op: byte, b: bytes)
    ensures Sound(b, DecodeInstr(op, b))
    decreases |b|, 4
  {
    if IsBlock(op) {
      BlockIs(op, b);
    } else if op == 0x04 {
      IfIs(b);
    } else if op == 0x1F {
      TryTableIs(b);
    } else {
      FlatIs(op, b);
    }
  }

  lemma {:induction false} InstrsAre(b: bytes)
    ensures BodySound(b, Instrs(b))
    decreases |b|, 0
  {
    if b != [] && b[0] != 0x0B && b[0] != 0x05 {
      EndOf1(b);
      InstrIs(b[0], b[1..]);
      var i := DecodeInstr(b[0], b[1..]);
      if i.Ok? {
        EndOn(i.rest, b[1..], b);
        InstrsAre(i.rest);
        var body := Instrs(i.rest);
        if body.Ok? {
          EndOn(body.rest, i.rest, b);
          assert ([i.value] + body.value.instrs)[1..] == body.value.instrs;
        }
      }
    }
  }

  lemma {:induction false} BodyIs(b: bytes)
    ensures RunSound(b, BlockBody(b))
    decreases |b|, 1
  {
    InstrsAre(b);
  }

  /**
   * Whatever bytes it is given, the decoder answers; what it answers is a tree
   * the format can hold and the proper end of its input, and the tree's
   * instructions, labels, handlers and types are fewer than the bytes it read.
   */
  lemma DecodeIsLinear(b: bytes)
    ensures var r := Expr(b);
      r.Ok? ==> AllOk(r.value) && EndOf(r.rest, b) && |r.rest| < |b| && TotalWeight(r.value) < |b| - |r.rest|
  {
    BodyIs(b);
  }

  /** So decoding, encoding and decoding again is decoding. */
  lemma Normalises(b: bytes)
    ensures var r := Expr(b); r.Ok? ==> AllOk(r.value) && Expr(PutInstrs(r.value, [0x0B] + r.rest)) == r
  {
    BodyIs(b);
    var r := Expr(b);
    if r.Ok? { DecodeInverts(r.value, r.rest); }
  }

  lemma EmptyRun(tail: bytes)
    ensures Instrs([0x0B] + tail) == Ok(Body([], End), tail) && BlockBody([0x0B] + tail) == Ok([], tail)
    ensures Instrs([0x05] + tail) == Ok(Body([], Else), tail)
  {
    assert ([0x0B] + tail)[1..] == tail && ([0x05] + tail)[1..] == tail;
  }

  lemma EmptyIf(tail: bytes)
    ensures DecodeIf([0x40] + ([0x05] + ([0x0B] + tail))) == Ok(If(Empty, [], []), tail)
  {
    BlockTypeReads(Empty, [0x05] + ([0x0B] + tail));
    EmptyRun([0x0B] + tail);
    EmptyRun(tail);
  }

  lemma NoElse(tail: bytes)
    ensures DecodeIf([0x40] + ([0x0B] + tail)) == Ok(If(Empty, [], []), tail)
  {
    BlockTypeReads(Empty, [0x0B] + tail);
    EmptyRun(tail);
  }

  /** Encoding what was decoded need not give the bytes back: an empty else is no else, */
  lemma EmptyElse(tail: bytes)
    ensures var tree := [If(Empty, [], [])];
      && Expr([0x04, 0x40, 0x05, 0x0B, 0x0B] + tail) == Ok(tree, tail)
      && Expr([0x04, 0x40, 0x0B, 0x0B] + tail) == Ok(tree, tail)
  {
    var last := [0x0B] + tail;
    var with, without := [0x40] + ([0x05] + ([0x0B] + last)), [0x40] + ([0x0B] + last);
    EmptyIf(last);
    DispatchBody(0x04, with);
    OneInstr(0x04, with, If(Empty, [], []), tail);
    assert [0x04, 0x40, 0x05, 0x0B, 0x0B] + tail == [0x04] + with;
    NoElse(last);
    DispatchBody(0x04, without);
    OneInstr(0x04, without, If(Empty, [], []), tail);
    assert [0x04, 0x40, 0x0B, 0x0B] + tail == [0x04] + without;
  }

  lemma OneInstr(op: byte, b: bytes, i: Instr, tail: bytes)
    requires op != 0x0B && op != 0x05 && DecodeInstr(op, b) == Ok(i, [0x0B] + tail)
    ensures Expr([op] + b) == Ok([i], tail)
  {
    assert ([op] + b)[0] == op && ([op] + b)[1..] == b;
    assert ([0x0B] + tail)[1..] == tail;
    assert Instrs([0x0B] + tail) == Ok(Body([], End), tail);
    assert [i] + [] == [i];
    assert Instrs([op] + b) == Ok(Body([i], End), tail);
    assert BlockBody([op] + b) == Ok([i], tail);
  }

  lemma SmallOffset(tail: bytes)
    ensures Offset(0x28, 2, 0, [7] + tail) == Ok(MemOp(0x28, 2, 7, 0), tail)
  {
    Pow2Up(3, 64);
    assert Pow2(3) == 8;
    U64RoundTrip(7, tail);
  }

  lemma NamedMemory(tail: bytes)
    ensures DecodeInstr(0x28, [66] + ([0] + ([7] + tail))) == Ok(MemOp(0x28, 2, 7, 0), tail)
  {
    SmallOffset(tail);
    U32RoundTrip(0, [7] + tail);
    U32RoundTrip(66, [0] + ([7] + tail));
    DispatchFlat(0x28, [66] + ([0] + ([7] + tail)));
  }

  lemma DefaultMemory(tail: bytes)
    ensures DecodeInstr(0x28, [2] + ([7] + tail)) == Ok(MemOp(0x28, 2, 7, 0), tail)
  {
    SmallOffset(tail);
    U32RoundTrip(2, [7] + tail);
    DispatchFlat(0x28, [2] + ([7] + tail));
  }

  /** and memory 0 named in full is memory 0 left out. */
  lemma ExplicitMemory(tail: bytes)
    ensures var tree := [MemOp(0x28, 2, 7, 0)];
      && Expr([0x28, 0x42, 0x00, 0x07, 0x0B] + tail) == Ok(tree, tail)
      && Expr([0x28, 0x02, 0x07, 0x0B] + tail) == Ok(tree, tail)
  {
    NamedMemoryRun(tail);
    DefaultMemoryRun(tail);
  }

  lemma NamedMemoryRun(tail: bytes)
    ensures Expr([0x28, 0x42, 0x00, 0x07, 0x0B] + tail) == Ok([MemOp(0x28, 2, 7, 0)], tail)
  {
    var last := [0x0B] + tail;
    var long := [66] + ([0] + ([7] + last));
    NamedMemory(last);
    OneInstr(0x28, long, MemOp(0x28, 2, 7, 0), tail);
    assert [0x28, 0x42, 0x00, 0x07, 0x0B] + tail == [0x28] + long;
  }

  lemma DefaultMemoryRun(tail: bytes)
    ensures Expr([0x28, 0x02, 0x07, 0x0B] + tail) == Ok([MemOp(0x28, 2, 7, 0)], tail)
  {
    var last := [0x0B] + tail;
    var short := [2] + ([7] + last);
    DefaultMemory(last);
    OneInstr(0x28, short, MemOp(0x28, 2, 7, 0), tail);
    assert [0x28, 0x02, 0x07, 0x0B] + tail == [0x28] + short;
  }
}
