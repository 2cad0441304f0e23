/**
 * The fixture builder: integers, vectors, sections and whole modules written
 * byte by byte, and the proof that a reader of the format gets the parts back.
 */
module SnapshotFixtures {
  import opened LittleEndian
  import opened Leb128
  import opened DecodeCode
  import opened EncodeCode

  datatype Option<T> = None | Some(value: T)

  // ----- integers -----

  lemma PutUAppends(v: nat, tail: bytes)
    ensures PutU(v, tail) == PutU(v, []) + tail
  {
    PutUOn(v, [], tail);
    assert [] + tail == tail;
  }

  /** `u32`: seven bits at a time, the top bit set on all but the last byte. */
  method EncodeU(n: nat) returns (out: bytes)
    ensures out == PutU(n, [])
  {
    out := [];
    var left := n;
    while true
      invariant out + PutU(left, []) == PutU(n, [])
      decreases left
    {
      var b := left % 128;
      ghost var was := left;
      left := left / 128;
      if left != 0 {
        assert PutU(was, []) == [b + 128] + PutU(left, []);
        out := out + [b + 128];
      } else {
        return out + [b];
      }
    }
  }

  /** `i32`: the same on signed numbers, until what is left is all sign. */
  method EncodeS(n: int) returns (out: bytes)
    ensures out == PutS(n, [])
  {
    out := [];
    var left := n;
    while true
      invariant out + PutS(left, []) == PutS(n, [])
      decreases LengthS(left)
    {
      var b, next := left % 128, left / 128;
      if (next == 0 && b < 64) || (next == -1 && b >= 64) {
        LastStep(left);
        return out + [b];
      }
      MoreStep(left);
      Assoc(out, [b + 128], PutS(next, []));
      out := out + [b + 128];
      left := next;
    }
  }

  lemma LastStep(v: int)
    requires -64 <= v < 64
    ensures PutS(v, []) == [v % 128]
  {
  }

  lemma MoreStep(v: int)
    requires !(-64 <= v < 64)
    ensures PutS(v, []) == [v % 128 + 128] + PutS(v / 128, []) && LengthS(v / 128) < LengthS(v)
  {
  }

  /** What `k` shifts right by seven leave of a number, rounding down. */
  function Shifted(n: int, k: nat): int
    decreases k
  {
    if k == 0 then n else Shifted(n / 128, k - 1)
  }

  predicate StopsAfter(n: int, k: nat) { Shifted(n, k + 1) == 0 }

  /** `u32` stops when a shift leaves 0: for every number that is not negative, and for no other. */
  lemma U32Stops(n: int)
    ensures n >= 0 <==> exists k: nat :: StopsAfter(n, k)
  {
    if n >= 0 {
      StopsAt(n);
    } else {
      forall k: nat ensures !StopsAfter(n, k) { StaysNegative(n, k + 1); }
    }
  }

  lemma {:induction false} StopsAt(n: nat)
    ensures exists k: nat :: StopsAfter(n, k)
    decreases n
  {
    if n < 128 {
      assert StopsAfter(n, 0);
    } else {
      StopsAt(n / 128);
      var k: nat :| StopsAfter(n / 128, k);
      assert StopsAfter(n, k + 1);
    }
  }

  lemma {:induction false} StaysNegative(n: int, k: nat)
    requires n < 0
    ensures Shifted(n, k) < 0
    decreases k
  {
    if k > 0 { StaysNegative(n / 128, k - 1); }
  }

  // ----- vectors and sections -----

  function Join(items: seq<bytes>): bytes
    decreases |items|
  {
    if items == [] then [] else items[0] + Join(items[1..])
  }

  function Vec(items: seq<bytes>): bytes { PutU(|items|, Join(items)) }

  lemma {:induction false} JoinAt(items: seq<bytes>, k: nat)
    requires k <= |items|
    ensures Join(items) == Join(items[..k]) + Join(items[k..])
    ensures k < |items| ==> Join(items[k..]) == items[k] + Join(items[k + 1..])
    decreases k
  {
    if k > 0 {
      JoinAt(items[1..], k - 1);
      assert items[..k][1..] == items[1..][..k - 1];
      assert items[1..][k - 1..] == items[k..];
    } else {
      assert items[..0] == [] && items[0..] == items;
    }
    if k < |items| { assert items[k..][1..] == items[k + 1..]; }
  }

  /** A vector read back: its count, and then its items one after another, each in its place. */
  lemma VecReads(items: seq<bytes>, rest: bytes, k: nat)
    requires |items| < 0x1_0000_0000
    ensures U32(Vec(items) + rest) == Ok(|items|, Join(items) + rest)
    ensures k < |items| ==> Join(items) == Join(items[..k]) + items[k] + Join(items[k + 1..])
    ensures items == [] ==> Join(items) == []
  {
    PutUOn(|items|, Join(items), rest);
    U32RoundTrip(|items|, Join(items) + rest);
    if k < |items| { JoinAt(items, k); }
  }

  datatype Section = Section(id: byte, payload: bytes)

  function PutSection(s: Section, tail: bytes): bytes {
    [s.id] + PutU(|s.payload|, s.payload + tail)
  }

  function PutSections(ss: seq<Section>, tail: bytes): bytes
    decreases |ss|
  {
    if ss == [] then tail else PutSection(ss[0], PutSections(ss[1..], tail))
  }

  /** A reader of section 5.5.2 of the format: an id, a size, and that many bytes, until none are left. */
  function Split(b: bytes): (r: Option<seq<Section>>)
    decreases |b|
  {
    if b == [] then Some([]) else
      UShrinks(b[1..], 32);
      match U32(b[1..])
      case Bad(_) => None
      case Ok(n, rest) =>
        if n > |rest| then None else
          match Split(rest[n..])
          case None => None
          case Some(ss) => Some([Section(b[0], rest[..n])] + ss)
  }

  lemma {:induction false} TooLong(v: nat, tail: bytes, max: nat, n: nat, acc: nat, p: nat)
    requires n <= max && n + LengthU(v) > max + 1
    ensures Unsigned(PutU(v, tail), max, n, acc, p).Bad?
    decreases v
  {
    if v >= 128 {
      assert PutU(v, tail)[1..] == PutU(v / 128, tail);
      if n < max { TooLong(v / 128, tail, max, n + 1, acc + v % 128 * p, 128 * p); }
    }
  }

  /** A size that does not fit 32 bits is refused. */
  lemma U32Refuses(v: nat, tail: bytes)
    requires v >= 0x1_0000_0000
    ensures U32(PutU(v, tail)).Bad?
  {
    Pow2Of32();
    if LengthU(v) <= 5 {
      UnsignedReads(v, tail, 5, 1, 0, 1);
    } else {
      TooLong(v, tail, 5, 1, 0, 1);
    }
  }

  predicate Sized(ss: seq<Section>) {
    forall s <- ss :: |s.payload| < 0x1_0000_0000
  }

  /** Sections are read back exactly when every one of them is under 4 GiB. */
  lemma {:induction false} SplitInverts(ss: seq<Section>)
    ensures Split(PutSections(ss, [])) == (if Sized(ss) then Some(ss) else None)
    decreases |ss|
  {
    if ss != [] {
      var s, tail := ss[0], PutSections(ss[1..], []);
      var b := PutSections(ss, []);
      assert b[0] == s.id && b[1..] == PutU(|s.payload|, s.payload + tail);
      SplitInverts(ss[1..]);
      if |s.payload| < 0x1_0000_0000 {
        U32RoundTrip(|s.payload|, s.payload + tail);
        assert (s.payload + tail)[..|s.payload|] == s.payload && (s.payload + tail)[|s.payload|..] == tail;
        assert ss == [s] + ss[1..];
        SizedRest(ss);
      } else {
        U32Refuses(|s.payload|, s.payload + tail);
        assert s in ss;
      }
    }
  }

  lemma SizedRest(ss: seq<Section>)
    requires ss != [] && |ss[0].payload| < 0x1_0000_0000
    ensures Sized(ss) <==> Sized(ss[1..])
  {
    if Sized(ss[1..]) {
      forall s | s in ss ensures |s.payload| < 0x1_0000_0000 {
        if s != ss[0] { assert s in ss[1..]; }
      }
    }
  }

  // ----- whole modules -----

  datatype Parts = Parts(types: seq<bytes>, imports: seq<bytes>, funcs: seq<nat>, tables: seq<bytes>, mems: seq<bytes>,
                         globals: seq<bytes>, exports: seq<bytes>, start: Option<nat>, elems: seq<bytes>,
                         code: seq<bytes>, datas: seq<bytes>)

  const MAGIC: bytes := [0x00, 0x61, 0x73, 0x6D, 0x01, 0x00, 0x00, 0x00]

  function Indices(funcs: seq<nat>): (items: seq<bytes>)
    ensures |items| == |funcs|
  {
    seq(|funcs|, k requires 0 <= k < |funcs| => PutU(funcs[k], []))
  }

  /** The vector of the function section, read as the decoder reads vectors of numbers, is what it was made of. */
  lemma FuncsRead(funcs: seq<nat>, rest: bytes)
    requires LabelsOk(funcs)
    ensures Count(Vec(Indices(funcs)) + rest).Ok?
    ensures var c := Count(Vec(Indices(funcs)) + rest); VecU32(c.value, c.rest) == Ok(funcs, rest)
  {
    JoinIndices(funcs, rest);
    PutUOn(|funcs|, Join(Indices(funcs)), rest);
    LabelsRead(funcs, rest);
    CountReads(|funcs|, PutLabels(funcs, rest));
  }

  lemma {:induction false} JoinIndices(funcs: seq<nat>, rest: bytes)
    ensures Join(Indices(funcs)) + rest == PutLabels(funcs, rest)
    decreases |funcs|
  {
    if funcs != [] {
      JoinIndices(funcs[1..], rest);
      assert Indices(funcs)[1..] == Indices(funcs[1..]);
      PutUAppends(funcs[0], PutLabels(funcs[1..], rest));
    }
  }

  /** A part that is there is a section of its own. */
  function VecSection(id: byte, items: seq<bytes>): seq<Section> {
    if items == [] then [] else [Section(id, Vec(items))]
  }

  function StartSection(start: Option<nat>): seq<Section> {
    match start
    case None => []
    case Some(f) => [Section(8, PutU(f, []))]
  }

  /** The parts that are there, in the order of the format. */
  function SectionsOf(p: Parts): seq<Section> {
    [] + VecSection(1, p.types) + VecSection(2, p.imports) + VecSection(3, Indices(p.funcs)) + VecSection(4, p.tables)
    + VecSection(5, p.mems) + VecSection(6, p.globals) + VecSection(7, p.exports) + StartSection(p.start)
    + VecSection(9, p.elems) + VecSection(10, p.code) + VecSection(11, p.datas)
  }

  /** Ids increase, and are all below `id`. */
  predicate Ascending(ss: seq<Section>, id: nat)
    decreases |ss|
  {
    ss == [] || (ss[|ss| - 1].id < id && Ascending(ss[..|ss| - 1], ss[|ss| - 1].id))
  }

  lemma {:induction false} AscendingIs(ss: seq<Section>, id: nat)
    requires Ascending(ss, id)
    ensures forall k :: 0 <= k < |ss| ==> ss[k].id < id
    ensures forall j, k :: 0 <= j < k < |ss| ==> ss[j].id < ss[k].id
    decreases |ss|
  {
    if ss != [] { AscendingIs(ss[..|ss| - 1], ss[|ss| - 1].id); }
  }

  lemma AscendingUp(ss: seq<Section>, id: nat, above: nat)
    requires Ascending(ss, id) && id <= above
    ensures Ascending(ss, above)
  {
  }

  lemma AscendingAdds(ss: seq<Section>, s: Section)
    requires Ascending(ss, s.id)
    ensures Ascending(ss + [s], s.id + 1)
  {
    assert (ss + [s])[..|ss|] == ss;
  }

  lemma {:induction false} PutSectionsAppends(ss: seq<Section>, more: seq<Section>)
    ensures PutSections(ss + more, []) == PutSections(ss, []) + PutSections(more, [])
    decreases |ss|
  {
    if ss == [] {
      assert ss + more == more;
    } else {
      assert (ss + more)[1..] == ss[1..] + more;
      PutSectionsAppends(ss[1..], more);
      var s := ss[0];
      var a, b := PutSections(ss[1..], []), PutSections(more, []);
      PutUAppends(|s.payload|, s.payload + (a + b));
      PutUAppends(|s.payload|, s.payload + a);
      assert PutSection(s, a + b) == PutSection(s, a) + b;
    }
  }

  /** `section` */
  method EncodeSection(id: byte, payload: bytes) returns (out: bytes)
    ensures out == PutSections([Section(id, payload)], [])
  {
    var size := EncodeU(|payload|);
    out := [id] + size + payload;
    PutUAppends(|payload|, payload);
    assert PutSections([Section(id, payload)][1..], []) == [];
    assert payload + [] == payload;
  }

  /** `vec` */
  method EncodeVec(items: seq<bytes>) returns (out: bytes)
    ensures out == Vec(items)
  {
    var count := EncodeU(|items|);
    var all := [];
    var k := 0;
    while k < |items|
      invariant k <= |items| && all + Join(items[k..]) == Join(items)
    {
      assert items[k..][0] == items[k] && items[k..][1..] == items[k + 1..];
      all := all + items[k];
      k := k + 1;
    }
    PutUAppends(|items|, Join(items));
    out := count + all;
  }

  /** What has been written are these sections, in order, all with ids below `id`. */
  ghost predicate Written(out: bytes, ss: seq<Section>, id: nat) {
    out == MAGIC + PutSections(ss, []) && Ascending(ss, id)
  }

  lemma WrittenAdds(out: bytes, ss: seq<Section>, s: Section)
    requires Written(out, ss, s.id)
    ensures Written(out + PutSections([s], []), ss + [s], s.id + 1)
  {
    PutSectionsAppends(ss, [s]);
    AscendingAdds(ss, s);
  }

  lemma WrittenSkips(out: bytes, ss: seq<Section>, id: nat)
    requires Written(out, ss, id)
    ensures Written(out, ss + [], id + 1)
  {
    AscendingUp(ss, id, id + 1);
    assert ss + [] == ss;
  }

  /** One `if part: out += section(...)`. */
  method AddVec(out: bytes, ghost ss: seq<Section>, id: byte, items: seq<bytes>) returns (more: bytes)
    requires Written(out, ss, id)
    ensures Written(more, ss + VecSection(id, items), id + 1)
  {
    if items == [] {
      WrittenSkips(out, ss, id);
      more := out;
    } else {
      var payload := EncodeVec(items);
      var section := EncodeSection(id, payload);
      WrittenAdds(out, ss, Section(id, payload));
      more := out + section;
    }
  }

  method AddStart(out: bytes, ghost ss: seq<Section>, start: Option<nat>) returns (more: bytes)
    requires Written(out, ss, 8)
    ensures Written(more, ss + StartSection(start), 9)
  {
    match start
    case None =>
      WrittenSkips(out, ss, 8);
      more := out;
    case Some(f) =>
      var payload := EncodeU(f);
      var section := EncodeSection(8, payload);
      WrittenAdds(out, ss, Section(8, payload));
      more := out + section;
  }

  /** `module`: the output is the sections of the parts that are there, their ids strictly increasing. */
  method EncodeModule(p: Parts) returns (out: bytes)
    ensures Written(out, SectionsOf(p), 12)
  {
    out := MAGIC;
    ghost var s0: seq<Section> := [];
    out := AddVec(out, s0, 1, p.types);
    ghost var s1 := s0 + VecSection(1, p.types);
    out := AddVec(out, s1, 2, p.imports);
    ghost var s2 := s1 + VecSection(2, p.imports);
    var funcs := EncodeIndices(p.funcs);
    out := AddVec(out, s2, 3, funcs);
    ghost var s3 := s2 + VecSection(3, funcs);
    out := AddVec(out, s3, 4, p.tables);
    ghost var s4 := s3 + VecSection(4, p.tables);
    out := AddVec(out, s4, 5, p.mems);
    ghost var s5 := s4 + VecSection(5, p.mems);
    out := AddVec(out, s5, 6, p.globals);
    ghost var s6 := s5 + VecSection(6, p.globals);
    out := AddVec(out, s6, 7, p.exports);
    ghost var s7 := s6 + VecSection(7, p.exports);
    out := AddStart(out, s7, p.start);
    ghost var s8 := s7 + StartSection(p.start);
    out := AddVec(out, s8, 9, p.elems);
    ghost var s9 := s8 + VecSection(9, p.elems);
    out := AddVec(out, s9, 10, p.code);
    ghost var s10 := s9 + VecSection(10, p.code);
    out := AddVec(out, s10, 11, p.datas);
  }

  method EncodeIndices(funcs: seq<nat>) returns (items: seq<bytes>)
    ensures items == Indices(funcs)
  {
    items := [];
    while |items| < |funcs|
      invariant |items| <= |funcs| && forall k :: 0 <= k < |items| ==> items[k] == PutU(funcs[k], [])
    {
      var item := EncodeU(funcs[|items|]);
      items := items + [item];
    }
  }

  /**
   * What `module` writes starts with the magic and the version, its ids are
   * strictly increasing, and a reader gets exactly its sections back unless one
   * of them is 4 GiB or more.
   */
  lemma ModuleSplits(p: Parts, out: bytes)
    requires Written(out, SectionsOf(p), 12)
    ensures MAGIC <= out
    ensures forall j, k :: 0 <= j < k < |SectionsOf(p)| ==> SectionsOf(p)[j].id < SectionsOf(p)[k].id
    ensures Split(out[|MAGIC|..]) == (if Sized(SectionsOf(p)) then Some(SectionsOf(p)) else None)
  {
    SplitInverts(SectionsOf(p));
    AscendingIs(SectionsOf(p), 12);
    assert out[|MAGIC|..] == PutSections(SectionsOf(p), []);
  }

  // ----- function bodies -----

  function BodyOf(locals: seq<bytes>, instrs: bytes): bytes {
    var b := Vec(locals) + instrs + [0x0B];
    PutU(|b|, b)
  }

  /** `body`: the locals, the instructions and the end, behind their size. */
  method EncodeBody(locals: seq<bytes>, instrs: bytes) returns (out: bytes)
    ensures out == BodyOf(locals, instrs)
  {
    var decl := EncodeVec(locals);
    var b := decl + instrs + [0x0B];
    var size := EncodeU(|b|);
    PutUAppends(|b|, b);
    out := size + b;
  }

  /**
   * A body built from the encoding of a tree: its size, then its locals, then
   * bytes the decoder turns into that tree with nothing left over.
   */
  lemma BodyDecodes(locals: seq<bytes>, tree: seq<Instr>)
    requires AllOk(tree) && |Vec(locals)| + |PutInstrs(tree, [])| + 1 < 0x1_0000_0000
    ensures var size := U32(BodyOf(locals, PutInstrs(tree, [])));
      && size.Ok? && size.value == |size.rest| && Vec(locals) <= size.rest
      && Expr(size.rest[|Vec(locals)|..]) == Ok(tree, [])
  {
    var decl, instrs := Vec(locals), PutInstrs(tree, []);
    BodySize(decl, instrs + [0x0B], decl + instrs + [0x0B]);
    DecodeInvertsWritten(tree, []);
    assert instrs + [0x0B] + [] == instrs + [0x0B];
  }

  lemma BodySize(decl: bytes, instrs: bytes, b: bytes)
    requires |b| < 0x1_0000_0000 && |b| == |decl| + |instrs|
    requires forall k :: 0 <= k < |b| ==> b[k] == if k < |decl| then decl[k] else instrs[k - |decl|]
    ensures U32(PutU(|b|, b)) == Ok(|b|, b) && decl <= b && b[|decl|..] == instrs
  {
    U32RoundTrip(|b|, b);
  }

  // ----- which part is in which section -----

  /** The payload of each section by its id, as section 5.5.2 of the WebAssembly Core Specification numbers them; none
      for a part that is empty. */
  function PartOf(p: Parts, id: byte): Option<bytes> {
    match id
    case 1 => VecPart(p.types)
    case 2 => VecPart(p.imports)
    case 3 => VecPart(Indices(p.funcs))
    case 4 => VecPart(p.tables)
    case 5 => VecPart(p.mems)
    case 6 => VecPart(p.globals)
    case 7 => VecPart(p.exports)
    case 8 => if p.start.Some? then Some(PutU(p.start.value, [])) else None
    case 9 => VecPart(p.elems)
    case 10 => VecPart(p.code)
    case 11 => VecPart(p.datas)
    case _ => None
  }

  function VecPart(items: seq<bytes>): Option<bytes> {
    if items == [] then None else Some(Vec(items))
  }

  /** These sections hold exactly the parts with ids up to `top`. */
  ghost predicate Holds(ss: seq<Section>, p: Parts, top: nat) {
    && (forall s :: s in ss ==> s.id <= top && PartOf(p, s.id) == Some(s.payload))
    && (forall id: byte :: id <= top && PartOf(p, id).Some? ==> Section(id, PartOf(p, id).value) in ss)
  }

  lemma NextPart(ss: seq<Section>, p: Parts, id: byte, more: seq<Section>)
    requires id > 0 && Holds(ss, p, id - 1)
    requires more == if PartOf(p, id).Some? then [Section(id, PartOf(p, id).value)] else []
    ensures Holds(ss + more, p, id)
  {
  }

  lemma NextVec(ss: seq<Section>, p: Parts, id: byte, items: seq<bytes>)
    requires id > 0 && Holds(ss, p, id - 1) && PartOf(p, id) == VecPart(items)
    ensures Holds(ss + VecSection(id, items), p, id)
  {
    NextPart(ss, p, id, VecSection(id, items));
  }

  lemma FirstParts(p: Parts)
    ensures Holds([] + VecSection(1, p.types) + VecSection(2, p.imports) + VecSection(3, Indices(p.funcs))
                  + VecSection(4, p.tables), p, 4)
  {
    assert Holds([], p, 0);
    NextVec([], p, 1, p.types);
    NextVec([] + VecSection(1, p.types), p, 2, p.imports);
    NextVec([] + VecSection(1, p.types) + VecSection(2, p.imports), p, 3, Indices(p.funcs));
    NextVec([] + VecSection(1, p.types) + VecSection(2, p.imports) + VecSection(3, Indices(p.funcs)), p, 4, p.tables);
  }

  lemma MoreParts(p: Parts, ss: seq<Section>)
    requires Holds(ss, p, 4)
    ensures Holds(ss + VecSection(5, p.mems) + VecSection(6, p.globals) + VecSection(7, p.exports)
                  + StartSection(p.start), p, 8)
  {
    NextVec(ss, p, 5, p.mems);
    NextVec(ss + VecSection(5, p.mems), p, 6, p.globals);
    NextVec(ss + VecSection(5, p.mems) + VecSection(6, p.globals), p, 7, p.exports);
    var s7 := ss + VecSection(5, p.mems) + VecSection(6, p.globals) + VecSection(7, p.exports);
    NextPart(s7, p, 8, StartSection(p.start));
  }

  lemma LastParts(p: Parts, ss: seq<Section>)
    requires Holds(ss, p, 8)
    ensures Holds(ss + VecSection(9, p.elems) + VecSection(10, p.code) + VecSection(11, p.datas), p, 11)
  {
    NextVec(ss, p, 9, p.elems);
    NextVec(ss + VecSection(9, p.elems), p, 10, p.code);
    NextVec(ss + VecSection(9, p.elems) + VecSection(10, p.code), p, 11, p.datas);
  }

  /** Each part that is there is in the section of its own id, whole, and no other section is there. */
  lemma PartsInSections(p: Parts)
    ensures Holds(SectionsOf(p), p, 11)
  {
    var s4 := [] + VecSection(1, p.types) + VecSection(2, p.imports) + VecSection(3, Indices(p.funcs))
              + VecSection(4, p.tables);
    var s8 := s4 + VecSection(5, p.mems) + VecSection(6, p.globals) + VecSection(7, p.exports)
              + StartSection(p.start);
    FirstParts(p);
    MoreParts(p, s4);
    LastParts(p, s8);
  }
}
