/**
 * The writer of the reactor's JSON codec, and the round trip: reading back
 * what was written gives the value again exactly when it is plain.
 */
module LuaJsonWriter {
  import opened Decimals
  import opened LittleEndian
  import opened JsonText
  import opened LuaJsonReader

  // ----- strings -----

  /** `%c` in the C locale. */
  predicate Control(c: byte) { c < 32 || c == 127 }

  function HexDigit(v: nat): byte
    requires v < 16
  {
    if v < 10 then 48 + v else 87 + v
  }

  function Escape(c: byte): Piece {
    if c == QUOTE || c == BACKSLASH then Short(c)
    else if c == 10 then Short(110)
    else if c == 9 then Short(116)
    else if c == 13 then Short(114)
    else if Control(c) then Code([48, 48, HexDigit(c / 16), HexDigit(c % 16)])
    else Raw(c)
  }

  function Escapes(v: bytes): seq<Piece> {
    if v == [] then [] else [Escape(v[0])] + Escapes(v[1..])
  }

  /**
   * What section 7 of RFC 8259 lets stand between the quotes, with the byte
   * 127 left out as well: no control character, no bare quote or backslash, and
   * only the escapes of the grammar.
   */
  predicate Section7(p: Piece) {
    match p
    case Raw(b) => b >= 32 && b != 127 && b != QUOTE && b != BACKSLASH
    case Short(e) => e in {QUOTE, BACKSLASH, 47, 98, 102, 110, 114, 116}
    case Code(code) => |code| == 4 && AllHex(code)
  }

  /** Four digits are a number. */
  lemma FourDigits(h0: byte, h1: byte, h2: byte, h3: byte)
    requires IsHex(h0) && IsHex(h1) && IsHex(h2) && IsHex(h3)
    ensures AllHex([h0, h1, h2, h3]) && IsCode([h0, h1, h2, h3])
    ensures CodeOf([h0, h1, h2, h3]) == 4096 * HexValue(h0) + 256 * HexValue(h1) + 16 * HexValue(h2) + HexValue(h3)
  {
    var code := [h0, h1, h2, h3];
    assert [h0][..0] == [] && [h0, h1][..1] == [h0] && [h0, h1, h2][..2] == [h0, h1] && code[..3] == [h0, h1, h2];
    assert HexSum([h0]) == HexValue(h0) && HexSum([h0, h1]) == 16 * HexValue(h0) + HexValue(h1);
    assert HexSum([h0, h1, h2]) == 256 * HexValue(h0) + 16 * HexValue(h1) + HexValue(h2);
    assert code == [] + [] + code + [];
    NumeralIs(code, [], [], code, [], HexSum(code));
  }

  lemma EscapeInverts(c: byte)
    ensures PieceOk(Escape(c)) && PieceValue(Escape(c)) == [c] && Section7(Escape(c))
    ensures Escape(c).Raw? <==> Section7(Raw(c))
  {
    if Control(c) {
      assert c / 16 < 8 && HexValue(HexDigit(c / 16)) == c / 16 && HexValue(HexDigit(c % 16)) == c % 16;
      FourDigits(48, 48, HexDigit(c / 16), HexDigit(c % 16));
    }
  }

  /** Reading an escaped string gives the string, and every piece is one of section 7. */
  lemma {:induction false} EscapesInvert(v: bytes)
    ensures PiecesOk(Escapes(v)) && StringValue(Escapes(v)) == v
    ensures forall p :: p in Escapes(v) ==> Section7(p)
  {
    if v != [] {
      EscapeInverts(v[0]);
      EscapesInvert(v[1..]);
      assert Escapes(v)[1..] == Escapes(v[1..]);
    }
  }

  lemma {:induction false} PutPiecesAppends(ps: seq<Piece>, a: bytes, rest: bytes)
    ensures PutPieces(ps, a + rest) == PutPieces(ps, a) + rest
  {
    if ps != [] {
      PutPiecesAppends(ps[1..], a, rest);
      Regroup(ShowPiece(ps[0]), PutPieces(ps[1..], a), rest);
    }
  }

  /** The replacement of one matched character. */
  method EscapeText(c: byte) returns (text: bytes)
    ensures text == ShowPiece(Escape(c))
  {
    if c == QUOTE { return [BACKSLASH, QUOTE]; }
    if c == BACKSLASH { return [BACKSLASH, BACKSLASH]; }
    if c == 10 { return [BACKSLASH, 110]; }
    if c == 9 { return [BACKSLASH, 116]; }
    if c == 13 { return [BACKSLASH, 114]; }
    if Control(c) { return [BACKSLASH, LOWER_U, 48, 48, HexDigit(c / 16), HexDigit(c % 16)]; }
    return [c];
  }

  /** The quoted string: `gsub` from the left, one character at a time. */
  method EncodeString(v: bytes) returns (text: bytes)
    ensures text == PutString(Escapes(v), [])
  {
    text := [];
    var i := 0;
    while i < |v|
      invariant 0 <= i <= |v|
      invariant text + PutPieces(Escapes(v[i..]), [QUOTE]) == PutPieces(Escapes(v), [QUOTE])
    {
      var piece := EscapeText(v[i]);
      assert Escapes(v[i..])[1..] == Escapes(v[i + 1..]) by { assert v[i..][1..] == v[i + 1..]; }
      Regroup(text, piece, PutPieces(Escapes(v[i + 1..]), [QUOTE]));
      text := text + piece;
      i := i + 1;
    }
    assert [QUOTE] + [] == [QUOTE];
    text := [QUOTE] + text + [QUOTE];
  }

  // ----- integers -----

  /** `tostring` */
  function ToString(n: int): bytes {
    NumberText(n < 0, Decimal(if n < 0 then 0 - n else n))
  }

  // ----- texts as the writer lays them out -----

  /** No white space anywhere, and every string as in section 7. */
  predicate Written(t: Text) {
    match t
    case String(ps) => StrictString(ps)
    case EmptyList(gap) => gap == []
    case List(items) => WrittenItems(items)
    case EmptyObject(gap) => gap == []
    case Object(fields) => WrittenFields(fields)
    case _ => true
  }

  predicate StrictString(ps: seq<Piece>) { forall p :: p in ps ==> Section7(p) }

  predicate WrittenItems(items: Items) {
    && items.before == [] && Written(items.text) && items.after == []
    && (items.MoreItems? ==> WrittenItems(items.more)) && (items.LastItem? ==> items.close == [CLOSE_LIST])
  }

  predicate WrittenFields(f: Fields) {
    && f.head.before == [] && StrictString(f.head.name) && f.head.after == [] && f.head.colon == COLON
    && f.before == [] && Written(f.text) && f.after == []
    && (f.MoreFields? ==> WrittenFields(f.more)) && (f.LastField? ==> f.close == [CLOSE_OBJECT])
  }

  /** What the writer prints is never cut short. */
  lemma {:induction false} ItemsAreWhole(items: Items)
    requires WrittenItems(items)
    ensures !ItemsCut(items)
    decreases items
  {
    if items.MoreItems? { ItemsAreWhole(items.more); }
  }

  lemma {:induction false} FieldsAreWhole(f: Fields)
    requires WrittenFields(f)
    ensures !FieldsCut(f)
    decreases f
  {
    if f.MoreFields? { FieldsAreWhole(f.more); }
  }

  lemma GapAppends(open: byte, gap: bytes, close: byte, a: bytes, rest: bytes)
    ensures [open] + (gap + ([close] + (a + rest))) == [open] + (gap + ([close] + a)) + rest
  {
  }

  lemma StringPutAppends(ps: seq<Piece>, a: bytes, rest: bytes)
    ensures PutString(ps, a + rest) == PutString(ps, a) + rest
  {
    PutPiecesAppends(ps, [QUOTE] + a, rest);
    Regroup([QUOTE], a, rest);
    Regroup([QUOTE], PutPieces(ps, [QUOTE] + a), rest);
  }

  lemma {:induction false} PutAppends(t: Text, a: bytes, rest: bytes)
    ensures Put(t, a + rest) == Put(t, a) + rest
    decreases t
  {
    match t
    case Null => Regroup(NULL, a, rest);
    case Truth(b) => Regroup(if b then TRUE else FALSE, a, rest);
    case Number(neg, ds) => Regroup(NumberText(neg, ds), a, rest);
    case String(ps) => StringPutAppends(ps, a, rest);
    case EmptyList(gap) => GapAppends(OPEN_LIST, gap, CLOSE_LIST, a, rest);
    case List(items) =>
      PutItemsAppends(items, a, rest);
      Regroup([OPEN_LIST], PutItems(items, a), rest);
    case EmptyObject(gap) => GapAppends(OPEN_OBJECT, gap, CLOSE_OBJECT, a, rest);
    case Object(fields) =>
      PutFieldsAppends(fields, a, rest);
      Regroup([OPEN_OBJECT], PutFields(fields, a), rest);
  }

  lemma {:induction false} PutItemsAppends(items: Items, a: bytes, rest: bytes)
    ensures PutItems(items, a + rest) == PutItems(items, a) + rest
    ensures AfterItem(items, a + rest) == AfterItem(items, a) + rest
    decreases items
  {
    if items.LastItem? {
      assert items.close + (a + rest) == items.close + a + rest;
    } else {
      PutItemsAppends(items.more, a, rest);
      assert [COMMA] + (PutItems(items.more, a) + rest) == [COMMA] + PutItems(items.more, a) + rest;
    }
    var tail := AfterItem(items, a);
    assert AfterItem(items, a + rest) == tail + rest;
    Regroup(items.after, tail, rest);
    PutAppends(items.text, items.after + tail, rest);
    Regroup(items.before, Put(items.text, items.after + tail), rest);
  }

  lemma {:induction false} PutFieldsAppends(f: Fields, a: bytes, rest: bytes)
    ensures PutFields(f, a + rest) == PutFields(f, a) + rest
    ensures AfterField(f, a + rest) == AfterField(f, a) + rest
    decreases f
  {
    if f.LastField? {
      assert f.close + (a + rest) == f.close + a + rest;
    } else {
      PutFieldsAppends(f.more, a, rest);
      assert [COMMA] + (PutFields(f.more, a) + rest) == [COMMA] + PutFields(f.more, a) + rest;
    }
    var tail := AfterField(f, a);
    assert AfterField(f, a + rest) == tail + rest;
    Regroup(f.after, tail, rest);
    PutAppends(f.text, f.after + tail, rest);
    var value := Put(f.text, f.after + tail);
    Regroup(f.before, value, rest);
    HeadAppends(f.head, f.before + value, rest);
  }

  lemma HeadAppends(h: Head, a: bytes, rest: bytes)
    ensures PutHead(h, a + rest) == PutHead(h, a) + rest
  {
    assert h.after + ([h.colon] + (a + rest)) == h.after + ([h.colon] + a) + rest;
    var tail := h.after + ([h.colon] + a);
    assert [QUOTE] + (tail + rest) == [QUOTE] + tail + rest;
    PutPiecesAppends(h.name, [QUOTE] + tail, rest);
    assert h.before + (PutString(h.name, tail) + rest) == h.before + PutString(h.name, tail) + rest;
  }

  // ----- lists -----

  /** `table.concat(out, ',')` */
  function Concat(out: seq<bytes>): bytes {
    if |out| == 0 then [] else if |out| == 1 then out[0] else out[0] + [COMMA] + Concat(out[1..])
  }

  predicate Shows(out: seq<bytes>, ts: seq<Text>) {
    && |out| == |ts|
    && forall i :: 0 <= i < |ts| ==> Ok(ts[i]) && !Cut(ts[i]) && Written(ts[i]) && out[i] == Put(ts[i], [])
  }

  function ItemsOf(ts: seq<Text>): Items
    requires ts != []
  {
    if |ts| == 1 then LastItem([], ts[0], [], [CLOSE_LIST]) else MoreItems([], ts[0], [], ItemsOf(ts[1..]))
  }

  lemma {:induction false} ItemsShow(out: seq<bytes>, ts: seq<Text>)
    requires Shows(out, ts) && ts != []
    ensures ItemsOk(ItemsOf(ts)) && WrittenItems(ItemsOf(ts))
    ensures PutItems(ItemsOf(ts), []) == Concat(out) + [CLOSE_LIST]
  {
    ItemShows(ts[0], AfterItem(ItemsOf(ts), []));
    if |ts| == 1 {
      assert [CLOSE_LIST] + [] == [CLOSE_LIST];
    } else {
      ItemsShow(out[1..], ts[1..]);
      Joined(out[0], Concat(out[1..]), [CLOSE_LIST]);
    }
  }

  lemma ItemShows(t: Text, tail: bytes)
    ensures [] + Put(t, [] + tail) == Put(t, []) + tail
  {
    assert [] + tail == tail;
    PutAppends(t, [], tail);
    assert [] + (Put(t, []) + tail) == Put(t, []) + tail;
  }

  lemma {:induction false} ItemsMean(ts: seq<Text>)
    requires ts != [] && forall i :: 0 <= i < |ts| ==> Ok(ts[i]) && !Cut(ts[i]) && !Meaning(ts[i]).Nil?
    ensures ItemsOk(ItemsOf(ts))
    ensures ItemValues(ItemsOf(ts)) == seq(|ts|, i requires 0 <= i < |ts| => Meaning(ts[i]))
  {
    if |ts| > 1 { ItemsMean(ts[1..]); }
  }

  // ----- objects -----

  datatype Pair = Pair(name: bytes, text: Text)

  function ShowPair(p: Pair): bytes {
    PutString(Escapes(p.name), []) + [COLON] + Put(p.text, [])
  }

  predicate PairsShow(out: seq<bytes>, ps: seq<Pair>) {
    && |out| == |ps|
    && forall i :: 0 <= i < |ps| ==>
         Ok(ps[i].text) && !Cut(ps[i].text) && Written(ps[i].text) && out[i] == ShowPair(ps[i])
  }

  function FieldsOfPairs(ps: seq<Pair>): Fields
    requires ps != []
  {
    var head := Head([], Escapes(ps[0].name), [], COLON);
    if |ps| == 1 then LastField(head, [], ps[0].text, [], [CLOSE_OBJECT])
    else MoreFields(head, [], ps[0].text, [], FieldsOfPairs(ps[1..]))
  }

  lemma StringAppends(ps: seq<Piece>, rest: bytes)
    ensures PutString(ps, rest) == PutString(ps, []) + rest
  {
    assert [QUOTE] + [] == [QUOTE];
    PutPiecesAppends(ps, [QUOTE], rest);
  }

  lemma PairShows(p: Pair, tail: bytes)
    ensures PutHead(Head([], Escapes(p.name), [], COLON), [] + Put(p.text, [] + tail)) == ShowPair(p) + tail
  {
    assert [] + tail == tail;
    PutAppends(p.text, [], tail);
    var value := Put(p.text, []);
    assert [] + (value + tail) == value + tail;
    var after := [COLON] + (value + tail);
    assert [] + after == after;
    StringAppends(Escapes(p.name), after);
    var name := PutString(Escapes(p.name), []);
    assert [] + (name + after) == name + [COLON] + value + tail;
  }

  lemma {:induction false} FieldsShow(out: seq<bytes>, ps: seq<Pair>)
    requires PairsShow(out, ps) && ps != []
    ensures FieldsOk(FieldsOfPairs(ps)) && WrittenFields(FieldsOfPairs(ps))
    ensures PutFields(FieldsOfPairs(ps), []) == Concat(out) + [CLOSE_OBJECT]
  {
    var f := FieldsOfPairs(ps);
    EscapesInvert(ps[0].name);
    PairShows(ps[0], AfterField(f, []));
    if |ps| == 1 {
      assert [CLOSE_OBJECT] + [] == [CLOSE_OBJECT];
    } else {
      FieldsShow(out[1..], ps[1..]);
      Joined(out[0], Concat(out[1..]), [CLOSE_OBJECT]);
    }
  }

  lemma Joined(a: bytes, b: bytes, c: bytes)
    ensures a + ([COMMA] + (b + c)) == a + [COMMA] + b + c
  {
  }

  /** The pairs stored from left to right into an empty table. */
  function Stored(ps: seq<Pair>): Entries
    requires forall p :: p in ps ==> Ok(p.text)
  {
    if ps == [] then map[] else
      var last := ps[|ps| - 1];
      assert last in ps;
      Set(Stored(ps[..|ps| - 1]), Name(last.name), Meaning(last.text))
  }

  lemma {:induction false} FieldsMean(ps: seq<Pair>, i: nat)
    requires i < |ps| && forall p :: p in ps ==> Ok(p.text) && !Cut(p.text)
    ensures FieldsOk(FieldsOfPairs(ps[i..])) && FieldValues(FieldsOfPairs(ps[i..]), Stored(ps[..i])) == Stored(ps)
    decreases |ps| - i
  {
    assert ps[i] in ps;
    EscapesInvert(ps[i].name);
    assert ps[..i + 1][..i] == ps[..i] && ps[i..][1..] == ps[i + 1..];
    assert Stored(ps[..i + 1]) == Set(Stored(ps[..i]), Name(ps[i].name), Meaning(ps[i].text));
    if i + 1 == |ps| {
      assert ps[..i + 1] == ps;
    } else {
      FieldsMean(ps, i + 1);
    }
  }

  // ----- the writer -----

  /** The text spells the value, or, of a value that is not plain, some other. */
  ghost predicate Spells(text: bytes, v: Value) {
    exists t :: Ok(t) && Written(t) && text == Put(t, []) && (Meaning(t) == v <==> Plain(v))
  }

  /** `J.encode` */
  method Encode(v: Value) returns (text: bytes, ghost t: Text)
    requires Proper(v)
    ensures Ok(t) && !Cut(t) && Written(t) && text == Put(t, [])
    ensures (Meaning(t) == v <==> Plain(v)) && Spells(text, v)
    decreases v, 4
  {
    if v.Table? {
      text, t := EncodeTable(v.m);
    } else if v.Str? {
      text := EncodeString(v.s);
      t := String(Escapes(v.s));
      EscapesInvert(v.s);
    } else if v.Int? {
      text := ToString(v.n);
      t := Number(v.n < 0, Decimal(if v.n < 0 then 0 - v.n else v.n));
      DecimalInverts(if v.n < 0 then 0 - v.n else v.n);
      assert text + [] == text;
    } else if v.Bool? {
      text, t := if v.b then TRUE else FALSE, Truth(v.b);
      assert text + [] == text;
    } else {
      text, t := NULL, Null;
      assert text + [] == text;
    }
  }

  /** A table is written as a list when its length, some border of it, is its number of entries. */
  method EncodeTable(m: Entries) returns (text: bytes, ghost t: Text)
    requires Proper(Table(m))
    ensures Ok(t) && !Cut(t) && Written(t) && text == Put(t, [])
    ensures (Meaning(t) == Table(m) <==> Plain(Table(m))) && Spells(text, Table(m))
    decreases Table(m), 3
  {
    var n := |m|;
    var b := Length(m);
    if n > 0 && n == b {
      text, t := EncodeList(m);
    } else {
      text, t := EncodeObject(m);
      if IsList(m) { ListBorder(m, b); }
    }
    MeaningIsPlain(t);
  }

  /** `J.encode(v[i])`, which is null where the list has a hole. */
  method EncodeItem(m: Entries, i: nat) returns (item: bytes, ghost u: Text)
    requires Proper(Table(m))
    ensures Ok(u) && !Cut(u) && Written(u) && item == Put(u, [])
    ensures Num(i + 1) in m && Plain(m[Num(i + 1)]) ==> Meaning(u) == m[Num(i + 1)]
    decreases Table(m), 0
  {
    if Num(i + 1) in m {
      item, u := Encode(m[Num(i + 1)]);
    } else {
      item, u := NULL, Null;
      assert NULL + [] == NULL;
    }
  }

  /** The items written spell the entries from 1 on. */
  predicate Meant(m: Entries, ts: seq<Text>)
    requires forall i :: 0 <= i < |ts| ==> Ok(ts[i]) && !Cut(ts[i])
  {
    forall j :: 0 <= j < |ts| ==> Num(j + 1) in m && Meaning(ts[j]) == m[Num(j + 1)]
  }

  lemma PlainItem(m: Entries, i: nat)
    requires Num(|m|) in m && Plain(Table(m)) && i < |m|
    ensures IsList(m) && Num(i + 1) in m && Plain(m[Num(i + 1)])
  {
    assert Num(i + 1) in Indices(|m|);
  }

  method EncodeItems(m: Entries) returns (out: seq<bytes>, ghost ts: seq<Text>)
    requires Proper(Table(m)) && Num(|m|) in m
    ensures |ts| == |m| && Shows(out, ts) && (Plain(Table(m)) ==> Meant(m, ts))
    decreases Table(m), 1
  {
    out, ts := [], [];
    ghost var plain := Plain(Table(m));
    var i := 0;
    while i < |m|
      invariant 0 <= i <= |m| && |ts| == i && Shows(out, ts)
      invariant plain ==> Meant(m, ts)
    {
      var item;
      ghost var u;
      item, u := EncodeItem(m, i);
      if plain { PlainItem(m, i); }
      out, ts := out + [item], ts + [u];
      i := i + 1;
    }
  }

  method EncodeList(m: Entries) returns (text: bytes, ghost t: Text)
    requires Proper(Table(m)) && |m| > 0 && Num(|m|) in m
    ensures Ok(t) && !Cut(t) && Written(t) && text == Put(t, [])
    ensures Plain(Table(m)) ==> Meaning(t) == Table(m)
    decreases Table(m), 2
  {
    var out;
    ghost var ts;
    out, ts := EncodeItems(m);
    ItemsShow(out, ts);
    t := List(ItemsOf(ts));
    ItemsAreWhole(ItemsOf(ts));
    Regroup([OPEN_LIST], Concat(out), [CLOSE_LIST]);
    text := [OPEN_LIST] + Concat(out) + [CLOSE_LIST];
    if Plain(Table(m)) {
      PlainItem(m, 0);
      ListMeans(m, ts);
    }
  }

  lemma ListMeans(m: Entries, ts: seq<Text>)
    requires Proper(Table(m)) && IsList(m) && ts != [] && |ts| == |m|
    requires forall i :: 0 <= i < |ts| ==> Ok(ts[i]) && !Cut(ts[i])
    requires Meant(m, ts)
    ensures ItemsOk(ItemsOf(ts)) && ListOf(ItemValues(ItemsOf(ts))) == m
  {
    ItemsMean(ts);
    var a := ItemValues(ItemsOf(ts));
    assert forall j :: 0 <= j < |a| ==> a[j] == Meaning(ts[j]);
    ListIs(m, a);
  }

  lemma ListIs(m: Entries, a: seq<Value>)
    requires IsList(m) && |a| == |m|
    requires forall j :: 0 <= j < |a| ==> Num(j + 1) in m && a[j] == m[Num(j + 1)]
    ensures ListOf(a) == m
  {
    ListOfKeys(a);
    forall k | k in m ensures ListOf(a)[k] == m[k] {
      assert k in Indices(|m|);
      assert a[k.n - 1] == m[Num(k.n - 1 + 1)];
    }
  }

  method EncodePair(k: Key, v: Value) returns (text: bytes, ghost p: Pair)
    requires Proper(v)
    ensures Ok(p.text) && !Cut(p.text) && Written(p.text) && text == ShowPair(p)
    ensures (k.Name? ==> p.name == k.s) && (Meaning(p.text) == v <==> Plain(v))
    decreases v, 5
  {
    var name := if k.Num? then ToString(k.n) else k.s;
    var quoted := EncodeString(name);
    var item;
    ghost var u;
    item, u := Encode(v);
    text, p := quoted + [COLON] + item, Pair(name, u);
  }

  lemma StoredGrows(ps: seq<Pair>, p: Pair)
    requires (forall q :: q in ps ==> Ok(q.text) && !Cut(q.text)) && Ok(p.text) && !Cut(p.text)
    ensures Stored(ps + [p]) == Set(Stored(ps), Name(p.name), Meaning(p.text))
  {
    assert (ps + [p])[..|ps|] == ps;
  }

  predicate Named(m: Entries) {
    forall k :: k in m ==> k.Name? && Plain(m[k])
  }

  lemma Taken(m: Entries, left: set<Key>, ps: seq<Pair>, k: Key, p: Pair)
    requires Proper(Table(m)) && Named(m) && k in left && left <= m.Keys
    requires (forall q :: q in ps ==> Ok(q.text) && !Cut(q.text)) && Ok(p.text) && !Cut(p.text)
    requires Stored(ps) == m - left && k == Name(p.name) && Meaning(p.text) == m[k]
    ensures Stored(ps + [p]) == m - (left - {k})
  {
    StoredGrows(ps, p);
  }

  /** The fields come in whatever order `pairs` gives. */
  method EncodePairs(m: Entries) returns (out: seq<bytes>, ghost ps: seq<Pair>)
    requires Proper(Table(m))
    ensures PairsShow(out, ps) && forall p :: p in ps ==> Ok(p.text) && !Cut(p.text)
    ensures Named(m) ==> Stored(ps) == m
    decreases Table(m), 0
  {
    out, ps := [], [];
    var left := m.Keys;
    ghost var named := Named(m);
    while left != {}
      invariant left <= m.Keys && PairsShow(out, ps)
      invariant forall p :: p in ps ==> Ok(p.text) && !Cut(p.text)
      invariant named ==> Stored(ps) == m - left
      decreases |left|
    {
      var k :| k in left;
      var item;
      ghost var p;
      item, p := EncodePair(k, m[k]);
      if named { Taken(m, left, ps, k, p); }
      out, ps := out + [item], ps + [p];
      left := left - {k};
    }
    assert m - {} == m;
  }

  method EncodeObject(m: Entries) returns (text: bytes, ghost t: Text)
    requires Proper(Table(m))
    ensures Ok(t) && !Cut(t) && Written(t) && text == Put(t, [])
    ensures Named(m) ==> Meaning(t) == Table(m)
    decreases Table(m), 1
  {
    var out;
    ghost var ps;
    out, ps := EncodePairs(m);
    text := [OPEN_OBJECT] + Concat(out) + [CLOSE_OBJECT];
    if ps == [] {
      t := EmptyObject([]);
    } else {
      t := Object(FieldsOfPairs(ps));
      FieldsShow(out, ps);
      FieldsAreWhole(FieldsOfPairs(ps));
      FieldsMean(ps, 0);
      assert ps[0..] == ps && ps[..0] == [];
    }
  }

  // ----- the round trip -----

  /** Decoding what the writer printed gives the value back exactly when it is plain. */
  method RoundTrip(v: Value) returns (w: Value)
    requires Proper(v)
    ensures w == v <==> Plain(v)
  {
    var text;
    ghost var t;
    text, t := Encode(v);
    Starts(t, []);
    assert [] + Put(t, []) == Put(t, []);
    w := Decode(text, [], t, []);
  }

  // ----- what is on the wire -----

  predicate Printable(s: bytes) { forall b :: b in s ==> !Control(b) }

  lemma {:induction false} PiecesArePrintable(ps: seq<Piece>, rest: bytes)
    requires StrictString(ps) && Printable(rest)
    ensures Printable(PutPieces(ps, rest))
  {
    if ps != [] {
      assert ps[0] in ps;
      PiecesArePrintable(ps[1..], rest);
    }
  }

  /** No control character is ever printed, inside a string or out of it. */
  lemma {:induction false} WrittenIsPrintable(t: Text, rest: bytes)
    requires Ok(t) && Written(t) && Printable(rest)
    ensures Printable(Put(t, rest))
    decreases t, 1
  {
    match t
    case Number(neg, ds) => assert forall d :: d in ds ==> IsDigit(d);
    case String(ps) => PiecesArePrintable(ps, [QUOTE] + rest);
    case List(items) => ItemsArePrintable(items, rest);
    case Object(fields) => FieldsArePrintable(fields, rest);
    case _ =>
  }

  lemma {:induction false} ItemsArePrintable(items: Items, rest: bytes)
    requires ItemsOk(items) && WrittenItems(items) && Printable(rest)
    ensures Printable(PutItems(items, rest)) && Printable(AfterItem(items, rest))
    decreases items, 0
  {
    if items.MoreItems? { ItemsArePrintable(items.more, rest); }
    WrittenIsPrintable(items.text, items.after + AfterItem(items, rest));
  }

  lemma {:induction false} FieldsArePrintable(f: Fields, rest: bytes)
    requires FieldsOk(f) && WrittenFields(f) && Printable(rest)
    ensures Printable(PutFields(f, rest)) && Printable(AfterField(f, rest))
    decreases f, 0
  {
    if f.MoreFields? { FieldsArePrintable(f.more, rest); }
    WrittenIsPrintable(f.text, f.after + AfterField(f, rest));
    var tail := f.before + Put(f.text, f.after + AfterField(f, rest));
    PiecesArePrintable(f.head.name, [QUOTE] + (f.head.after + ([f.head.colon] + tail)));
  }
}
