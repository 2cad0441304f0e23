/**
 * JSON texts as the reactor's codec reads them, and the Lua values they denote.
 * A `Text` keeps everything the characters fix: white space, the spelling of
 * every escape, the order of fields, and the bytes the reader passes without a
 * look: the one in a colon's place and the one that ends a list or an object,
 * which is none when the text ends there.
 * Numbers are integers of 64 bits.
 */
module JsonText {
  import opened Decimals
  import opened LittleEndian

  const QUOTE: byte := 34
  const BACKSLASH: byte := 92
  const COMMA: byte := 44
  const COLON: byte := 58
  const MINUS: byte := 45
  const PLUS: byte := 43
  const LOWER_U: byte := 117
  const OPEN_LIST: byte := 91
  const CLOSE_LIST: byte := 93
  const OPEN_OBJECT: byte := 123
  const CLOSE_OBJECT: byte := 125
  const NULL: bytes := [110, 117, 108, 108]
  const TRUE: bytes := [116, 114, 117, 101]
  const FALSE: bytes := [102, 97, 108, 115, 101]
  const TWO_63 := 0x8000_0000_0000_0000

  // ----- Lua values -----

  datatype Key = Num(n: int) | Name(s: bytes)

  /** Lua has one table type. A table never holds nil: storing nil removes the key. */
  datatype Value = Nil | Bool(b: bool) | Int(n: int) | Str(s: bytes) | Table(m: map<Key, Value>)

  type Entries = map<Key, Value>

  predicate Proper(v: Value) {
    match v
    case Int(n) => -TWO_63 <= n < TWO_63
    case Table(m) => forall k :: k in m ==> !m[k].Nil? && Proper(m[k])
    case _ => true
  }

  /** `t[k] = v` */
  function Set(m: Entries, k: Key, v: Value): Entries {
    if v.Nil? then m - {k} else m[k := v]
  }

  /** The table that holds a at 1, 2, and so on. */
  function ListOf(a: seq<Value>): Entries {
    map k | k in Indices(|a|) :: a[k.n - 1]
  }

  function Indices(n: nat): (ks: set<Key>)
    ensures forall k :: k in ks <==> k.Num? && 1 <= k.n <= n
  {
    if n == 0 then {} else Indices(n - 1) + {Num(n)}
  }

  /** A table that is a list or has only string keys, and so all the way down. */
  predicate Plain(v: Value) {
    v.Table? ==>
      (IsList(v.m) || forall k :: k in v.m ==> k.Name?) && forall k :: k in v.m ==> Plain(v.m[k])
  }

  predicate IsList(m: Entries) {
    m.Keys == Indices(|m|)
  }

  // ----- strings -----

  /** `code` is what follows `\u`: the four bytes that are handed to `tonumber`. */
  datatype Piece = Raw(b: byte) | Short(e: byte) | Code(code: bytes)

  predicate IsHex(b: byte) { IsDigit(b) || 65 <= b <= 70 || 97 <= b <= 102 }

  predicate AllHex(ds: bytes) {
    forall d :: d in ds ==> IsHex(d)
  }

  function HexValue(b: byte): (v: nat)
    requires IsHex(b)
    ensures v < 16
  {
    if IsDigit(b) then b - 48 else if b <= 70 then b - 55 else b - 87
  }

  function HexSum(ds: bytes): (v: nat)
    requires AllHex(ds)
    ensures (|ds| <= 1 ==> v < 16) && (|ds| <= 2 ==> v < 256) && (|ds| <= 3 ==> v < 4096) && (|ds| <= 4 ==> v < 65536)
  {
    if ds == [] then 0 else
      var d := ds[|ds| - 1];
      assert d in ds;
      16 * HexSum(ds[..|ds| - 1]) + HexValue(d)
  }

  /** What `tonumber` takes for a blank. */
  predicate Blank(b: byte) { b == 32 || 9 <= b <= 13 }

  predicate AllBlank(g: bytes) {
    forall b :: b in g ==> Blank(b)
  }

  /** Where a run of bytes of one kind ends that starts at i. */
  function RunEnd(kind: byte -> bool, text: bytes, i: nat): (j: nat)
    requires i <= |text|
    ensures i <= j <= |text|
    decreases |text| - i
  {
    if i < |text| && kind(text[i]) then RunEnd(kind, text, i + 1) else i
  }

  predicate IsSign(b: byte) { b == MINUS || b == PLUS }

  datatype Numeral = Numeral(n: int) | NoNumeral

  /** `tonumber(text, 16)`: blanks, a sign perhaps, digits, blanks, and nothing else; otherwise nil. */
  function ToNumber16(text: bytes): Numeral {
    var a := RunEnd(Blank, text, 0);
    var b := if a < |text| && IsSign(text[a]) then a + 1 else a;
    var d := RunEnd(IsHex, text, b);
    if d == b || RunEnd(Blank, text, d) < |text| then NoNumeral
    else
      RunIs(IsHex, text, b);
      Numeral(Signed(text[a] == MINUS, HexSum(text[b..d])))
  }

  lemma {:induction false} RunIs(kind: byte -> bool, text: bytes, i: nat)
    requires i <= |text|
    ensures var j := RunEnd(kind, text, i);
      (forall b :: b in text[i..j] ==> kind(b)) && (j < |text| ==> !kind(text[j]))
    decreases |text| - i
  {
    if i < |text| && kind(text[i]) {
      RunIs(kind, text, i + 1);
      assert text[i..RunEnd(kind, text, i)] == [text[i]] + text[i + 1..RunEnd(kind, text, i + 1)];
    }
  }

  /** What the text must be made of for its number to be n. */
  predicate Spelled(text: bytes, before: bytes, sign: bytes, ds: bytes, after: bytes, n: int) {
    && text == before + sign + ds + after
    && AllBlank(before) && AllBlank(after) && ds != [] && AllHex(ds)
    && sign in [[], [MINUS], [PLUS]] && n == Signed(sign == [MINUS], HexSum(ds))
  }

  lemma {:induction false} RunSplits(kind: byte -> bool, text: bytes, i: nat, j: nat)
    requires i <= j <= |text| && (forall k :: i <= k < j ==> kind(text[k])) && (j < |text| ==> !kind(text[j]))
    ensures RunEnd(kind, text, i) == j
    decreases j - i
  {
    if i < j { RunSplits(kind, text, i + 1, j); }
  }

  /** A text of four parts, each found by its place. */
  lemma FourParts(text: bytes, before: bytes, sign: bytes, ds: bytes, after: bytes)
    requires text == before + sign + ds + after
    ensures var a, b, d := |before|, |before + sign|, |before + sign + ds|;
      && a <= b <= d <= |text|
      && text[..a] == before && text[a..b] == sign && text[b..d] == ds && text[d..] == after
  {
  }

  lemma NumeralAt(text: bytes, a: nat, b: nat, d: nat)
    requires a <= b < d <= |text| && b <= a + 1 && (b > a ==> IsSign(text[a]))
    requires forall k :: 0 <= k < a || d <= k < |text| ==> Blank(text[k])
    requires forall k :: b <= k < d ==> IsHex(text[k])
    ensures ToNumber16(text) == Numeral(Signed(text[a] == MINUS, HexSum(text[b..d])))
  {
    RunSplits(Blank, text, 0, a);
    RunSplits(IsHex, text, b, d);
    RunSplits(Blank, text, d, |text|);
  }

  lemma PartsAt(text: bytes, before: bytes, sign: bytes, ds: bytes, after: bytes)
    requires text == before + sign + ds + after
    ensures var a, b, d := |before|, |before + sign|, |before + sign + ds|;
      && (forall k :: 0 <= k < a ==> text[k] in before)
      && (forall k :: a <= k < b ==> text[k] == sign[k - a])
      && (forall k :: b <= k < d ==> text[k] in ds)
      && (forall k :: d <= k < |text| ==> text[k] in after)
      && (ds != [] ==> text[b] == ds[0])
  {
  }

  lemma NumeralIs(text: bytes, before: bytes, sign: bytes, ds: bytes, after: bytes, n: int)
    requires Spelled(text, before, sign, ds, after, n)
    ensures ToNumber16(text) == Numeral(n)
  {
    var a, b, d := |before|, |before + sign|, |before + sign + ds|;
    FourParts(text, before, sign, ds, after);
    PartsAt(text, before, sign, ds, after);
    assert ds[0] in ds;
    NumeralAt(text, a, b, d);
  }

  lemma CutInFour(text: bytes, a: nat, b: nat, d: nat)
    requires a <= b <= d <= |text|
    ensures text == text[..a] + text[a..b] + text[b..d] + text[d..]
  {
  }

  /** The places a number was read at. */
  lemma NumeralPlaces(text: bytes) returns (a: nat, b: nat, d: nat)
    requires ToNumber16(text).Numeral?
    ensures a <= b < d <= |text| && b <= a + 1 && (b > a <==> IsSign(text[a]))
    ensures AllBlank(text[0..a]) && AllHex(text[b..d]) && AllBlank(text[d..|text|])
    ensures ToNumber16(text).n == Signed(text[a] == MINUS, HexSum(text[b..d]))
  {
    a := RunEnd(Blank, text, 0);
    b := if a < |text| && IsSign(text[a]) then a + 1 else a;
    d := RunEnd(IsHex, text, b);
    RunIs(Blank, text, 0);
    RunIs(IsHex, text, b);
    RunIs(Blank, text, d);
  }

  lemma NumeralParts(text: bytes) returns (before: bytes, sign: bytes, ds: bytes, after: bytes)
    requires ToNumber16(text).Numeral?
    ensures Spelled(text, before, sign, ds, after, ToNumber16(text).n)
  {
    var a, b, d := NumeralPlaces(text);
    before, sign, ds, after := text[..a], text[a..b], text[b..d], text[d..];
    CutInFour(text, a, b, d);
    assert text[0..a] == before && text[d..|text|] == after;
    assert sign == if b > a then [text[a]] else [];
  }

  /** The number is n exactly when the text is spelled so. */
  lemma NumeralExactly(text: bytes, n: int)
    ensures ToNumber16(text) == Numeral(n)
       <==> exists before, sign, ds, after :: Spelled(text, before, sign, ds, after, n)
  {
    if before, sign, ds, after :| Spelled(text, before, sign, ds, after, n) {
      NumeralIs(text, before, sign, ds, after, n);
    } else if ToNumber16(text) == Numeral(n) {
      var before, sign, ds, after := NumeralParts(text);
    }
  }

  /** What `utf8.char` takes: a number, and one that is not negative. */
  predicate IsCode(text: bytes) {
    ToNumber16(text).Numeral? && ToNumber16(text).n >= 0
  }

  function CodeOf(text: bytes): (c: nat)
    requires IsCode(text)
    ensures |text| <= 4 ==> c < 65536
  {
    ToNumber16(text).n
  }

  predicate PieceOk(p: Piece) {
    match p
    case Raw(b) => b != QUOTE && b != BACKSLASH
    case Short(e) => e != LOWER_U
    case Code(code) => |code| == 4 && IsCode(code)
  }

  function ShowPiece(p: Piece): bytes {
    match p
    case Raw(b) => [b]
    case Short(e) => [BACKSLASH, e]
    case Code(code) => [BACKSLASH, LOWER_U] + code
  }

  function Unescaped(e: byte): byte {
    if e == 110 then 10 else if e == 116 then 9 else if e == 114 then 13
    else if e == 98 then 8 else if e == 102 then 12 else e
  }

  /** `utf8.char` below 65536 (surrogates are encoded like any other code). */
  function Utf8(c: nat): bytes
    requires c < 65536
  {
    if c < 128 then [c]
    else if c < 2048 then [192 + c / 64, 128 + c % 64]
    else [224 + c / 4096, 128 + c / 64 % 64, 128 + c % 64]
  }

  // The ranges of section 3 of RFC 3629, for codes below 65536.

  predicate IsTail(b: byte) { 0x80 <= b <= 0xBF }

  datatype Char = Char(code: nat, rest: bytes) | NoChar

  /** The first character of a UTF-8 text: a lead byte says how many tails follow, and each tail brings six bits. No
      code is spelled longer than it need be; surrogates are let through. */
  function FirstChar(s: bytes): Char {
    if s == [] then NoChar
    else if s[0] <= 0x7F then Char(s[0], s[1..])
    else if 0xC2 <= s[0] <= 0xDF && |s| >= 2 && IsTail(s[1]) then Char(Joined(s[0] - 0xC0, s[1]), s[2..])
    else if 0xE0 <= s[0] <= 0xEF && |s| >= 3 && IsTail(s[1]) && IsTail(s[2]) && (s[0] == 0xE0 ==> s[1] >= 0xA0) then
      Char(Joined(Joined(s[0] - 0xE0, s[1]), s[2]), s[3..])
    else NoChar
  }

  function Joined(bits: nat, tail: byte): nat
    requires IsTail(tail)
  {
    bits * 64 + (tail - 0x80)
  }

  /** What `utf8.char` writes is read as that code and nothing else, whatever follows, in one byte below 128, two below
      2048, and three above. */
  lemma Utf8Reads(c: nat, rest: bytes)
    requires c < 65536
    ensures FirstChar(Utf8(c) + rest) == Char(c, rest)
    ensures |Utf8(c)| == if c < 0x80 then 1 else if c < 0x800 then 2 else 3
  {
    var s := Utf8(c) + rest;
    assert s[|Utf8(c)|..] == rest;
    if 2048 <= c {
      assert c == c / 4096 * 4096 + c / 64 % 64 * 64 + c % 64;
    } else if 128 <= c {
      assert c == c / 64 * 64 + c % 64;
    }
  }

  /** The letters that section 7 of RFC 8259 gives a meaning of their own, and what they mean; the reader takes any
      other byte behind a backslash for itself. */
  const LETTERS: string := "bfnrt"
  const CONTROLS: bytes := [0x08, 0x0C, 0x0A, 0x0D, 0x09]

  lemma EscapedLetters(e: byte, i: nat)
    ensures i < |LETTERS| && e == LETTERS[i] as int ==> Unescaped(e) == CONTROLS[i]
    ensures (forall j :: 0 <= j < |LETTERS| ==> e != LETTERS[j] as int) ==> Unescaped(e) == e
  {
    assert LETTERS[0] == 'b' && LETTERS[1] == 'f' && LETTERS[2] == 'n' && LETTERS[3] == 'r' && LETTERS[4] == 't';
  }

  function PieceValue(p: Piece): bytes
    requires PieceOk(p)
  {
    match p
    case Raw(b) => [b]
    case Short(e) => [Unescaped(e)]
    case Code(code) => Utf8(CodeOf(code))
  }

  predicate PiecesOk(ps: seq<Piece>) {
    forall p :: p in ps ==> PieceOk(p)
  }

  function StringValue(ps: seq<Piece>): bytes
    requires PiecesOk(ps)
  {
    if ps == [] then [] else PieceValue(ps[0]) + StringValue(ps[1..])
  }

  function PutPieces(ps: seq<Piece>, rest: bytes): bytes {
    if ps == [] then rest else ShowPiece(ps[0]) + PutPieces(ps[1..], rest)
  }

  function PutString(ps: seq<Piece>, rest: bytes): bytes {
    [QUOTE] + PutPieces(ps, [QUOTE] + rest)
  }

  // ----- numbers -----

  function NumberText(neg: bool, ds: bytes): bytes {
    if neg then [MINUS] + ds else ds
  }

  function Signed(neg: bool, n: nat): int {
    if neg then 0 - n else n
  }

  /** The bytes the reader's number pattern could take next. */
  predicate InNumber(b: byte) {
    IsDigit(b) || b == PLUS || b == MINUS || b == 46 || b == 69 || b == 101
  }

  // ----- texts -----

  datatype Text =
    | Null
    | Truth(b: bool)
    | Number(neg: bool, digits: bytes)
    | String(pieces: seq<Piece>)
    | EmptyList(gap: bytes)
    | List(items: Items)
    | EmptyObject(gap: bytes)
    | Object(fields: Fields)

  datatype Items =
    | LastItem(before: bytes, text: Text, after: bytes, close: bytes)
    | MoreItems(before: bytes, text: Text, after: bytes, more: Items)

  datatype Head = Head(before: bytes, name: seq<Piece>, after: bytes, colon: byte)

  datatype Fields =
    | LastField(head: Head, before: bytes, text: Text, after: bytes, close: bytes)
    | MoreFields(head: Head, before: bytes, text: Text, after: bytes, more: Fields)

  predicate IsSpace(b: byte) { b == 32 || b == 9 || b == 13 || b == 10 }

  predicate Gap(g: bytes) {
    forall b :: b in g ==> IsSpace(b)
  }

  predicate Ok(t: Text) {
    match t
    case Number(neg, ds) => ds != [] && AllDigits(ds) && -TWO_63 <= Signed(neg, DecimalValue(ds)) < TWO_63
    case String(ps) => PiecesOk(ps)
    case EmptyList(g) => Gap(g)
    case List(items) => ItemsOk(items)
    case EmptyObject(g) => Gap(g)
    case Object(fields) => FieldsOk(fields)
    case _ => true
  }

  /** The text ends where this list or object would. */
  predicate Cut(t: Text) {
    (t.List? && ItemsCut(t.items)) || (t.Object? && FieldsCut(t.fields))
  }

  predicate ItemsCut(items: Items) {
    if items.LastItem? then items.close == [] else ItemsCut(items.more)
  }

  predicate FieldsCut(fields: Fields) {
    if fields.LastField? then fields.close == [] else FieldsCut(fields.more)
  }

  /** A byte that ends a list or an object after `t`, anything but a comma or what `t` and the gap take; or none. */
  predicate Ending(t: Text, after: bytes, close: bytes) {
    || close == []
    || (|close| == 1 && close[0] != COMMA && !IsSpace(close[0]) && (t.Number? && after == [] ==> !InNumber(close[0])))
  }

  /** Only the whole text may be cut short: inside another one the reader looks for white space past the end. */
  predicate ItemsOk(items: Items) {
    && Gap(items.before) && Ok(items.text) && !Cut(items.text) && Gap(items.after)
    && (items.MoreItems? ==> ItemsOk(items.more))
    && (items.LastItem? ==> Ending(items.text, items.after, items.close))
  }

  predicate HeadOk(h: Head) {
    Gap(h.before) && PiecesOk(h.name) && Gap(h.after) && !IsSpace(h.colon)
  }

  predicate FieldsOk(fields: Fields) {
    && HeadOk(fields.head) && Gap(fields.before) && Ok(fields.text) && !Cut(fields.text) && Gap(fields.after)
    && (fields.MoreFields? ==> FieldsOk(fields.more))
    && (fields.LastField? ==> Ending(fields.text, fields.after, fields.close))
  }

  /** The characters of t, followed by rest. */
  function Put(t: Text, rest: bytes): bytes {
    match t
    case Null => NULL + rest
    case Truth(b) => (if b then TRUE else FALSE) + rest
    case Number(neg, ds) => NumberText(neg, ds) + rest
    case String(ps) => PutString(ps, rest)
    case EmptyList(g) => [OPEN_LIST] + (g + ([CLOSE_LIST] + rest))
    case List(items) => [OPEN_LIST] + PutItems(items, rest)
    case EmptyObject(g) => [OPEN_OBJECT] + (g + ([CLOSE_OBJECT] + rest))
    case Object(fields) => [OPEN_OBJECT] + PutFields(fields, rest)
  }

  function PutItems(items: Items, rest: bytes): bytes
    decreases items, 1
  {
    items.before + Put(items.text, items.after + AfterItem(items, rest))
  }

  function AfterItem(items: Items, rest: bytes): bytes
    decreases items, 0
  {
    if items.LastItem? then items.close + rest else [COMMA] + PutItems(items.more, rest)
  }

  function PutHead(h: Head, rest: bytes): bytes {
    h.before + PutString(h.name, h.after + ([h.colon] + rest))
  }

  function PutFields(fields: Fields, rest: bytes): bytes
    decreases fields, 1
  {
    PutHead(fields.head, fields.before + Put(fields.text, fields.after + AfterField(fields, rest)))
  }

  function AfterField(fields: Fields, rest: bytes): bytes
    decreases fields, 0
  {
    if fields.LastField? then fields.close + rest else [COMMA] + PutFields(fields.more, rest)
  }

  function Size(t: Text): nat {
    match t
    case List(items) => 1 + ItemsSize(items)
    case Object(fields) => 1 + FieldsSize(fields)
    case _ => 1
  }

  function ItemsSize(items: Items): nat {
    Size(items.text) + 1 + if items.LastItem? then 0 else ItemsSize(items.more)
  }

  function FieldsSize(fields: Fields): nat {
    Size(fields.text) + 2 + if fields.LastField? then 0 else FieldsSize(fields.more)
  }

  // ----- what a text denotes -----

  function Meaning(t: Text): Value
    requires Ok(t)
  {
    match t
    case Null => Nil
    case Truth(b) => Bool(b)
    case Number(neg, ds) => Int(Signed(neg, DecimalValue(ds)))
    case String(ps) => Str(StringValue(ps))
    case EmptyList(_) => Table(map[])
    case List(items) => Table(ListOf(ItemValues(items)))
    case EmptyObject(_) => Table(map[])
    case Object(fields) => Table(FieldValues(fields, map[]))
  }

  /** Nulls in a list are dropped: the reader stores nil one past the end, which stores nothing. */
  function ItemValues(items: Items): seq<Value>
    requires ItemsOk(items)
  {
    var v := Meaning(items.text);
    (if v.Nil? then [] else [v]) + if items.LastItem? then [] else ItemValues(items.more)
  }

  /** The fields stored one by one into o: a later one wins, and null removes. */
  function FieldValues(fields: Fields, o: Entries): Entries
    requires FieldsOk(fields)
  {
    var now := Set(o, Name(StringValue(fields.head.name)), Meaning(fields.text));
    if fields.LastField? then now else FieldValues(fields.more, now)
  }

  // ----- every denotation is plain and proper -----

  lemma IndicesCount(n: nat)
    ensures |Indices(n)| == n
  {
    if n > 0 {
      IndicesCount(n - 1);
      assert Num(n) !in Indices(n - 1);
    }
  }

  lemma ListOfKeys(a: seq<Value>)
    ensures ListOf(a).Keys == Indices(|a|) && |ListOf(a)| == |a|
  {
    assert ListOf(a).Keys == Indices(|a|);
    IndicesCount(|a|);
    assert |ListOf(a)| == |ListOf(a).Keys|;
  }

  /** Reading never makes a mixed table: what comes back is plain, and holds no nil. */
  lemma {:induction false} MeaningIsPlain(t: Text)
    requires Ok(t)
    ensures Plain(Meaning(t)) && Proper(Meaning(t))
    decreases t
  {
    match t
    case List(items) =>
      ItemValuesArePlain(items);
      ListOfKeys(ItemValues(items));
    case Object(fields) => FieldValuesArePlain(fields, map[]);
    case _ =>
  }

  lemma {:induction false} ItemValuesArePlain(items: Items)
    requires ItemsOk(items)
    ensures forall v :: v in ItemValues(items) ==> Plain(v) && Proper(v) && !v.Nil?
    decreases items
  {
    MeaningIsPlain(items.text);
    if items.MoreItems? { ItemValuesArePlain(items.more); }
  }

  predicate GoodFields(o: Entries) {
    forall k :: k in o ==> k.Name? && Plain(o[k]) && Proper(o[k]) && !o[k].Nil?
  }

  lemma {:induction false} FieldValuesArePlain(fields: Fields, o: Entries)
    requires FieldsOk(fields) && GoodFields(o)
    ensures GoodFields(FieldValues(fields, o))
    decreases fields
  {
    MeaningIsPlain(fields.text);
    if fields.MoreFields? {
      FieldValuesArePlain(fields.more, Set(o, Name(StringValue(fields.head.name)), Meaning(fields.text)));
    }
  }

  // ----- the bytes the source writes as characters -----

  predicate OneOf(b: byte, chars: string) {
    exists i :: 0 <= i < |chars| && chars[i] as int == b
  }

  /** White space as the reader's pattern lists it, blanks as the C library does, and the digits. */
  lemma Alphabet(b: byte)
    ensures IsSpace(b) <==> OneOf(b, " \t\r\n")
    ensures Blank(b) <==> OneOf(b, " \t\r\n\U{000b}\U{000c}")
    ensures IsDigit(b) <==> OneOf(b, "0123456789")
  {
    var spaces, blanks, digits := " \t\r\n", " \t\r\n\U{000b}\U{000c}", "0123456789";
    if IsSpace(b) { assert spaces[if b == 32 then 0 else if b == 9 then 1 else if b == 13 then 2 else 3] as int == b; }
    if Blank(b) {
      assert blanks[if b == 32 then 0 else if b == 9 then 1 else if b == 13 then 2 else if b == 10 then 3
                    else if b == 11 then 4 else 5] as int == b;
    }
    if IsDigit(b) { assert digits[b - 48] as int == b; }
  }

  /** The sixteen digits, in either case, worth what comes before them. */
  lemma HexLetters(v: nat)
    requires v < 16
    ensures var lower, upper := "0123456789abcdef"[v] as int, "0123456789ABCDEF"[v] as int;
      IsHex(lower) && HexValue(lower) == v && IsHex(upper) && HexValue(upper) == v
  {
    assert "0123456789abcdef"[v] as int == if v < 10 then 48 + v else 87 + v;
    assert "0123456789ABCDEF"[v] as int == if v < 10 then 48 + v else 55 + v;
  }

  lemma OnlyHexLetters(b: byte)
    requires IsHex(b)
    ensures "0123456789abcdef"[HexValue(b)] as int == b || "0123456789ABCDEF"[HexValue(b)] as int == b
  {
    var v := HexValue(b);
    assert "0123456789abcdef"[v] as int == if v < 10 then 48 + v else 87 + v;
    assert "0123456789ABCDEF"[v] as int == if v < 10 then 48 + v else 55 + v;
  }

  /** The fixed bytes and words of the grammar. */
  lemma Marks()
    ensures [QUOTE as char, BACKSLASH as char, COMMA as char, COLON as char, MINUS as char, PLUS as char] == "\"\\,:-+"
    ensures [OPEN_LIST as char, CLOSE_LIST as char, OPEN_OBJECT as char, CLOSE_OBJECT as char] == "[]{}"
    ensures LOWER_U as char == 'u'
    ensures Spelt(NULL, "null") && Spelt(TRUE, "true") && Spelt(FALSE, "false")
  {
  }

  predicate Spelt(b: bytes, word: string) {
    |b| == |word| && forall i :: 0 <= i < |b| ==> b[i] == word[i] as int
  }
}
