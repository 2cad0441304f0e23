/** Loads, stores and bulk operations, as the memory's code performs them on its arrays. */
module MemoryCode {
  import opened LittleEndian
  import opened Words
  import opened Integers
  import opened PagedMemory
  import opened MemorySteps
  import opened FlatMemory
  import opened MemoryArrays

  /** How an operation ends: done, out of bounds, or refused by the page budget. */
  datatype Answer = Done | Trap | Exhausted

  datatype Loaded<T> = Value(v: T) | OutOfBounds

  predicate Fits(m: Mem, a: nat, n: nat) { a + n <= 65536 * m.pages }

  // ----- what an operation did -----

  /** Word `i` became `w`, and no other word changed. */
  ghost predicate SetWord(before: Mem, after: Mem, i: nat, w: Word) {
    && Stays(before, after) && after.pages == before.pages && i < 8192 * before.pages
    && forall j: nat :: j < 8192 * before.pages ==> WordOf(after, j) == if j == i then w else WordOf(before, j)
  }

  /** The bytes from `a` on became `b`, and no other byte changed. */
  ghost predicate Wrote(before: Mem, after: Mem, a: nat, b: bytes) {
    && Stays(before, after) && after.pages == before.pages && Fits(before, a, |b|)
    && Bytes(after) == Splice(Bytes(before), a, b)
  }

  /** A word write is a write of the bytes in which the new word differs. */
  lemma SetIsWrote(before: Mem, after: Mem, i: nat, w: Word, off: nat, b: bytes)
    requires SetWord(before, after, i, w) && Replaces(w, WordOf(before, i), off, b)
    ensures Wrote(before, after, 8 * i + off, b)
  {
    var a := 8 * i + off;
    var flat := Splice(Bytes(before), a, b);
    forall x: nat | x < 65536 * before.pages ensures Bytes(after)[x] == flat[x] {
      ByteOfBytes(before, x);
      ByteOfBytes(after, x);
      if x / 8 == i {
        assert x == 8 * i + x % 8;
      }
    }
    assert Bytes(after) == flat;
  }

  lemma WroteThen(m0: Mem, m1: Mem, m2: Mem, a: nat, b: bytes, c: bytes)
    requires Wrote(m0, m1, a, b) && Wrote(m1, m2, a + |b|, c)
    ensures Wrote(m0, m2, a, b + c)
  {
    StaysOn(m0, m1, m2);
    SpliceTwice(Bytes(m0), a, b, c);
  }

  lemma SilentThenWrote(m0: Mem, m1: Mem, m2: Mem, a: nat, b: bytes)
    requires Silent(m0, m1) && Wrote(m1, m2, a, b)
    ensures Wrote(m0, m2, a, b)
  {
    StaysOn(m0, m1, m2);
    SilentBytes(m0, m1);
  }

  lemma SilentThenSet(m0: Mem, m1: Mem, m2: Mem, i: nat, w: Word)
    requires Silent(m0, m1) && SetWord(m1, m2, i, w)
    ensures SetWord(m0, m2, i, w)
  {
    StaysOn(m0, m1, m2);
  }

  // ----- words -----

  function ReadWord(mem: Memory, i: nat): (w: Word)
    requires mem.Linked() && Valid(mem.model) && i < 8192 * mem.pages
    reads mem, mem.Arrays()
    ensures w == WordOf(mem.model, i)
  {
    Placed(mem.model, i);
    if i < 8192 * |mem.img| then
      var e := mem.tab[i / 512];
      if e == 0 then ImageWord(mem.img, i) else mem.Get(Arena(ChunkIn(e) - 1), IndexIn(e) * 512 + i % 512)
    else
      mem.Get(Chunk(ChunkAt(mem.shift, i)), IndexAt(mem.shift, i))
  }

  /** The page of word `i` is made private, which the budget can refuse. */
  method MakePrivate(mem: Memory, i: nat) returns (ok: bool)
    requires mem.Ok() && i < 8192 * mem.pages
    modifies mem`model, mem`arena, mem`budget, mem.Arrays()
    ensures mem.Ok() && fresh(mem.Arrays() - old(mem.Arrays())) && Silent(old(mem.model), mem.model)
    ensures ok ==> PlaceOf(mem.model, i).At?
    ensures !ok ==> Refused(mem.model, mem.budget)
    ensures PlaceOf(old(mem.model), i).At? ==> ok
    ensures OthersStay(old(mem.model), mem.model, 8 * i, 8)
  {
    NoChangeIsSilent(mem.model);
    ok := true;
    if i < 8192 * |mem.img| {
      var e := mem.EnsurePrivate(i / 512);
      ok := e != 0;
    }
  }

  /** Memory with word `i` changed where it is. */
  function SetIn(m: Mem, i: nat, w: Word): Mem
    requires Valid(m) && i < 8192 * m.pages && PlaceOf(m, i).At?
  {
    Placed(m, i);
    Put(m, PlaceOf(m, i).ref, PlaceOf(m, i).index, w)
  }

  /** `put_word`, the page already private. */
  method SetAt(mem: Memory, i: nat, w: Word)
    requires mem.Linked() && Valid(mem.model) && i < 8192 * mem.pages && PlaceOf(mem.model, i).At?
    modifies mem`model, mem.Arrays()
    ensures mem.Linked() && mem.model == SetIn(old(mem.model), i, w) && mem.Arrays() == old(mem.Arrays())
    ensures mem.model.tab == old(mem.model).tab
  {
    Placed(mem.model, i);
    if i < 8192 * |mem.img| {
      var e := mem.tab[i / 512];
      mem.PutAt(Arena(ChunkIn(e) - 1), IndexIn(e) * 512 + i % 512, w);
    } else {
      mem.PutAt(Chunk(ChunkAt(mem.shift, i)), IndexAt(mem.shift, i), w);
    }
  }

  lemma SetInIs(m: Mem, i: nat, w: Word)
    requires Sound(m) && i < 8192 * m.pages && PlaceOf(m, i).At?
    ensures Sound(SetIn(m, i, w)) && SetWord(m, SetIn(m, i, w), i, w)
  {
    Placed(m, i);
    PutWord(m, i, w);
    PutKeepsZeros(m, i, w);
  }

  // ----- preparing a write -----

  /** The pages no byte of the range is in are the image's or in the slots they were in. */
  ghost predicate OthersStay(before: Mem, after: Mem, a: nat, n: nat) {
    && |after.tab| == |before.tab|
    && forall q :: 0 <= q < |before.tab| && Outside(q, a, n) ==> after.tab[q] == before.tab[q]
  }

  predicate Outside(q: nat, a: nat, n: nat) { 4096 * q + 4096 <= a || a + n <= 4096 * q }

  /** No byte of the range is the image's any more. */
  ghost predicate AllPrivate(m: Mem, a: nat, n: nat)
    requires Valid(m) && Fits(m, a, n)
  {
    forall x: nat :: a <= x < a + n ==> PlaceOf(m, x / 8).At?
  }

  /**
   * Every image page the range touches is made private before a byte changes.
   * Whatever the answer, nothing that can be read is different.
   */
  method Prepare(mem: Memory, a: nat, n: nat) returns (ok: bool)
    requires mem.Ok() && Fits(mem.model, a, n)
    modifies mem`model, mem`arena, mem`budget, mem.Arrays()
    ensures mem.Ok() && fresh(mem.Arrays() - old(mem.Arrays())) && Silent(old(mem.model), mem.model)
    ensures ok ==> AllPrivate(mem.model, a, n)
    ensures !ok ==> Refused(mem.model, mem.budget)
    ensures AllPrivate(old(mem.model), a, n) ==> ok
    ensures OthersStay(old(mem.model), mem.model, a, n)
  {
    ghost var before := mem.model;
    var size := 65536 * |mem.img|;
    if a >= size || n == 0 {
      NoChangeIsSilent(before);
      return true;
    }
    var last := ((if a + n <= size then a + n else size) - 1) / 4096;
    ok := PreparePages(mem, a / 4096, last);
    if ok {
      RangePrivate(mem.model, a, n, last);
    } else if AllPrivate(before, a, n) {
      RangePages(before, a, n, last);
    }
  }

  method PreparePages(mem: Memory, first: nat, last: nat) returns (ok: bool)
    requires mem.Ok() && last < 16 * |mem.img|
    modifies mem`model, mem`arena, mem`budget, mem.Arrays()
    ensures mem.Ok() && fresh(mem.Arrays() - old(mem.Arrays())) && Silent(old(mem.model), mem.model)
    ensures ok ==> forall q :: first <= q <= last ==> mem.model.tab[q] != 0
    ensures !ok ==> Refused(mem.model, mem.budget) && exists q :: first <= q <= last && old(mem.model).tab[q] == 0
    ensures forall q :: 0 <= q < 16 * |mem.img| && !(first <= q <= last) ==>
      mem.model.tab[q] == old(mem.model).tab[q]
    decreases last + 1 - first
  {
    if first > last {
      NoChangeIsSilent(mem.model);
      return true;
    }
    ghost var before := mem.model;
    var e := mem.EnsurePrivate(first);
    ghost var m := mem.model;
    if e == 0 {
      return false;
    }
    ok := PreparePages(mem, first + 1, last);
    SilentOn(before, m, mem.model);
  }

  lemma RangePrivate(m: Mem, a: nat, n: nat, last: nat)
    requires Valid(m) && Fits(m, a, n) && a < 65536 * |m.img| && n > 0
    requires last == ((if a + n <= 65536 * |m.img| then a + n else 65536 * |m.img|) - 1) / 4096 < |m.tab|
    requires forall q :: a / 4096 <= q <= last ==> m.tab[q] != 0
    ensures AllPrivate(m, a, n)
  {
    forall x: nat | a <= x < a + n ensures PlaceOf(m, x / 8).At? {
      if x < 65536 * |m.img| {
        assert a / 4096 <= x / 8 / 512 <= last;
      }
    }
  }

  lemma RangePages(m: Mem, a: nat, n: nat, last: nat)
    requires Valid(m) && Fits(m, a, n) && a < 65536 * |m.img| && n > 0
    requires last == ((if a + n <= 65536 * |m.img| then a + n else 65536 * |m.img|) - 1) / 4096 < |m.tab|
    requires AllPrivate(m, a, n)
    ensures forall q :: a / 4096 <= q <= last ==> m.tab[q] != 0
  {
    forall q | a / 4096 <= q <= last ensures m.tab[q] != 0 {
      var x := if q == a / 4096 then a else 4096 * q;
      assert PlaceOf(m, x / 8).At? && x / 8 / 512 == q;
    }
  }

  // ----- scalar accesses -----

  lemma WordIsLittle(w: Word, b: bytes)
    requires |b| == 8 && forall i :: 0 <= i < 8 ==> b[i] == ByteAt(w, i)
    ensures w == FromLE(b)
  {
    forall k: nat ensures Bit(w, k) == if k / 8 < 8 then Bit(b[k / 8], k % 8) else 0 {
      if k < 64 { ByteBit(w, k / 8, k % 8); } else { WordBits(w, k); }
    }
    IsLittle(w, b);
  }

  lemma AddressByte(m: Mem, i: nat, k: nat)
    requires Valid(m) && i < 8192 * m.pages && k < 8
    ensures Bytes(m)[8 * i + k] == ByteAt(WordOf(m, i), k)
  {
    Eighth(i, k);
    ByteOfBytes(m, 8 * i + k);
  }

  lemma Eighth(i: nat, k: nat)
    requires k < 8
    ensures (8 * i + k) / 8 == i && (8 * i + k) % 8 == k
  {
  }

  lemma ReadsWhole(m: Mem, i: nat)
    requires Valid(m) && i < 8192 * m.pages
    ensures WordOf(m, i) == FromLE(Bytes(m)[8 * i..8 * i + 8])
  {
    var b, w := Bytes(m)[8 * i..8 * i + 8], WordOf(m, i);
    forall k | 0 <= k < 8 ensures b[k] == ByteAt(w, k) {
      AddressByte(m, i, k);
    }
    WordIsLittle(w, b);
  }

  lemma ReadsOne(m: Mem, i: nat, off: nat, n: nat)
    requires Valid(m) && i < 8192 * m.pages && off + n <= 8
    ensures Extract(WordOf(m, i), 8 * off, 8 * n) == FromLE(Bytes(m)[8 * i + off..8 * i + off + n])
  {
    var b, w := Bytes(m)[8 * i + off..8 * i + off + n], WordOf(m, i);
    forall k | 0 <= k < n ensures b[k] == ByteAt(w, off + k) {
      AddressByte(m, i, off + k);
    }
    ExtractIsLittle(w, off, n, b);
  }

  lemma ReadsTwo(m: Mem, i: nat, off: nat, n: nat)
    requires Valid(m) && i + 1 < 8192 * m.pages && 0 < off < 8 < off + n && n <= 8
    ensures Join(WordOf(m, i), WordOf(m, i + 1), 8 * off, 8 * n) == FromLE(Bytes(m)[8 * i + off..8 * i + off + n])
  {
    var b := Bytes(m)[8 * i + off..8 * i + off + n];
    forall k: nat | k < n ensures b[k] == TwoWordByte(m, i, off + k) {
      AddressTwo(m, i, off + k);
    }
    JoinIsLittle(WordOf(m, i), WordOf(m, i + 1), off, n, b);
  }

  lemma AddressTwo(m: Mem, i: nat, k: nat)
    requires Valid(m) && i + 1 < 8192 * m.pages && k < 16
    ensures Bytes(m)[8 * i + k] == TwoWordByte(m, i, k)
  {
    if k < 8 { AddressIs(m, 8 * i + k, i, k); } else { AddressIs(m, 8 * i + k, i + 1, k - 8); }
  }

  lemma AddressIs(m: Mem, x: nat, i: nat, k: nat)
    requires Valid(m) && i < 8192 * m.pages && k < 8 && x == 8 * i + k
    ensures x < |Bytes(m)| && Bytes(m)[x] == ByteAt(WordOf(m, i), k)
  {
    AddressByte(m, i, k);
  }

  /** Byte `k` of two consecutive words. */
  function TwoWordByte(m: Mem, i: nat, k: nat): byte
    requires Valid(m) && i + 1 < 8192 * m.pages && k < 16
  {
    if k < 8 then ByteAt(WordOf(m, i), k) else ByteAt(WordOf(m, i + 1), k - 8)
  }

  /** The one or two words of an access exist. */
  predicate HasWords(m: Mem, a: nat, n: nat) {
    a / 8 < 8192 * m.pages && (a % 8 + n > 8 ==> a / 8 + 1 < 8192 * m.pages)
  }

  lemma FitsHasWords(m: Mem, a: nat, n: nat)
    requires 1 <= n <= 8 && Fits(m, a, n)
    ensures HasWords(m, a, n)
  {
  }

  /** What `read` computes, at byte `off` of word `i`, from the one or two words the access is in. */
  function ReadOf(m: Mem, i: nat, off: nat, n: nat): nat
    requires Valid(m) && 1 <= n <= 8 && off < 8 && i < 8192 * m.pages && (off + n > 8 ==> i + 1 < 8192 * m.pages)
  {
    var low := WordOf(m, i);
    if n == 8 && off == 0 then low
    else if off + n <= 8 then Extract(low, 8 * off, 8 * n)
    else Join(low, WordOf(m, i + 1), 8 * off, 8 * n)
  }

  lemma ReadIsLittle(m: Mem, i: nat, off: nat, n: nat)
    requires Valid(m) && 1 <= n <= 8 && off < 8 && i < 8192 * m.pages && (off + n > 8 ==> i + 1 < 8192 * m.pages)
    ensures ReadOf(m, i, off, n) == FromLE(Bytes(m)[8 * i + off..8 * i + off + n])
  {
    if n == 8 && off == 0 {
      ReadsWhole(m, i);
    } else if off + n <= 8 {
      ReadsOne(m, i, off, n);
    } else {
      ReadsTwo(m, i, off, n);
    }
  }

  lemma LoadIsLittle(m: Mem, a: nat, i: nat, off: nat, n: nat)
    requires Valid(m) && 1 <= n <= 8 && off < 8 && a == 8 * i + off && Fits(m, a, n)
    ensures HasWords(m, a, n) && i == a / 8 && off == a % 8
    ensures ReadOf(m, i, off, n) == FromLE(Bytes(m)[a..a + n])
  {
    FitsHasWords(m, a, n);
    ReadIsLittle(m, i, off, n);
  }

  function Read(mem: Memory, a: nat, n: nat): (v: nat)
    requires mem.Ok() && 1 <= n <= 8 && HasWords(mem.model, a, n)
    reads mem, mem.Arrays()
    ensures v == ReadOf(mem.model, a / 8, a % 8, n)
  {
    var low := ReadWord(mem, a / 8);
    if n == 8 && a % 8 == 0 then low
    else if a % 8 + n <= 8 then Extract(low, 8 * (a % 8), 8 * n)
    else
      var high := ReadWord(mem, a / 8 + 1);
      Join(low, high, 8 * (a % 8), 8 * n)
  }

  /** Bounds first, on the whole access; then the bytes, little-endian. */
  function Load(mem: Memory, a: nat, n: nat): (r: Loaded<nat>)
    requires mem.Ok() && 1 <= n <= 8
    reads mem, mem.Arrays()
    ensures r == LoadOf(mem.model, a, n)
  {
    if a + n > 65536 * mem.pages then OutOfBounds
    else
      LoadIsLittle(mem.model, a, a / 8, a % 8, n);
      Value(Read(mem, a, n))
  }

  /** The bytes of a flat memory as a little-endian number, if they are all there. */
  function LoadOf(m: Mem, a: nat, n: nat): Loaded<nat>
    requires Valid(m)
  {
    if Fits(m, a, n) then Value(FromLE(Bytes(m)[a..a + n])) else OutOfBounds
  }

  // ----- the word a store puts back -----

  /** `w` is `was` with the bytes from `off` on replaced by `b`. */
  ghost predicate Replaces(w: Word, was: Word, off: nat, b: bytes) {
    off + |b| <= 8
    && forall k: nat :: k < 8 ==> ByteAt(w, k) == if off <= k < off + |b| then b[k - off] else ByteAt(was, k)
  }

  /** An aligned eight-byte store replaces the word; a narrower one reads it and merges. */
  method FieldWord(was: Word, off: nat, n: nat, v: nat) returns (w: Word)
    requires 1 <= n && off + n <= 8
    ensures Replaces(w, was, off, LE(v, n))
  {
    if n == 8 {
      w := Stored(v);
      forall k: nat | k < 8 ensures ByteAt(w, k) == LE(v, 8)[k] { StoredByte(v, k); }
    } else {
      w := Stored(Replace(was, 8 * off, 8 * n, v));
      forall k: nat | k < 8 ensures ByteAt(w, k) == if off <= k < off + n then LE(v, n)[k - off] else ByteAt(was, k) {
        ReplacedByte(was, off, n, v, k);
      }
    }
  }

  lemma WholeValue(v: nat, n: nat)
    requires v < Two(8 * n)
    ensures ValueBytes(v, LE(v, n))
  {
    TwoIsMask(8 * n);
    forall k: nat | 8 * n <= k ensures Bit(v, k) == 0 {
      AboveWidth(v, 8 * n, k);
    }
  }

  /** The first word of a straddling store. */
  method LowWord(was: Word, off: nat, masked: nat, ghost b: bytes) returns (w: Word)
    requires 0 < off < 8 < off + |b| && |b| <= 8 && ValueBytes(masked, b)
    ensures Replaces(w, was, off, b[..8 - off])
  {
    w := Stored(PutLow(was, 8 * off, masked));
    forall k: nat | k < 8 ensures ByteAt(w, k) == if off <= k then b[..8 - off][k - off] else ByteAt(was, k) {
      LowPutByte(was, off, masked, k);
    }
  }

  /** The second: `taken` bytes are in the first. */
  method HighWord(was: Word, taken: nat, n: nat, masked: nat, ghost b: bytes, ghost high: bytes) returns (w: Word)
    requires taken < n == |b| <= 8 && ValueBytes(masked, b) && high == b[taken..]
    ensures Replaces(w, was, 0, high)
  {
    w := Stored(PutHigh(was, 8 * (n - taken), 8 * taken, masked));
    forall k: nat | k < 8 ensures ByteAt(w, k) == if k < n - taken then high[k] else ByteAt(was, k) {
      HighPutByte(was, n - taken, taken, masked, k);
    }
  }

  lemma TwoHalves(before: Mem, middle: Mem, after: Mem, i: nat, off: nat, b: bytes)
    requires off < 8 < off + |b|
    requires Wrote(before, middle, 8 * i + off, b[..8 - off]) && Wrote(middle, after, 8 * (i + 1), b[8 - off..])
    ensures Wrote(before, after, 8 * i + off, b)
  {
    WroteThen(before, middle, after, 8 * i + off, b[..8 - off], b[8 - off..]);
    assert b[..8 - off] + b[8 - off..] == b;
  }

  // ----- the stores themselves -----

  /** One word of a private page put back. Since `before` nothing has changed that can be read. */
  method PutBack(mem: Memory, i: nat, w: Word, ghost a: nat, ghost off: nat, ghost b: bytes, ghost before: Mem)
    requires a == 8 * i + off
    requires mem.Ok() && i < 8192 * mem.pages && PlaceOf(mem.model, i).At? && Silent(before, mem.model)
    requires Replaces(w, WordOf(before, i), off, b)
    modifies mem`model, mem.Arrays()
    ensures mem.Arrays() == old(mem.Arrays())
    ensures mem.Ok() && Wrote(before, mem.model, a, b) && mem.model.tab == old(mem.model).tab
    ensures i + 1 < 8192 * mem.pages && PlaceOf(old(mem.model), i + 1).At? ==> PlaceOf(mem.model, i + 1).At?
  {
    PutBackIs(before, mem.model, i, w, a, off, b);
    SetAt(mem, i, w);
  }

  lemma PutBackIs(before: Mem, m: Mem, i: nat, w: Word, a: nat, off: nat, b: bytes)
    requires a == 8 * i + off && Sound(m) && Silent(before, m)
    requires i < 8192 * m.pages && PlaceOf(m, i).At? && Replaces(w, WordOf(before, i), off, b)
    ensures Sound(SetIn(m, i, w)) && Wrote(before, SetIn(m, i, w), a, b)
    ensures i + 1 < 8192 * m.pages && PlaceOf(m, i + 1).At? ==> PlaceOf(SetIn(m, i, w), i + 1).At?
  {
    var after := SetIn(m, i, w);
    SetInIs(m, i, w);
    SilentThenSet(before, m, after, i, w);
    SetIsWrote(before, after, i, w, off, b);
  }

  /** `put_word`: the page made private first, if the budget allows. */
  method PutWhole(mem: Memory, i: nat, w: Word, ghost off: nat, ghost b: bytes) returns (ok: bool)
    requires mem.Ok() && i < 8192 * mem.pages && Replaces(w, WordOf(mem.model, i), off, b)
    modifies mem`model, mem`arena, mem`budget, mem.Arrays()
    ensures mem.Ok() && fresh(mem.Arrays() - old(mem.Arrays()))
    ensures ok ==> Wrote(old(mem.model), mem.model, 8 * i + off, b)
    ensures !ok ==> Silent(old(mem.model), mem.model) && Refused(mem.model, mem.budget)
    ensures PlaceOf(old(mem.model), i).At? ==> ok
    ensures OthersStay(old(mem.model), mem.model, 8 * i, 8)
  {
    ghost var before := mem.model;
    ok := MakePrivate(mem, i);
    if ok {
      PutBack(mem, i, w, 8 * i + off, off, b, before);
    }
  }

  method WriteInWord(mem: Memory, i: nat, off: nat, n: nat, v: nat) returns (ok: bool)
    requires mem.Ok() && 1 <= n && off + n <= 8 && i < 8192 * mem.pages
    modifies mem`model, mem`arena, mem`budget, mem.Arrays()
    ensures mem.Ok() && fresh(mem.Arrays() - old(mem.Arrays()))
    ensures ok ==> Wrote(old(mem.model), mem.model, 8 * i + off, LE(v, n))
    ensures !ok ==> Silent(old(mem.model), mem.model) && Refused(mem.model, mem.budget)
    ensures PlaceOf(old(mem.model), i).At? ==> ok
    ensures OthersStay(old(mem.model), mem.model, 8 * i, 8)
  {
    var w := FieldWord(ReadWord(mem, i), off, n, v);
    ok := PutWhole(mem, i, w, off, LE(v, n));
  }

  /** `b` is the bytes of the value, of which the first `|b|` bytes of `masked` are all that is left. */
  ghost predicate ValueBytes(masked: nat, b: bytes) {
    && (forall i: nat :: i < |b| ==> ByteAt(masked, i) == b[i])
    && forall k: nat :: 8 * |b| <= k ==> Bit(masked, k) == 0
  }

  method PutLowHalf(mem: Memory, i: nat, off: nat, masked: nat, ghost b: bytes, ghost before: Mem)
    requires mem.Ok() && |b| <= 8 && 0 < off < 8 < off + |b| && i < 8192 * mem.pages && PlaceOf(mem.model, i).At?
    requires ValueBytes(masked, b) && Silent(before, mem.model)
    modifies mem`model, mem.Arrays()
    ensures mem.Arrays() == old(mem.Arrays())
    ensures mem.Ok() && Wrote(before, mem.model, 8 * i + off, b[..8 - off]) && mem.model.tab == old(mem.model).tab
    ensures i + 1 < 8192 * mem.pages && PlaceOf(old(mem.model), i + 1).At? ==> PlaceOf(mem.model, i + 1).At?
  {
    var w := LowWord(ReadWord(mem, i), off, masked, b);
    PutBack(mem, i, w, 8 * i + off, off, b[..8 - off], before);
  }

  method PutHighHalf(mem: Memory, i: nat, taken: nat, n: nat, masked: nat, ghost b: bytes, ghost high: bytes,
        ghost before: Mem)
    requires mem.Ok() && taken < n == |b| <= 8 && i < 8192 * mem.pages && PlaceOf(mem.model, i).At?
    requires ValueBytes(masked, b) && high == b[taken..] && Silent(before, mem.model)
    modifies mem`model, mem.Arrays()
    ensures mem.Arrays() == old(mem.Arrays())
    ensures mem.Ok() && Wrote(before, mem.model, 8 * i, high) && mem.model.tab == old(mem.model).tab
  {
    var w := HighWord(ReadWord(mem, i), taken, n, masked, b, high);
    PutBack(mem, i, w, 8 * i, 0, high, before);
  }

  /** The two halves of a straddling store, both pages already private. */
  method WriteAcross(mem: Memory, i: nat, off: nat, n: nat, masked: nat, ghost b: bytes, ghost before: Mem)
    requires mem.Ok() && n == |b| <= 8 && 0 < off < 8 < off + n && i + 1 < 8192 * mem.pages
    requires PlaceOf(mem.model, i).At? && PlaceOf(mem.model, i + 1).At?
    requires ValueBytes(masked, b) && Silent(before, mem.model)
    modifies mem`model, mem.Arrays()
    ensures mem.Arrays() == old(mem.Arrays())
    ensures mem.Ok() && Wrote(before, mem.model, 8 * i + off, b) && mem.model.tab == old(mem.model).tab
  {
    PutLowHalf(mem, i, off, masked, b, before);
    ghost var middle := mem.model;
    NoChangeIsSilent(middle);
    PutHighHalf(mem, i + 1, 8 - off, n, masked, b, b[8 - off..], middle);
    TwoHalves(before, middle, mem.model, i, off, b);
  }

  lemma PrivateWord(m: Mem, a: nat, n: nat, i: nat, k: nat)
    requires Valid(m) && Fits(m, a, n) && AllPrivate(m, a, n) && k < 8 && a <= 8 * i + k < a + n
    ensures PlaceOf(m, i).At?
  {
    assert (8 * i + k) / 8 == i;
  }

  /** The sixteen bytes prepared for a straddling write are those of its two words. */
  method PrepareBoth(mem: Memory, i: nat) returns (ok: bool)
    requires mem.Ok() && i + 1 < 8192 * mem.pages
    modifies mem`model, mem`arena, mem`budget, mem.Arrays()
    ensures mem.Ok() && fresh(mem.Arrays() - old(mem.Arrays())) && Silent(old(mem.model), mem.model)
    ensures ok ==> PlaceOf(mem.model, i).At? && PlaceOf(mem.model, i + 1).At?
    ensures !ok ==> Refused(mem.model, mem.budget)
    ensures OthersStay(old(mem.model), mem.model, 8 * i, 16)
  {
    ok := Prepare(mem, 8 * i, 16);
    if ok {
      PrivateWord(mem.model, 8 * i, 16, i, 0);
      PrivateWord(mem.model, 8 * i, 16, i + 1, 0);
    }
  }

  method WriteStraddling(mem: Memory, i: nat, off: nat, n: nat, v: nat) returns (ok: bool)
    requires mem.Ok() && n <= 8 && off < 8 < off + n && i + 1 < 8192 * mem.pages && v < Two(8 * n)
    modifies mem`model, mem`arena, mem`budget, mem.Arrays()
    ensures mem.Ok() && fresh(mem.Arrays() - old(mem.Arrays()))
    ensures ok ==> Wrote(old(mem.model), mem.model, 8 * i + off, LE(v, n))
    ensures !ok ==> Silent(old(mem.model), mem.model) && Refused(mem.model, mem.budget)
    ensures OthersStay(old(mem.model), mem.model, 8 * i, 16)
  {
    ghost var before := mem.model;
    WholeValue(v, n);
    ok := PrepareBoth(mem, i);
    if ok {
      WriteAcross(mem, i, off, n, v, LE(v, n), before);
    }
  }

  /** A store changes exactly its bytes, or, refused, nothing. `a` is byte `off` of word `i`. */
  method Write(mem: Memory, a: nat, i: nat, off: nat, n: nat, v: nat) returns (ok: bool)
    requires mem.Ok() && 1 <= n <= 8 && off < 8 && a == 8 * i + off && v < Two(8 * n)
    requires i < 8192 * mem.pages && (off + n > 8 ==> i + 1 < 8192 * mem.pages)
    modifies mem`model, mem`arena, mem`budget, mem.Arrays()
    ensures mem.Ok() && fresh(mem.Arrays() - old(mem.Arrays()))
    ensures ok ==> Wrote(old(mem.model), mem.model, a, LE(v, n))
    ensures !ok ==> Silent(old(mem.model), mem.model) && Refused(mem.model, mem.budget)
    ensures OthersStay(old(mem.model), mem.model, a, n)
  {
    if off + n <= 8 {
      ok := WriteInWord(mem, i, off, n, v);
    } else {
      ok := WriteStraddling(mem, i, off, n, v);
    }
    WordsOfRange(old(mem.model), mem.model, a, i, off, n, if off + n <= 8 then 8 else 16);
  }

  /** A range is in the pages its words are in. */
  lemma WordsOfRange(before: Mem, after: Mem, a: nat, i: nat, off: nat, n: nat, size: nat)
    requires off < 8 && 1 <= n && a == 8 * i + off && (size == 8 || size == 16) && size - 8 < off + n <= size
    requires OthersStay(before, after, 8 * i, size)
    ensures OthersStay(before, after, a, n)
  {
    forall q | 0 <= q < |before.tab| && Outside(q, a, n) ensures after.tab[q] == before.tab[q] {
      WordOutside(512 * q, i, off, n, size);
    }
  }

  lemma WordOutside(w: nat, i: nat, off: nat, n: nat, size: nat)
    requires off < 8 && 1 <= n && (size == 8 || size == 16) && size - 8 < off + n
    ensures 8 * w + 4096 <= 8 * i + off ==> 8 * w + 4096 <= 8 * i
    ensures 8 * i + off + n <= 8 * w ==> 8 * i + size <= 8 * w
  {
  }

  /** The `n` bytes a store of `v` leaves: those of its remainder, whatever its sign. */
  function StoredBytes(v: int, n: nat): bytes { LE(v % Pow256(n), n) }

  /** `store`: the value is any integer, and is masked first. */
  method Store(mem: Memory, a: nat, n: nat, v: int) returns (r: Answer)
    requires mem.Ok() && 1 <= n <= 8
    modifies mem`model, mem`arena, mem`budget, mem.Arrays()
    ensures mem.Ok() && fresh(mem.Arrays() - old(mem.Arrays()))
    ensures r.Trap? <==> !Fits(old(mem.model), a, n)
    ensures r.Done? ==> Wrote(old(mem.model), mem.model, a, StoredBytes(v, n))
    ensures !r.Done? ==> Silent(old(mem.model), mem.model)
    ensures r.Exhausted? ==> Refused(mem.model, mem.budget)
    ensures OthersStay(old(mem.model), mem.model, a, n)
  {
    NoChangeIsSilent(mem.model);
    if a + n > 65536 * mem.pages {
      return Trap;
    }
    FitsHasWords(mem.model, a, n);
    BandIsRemainder(v, 8 * n);
    TwoBytes(n);
    var ok := Write(mem, a, a / 8, a % 8, n, Band(v, 8 * n));
    r := if ok then Done else Exhausted;
  }

  // ----- ranges of bytes -----

  /** What is moved at a time: a word where it is aligned, else a byte. */
  function Piece(a: nat, n: nat): nat {
    if a % 8 == 0 && n >= 8 then 8 else 1
  }

  lemma PieceInWord(m: Mem, a: nat, n: nat)
    requires Fits(m, a, n) && n > 0
    ensures Piece(a, n) <= n && a / 8 < 8192 * m.pages && a == 8 * (a / 8) + a % 8
    ensures a % 8 + Piece(a, n) <= 8
  {
  }

  /** The next piece of a range, from the word it is in. */
  function ReadPiece(mem: Memory, a: nat, i: nat, off: nat, k: nat): (b: bytes)
    requires mem.Ok() && off < 8 && a == 8 * i + off && i < 8192 * mem.pages && (k == 1 || (k == 8 && off == 0))
    reads mem, mem.Arrays()
    ensures a + k <= |Bytes(mem.model)| && b == Bytes(mem.model)[a..a + k]
  {
    PieceBytes(mem.model, a, i, off, k);
    if k == 8 then LE(ReadWord(mem, i), 8) else [ByteAt(ReadWord(mem, i), off)]
  }

  lemma PieceBytes(m: Mem, a: nat, i: nat, off: nat, k: nat)
    requires Valid(m) && off < 8 && a == 8 * i + off && i < 8192 * m.pages && (k == 1 || (k == 8 && off == 0))
    ensures a + k <= |Bytes(m)|
    ensures Bytes(m)[a..a + k] == if k == 8 then LE(WordOf(m, i), 8) else [ByteAt(WordOf(m, i), off)]
  {
    if k == 8 { WordBytes(m, a, i); } else { AddressByte(m, i, off); }
  }

  /** `load_bytes` */
  method LoadBytes(mem: Memory, a: nat, n: nat) returns (r: Loaded<bytes>)
    requires mem.Ok()
    ensures r == if Fits(mem.model, a, n) then Value(Bytes(mem.model)[a..a + n]) else OutOfBounds
  {
    if a + n > 65536 * mem.pages {
      return OutOfBounds;
    }
    var b := Collect(mem, a, n);
    r := Value(b);
  }

  method Collect(mem: Memory, a: nat, n: nat) returns (b: bytes)
    requires mem.Ok() && Fits(mem.model, a, n)
    ensures b == Bytes(mem.model)[a..a + n]
    decreases n
  {
    if n == 0 {
      return [];
    }
    var k := Piece(a, n);
    PieceInWord(mem.model, a, n);
    ghost var flat := Bytes(mem.model);
    var first := ReadPiece(mem, a, a / 8, a % 8, k);
    Joined(flat, a, k, n);
    var rest := Collect(mem, a + k, n - k);
    b := first + rest;
  }

  lemma Joined(flat: bytes, a: nat, k: nat, n: nat)
    requires k <= n && a + n <= |flat|
    ensures flat[a..a + k] + flat[a + k..a + n] == flat[a..a + n]
  {
  }

  /** A whole word is its eight bytes of the flat memory. */
  lemma WordBytes(m: Mem, x: nat, i: nat)
    requires Valid(m) && x == 8 * i && i < 8192 * m.pages
    ensures LE(WordOf(m, i), 8) == Bytes(m)[x..x + 8]
  {
    forall k: nat | k < 8 ensures LE(WordOf(m, i), 8)[k] == Bytes(m)[x + k] {
      AddressByte(m, i, k);
    }
  }

  /**
   * `store_bytes`: every page first, then the bytes, whole words where the
   * address is aligned. A write out of bounds or refused by the budget part
   * of the way through has changed nothing that can be read.
   */
  method StoreBytes(mem: Memory, a: nat, data: bytes) returns (r: Answer)
    requires mem.Ok()
    modifies mem`model, mem`arena, mem`budget, mem.Arrays()
    ensures mem.Ok() && fresh(mem.Arrays() - old(mem.Arrays()))
    ensures r.Trap? <==> !Fits(old(mem.model), a, |data|)
    ensures r.Done? ==> Wrote(old(mem.model), mem.model, a, data)
    ensures !r.Done? ==> Silent(old(mem.model), mem.model)
    ensures r.Exhausted? ==> Refused(mem.model, mem.budget)
  {
    if a + |data| > 65536 * mem.pages {
      NoChangeIsSilent(mem.model);
      return Trap;
    }
    ghost var before := mem.model;
    var ok := Prepare(mem, a, |data|);
    if !ok {
      return Exhausted;
    }
    ghost var m := mem.model;
    Scatter(mem, a, data);
    SilentThenWrote(before, m, mem.model, a, data);
    r := Done;
  }

  /** The prepared range written, word by word or byte by byte. */
  method Scatter(mem: Memory, a: nat, data: bytes)
    requires mem.Ok() && Fits(mem.model, a, |data|) && AllPrivate(mem.model, a, |data|)
    modifies mem`model, mem.Arrays()
    ensures mem.Arrays() == old(mem.Arrays())
    ensures mem.Ok() && Wrote(old(mem.model), mem.model, a, data)
    decreases |data|
  {
    ghost var m := mem.model;
    if data == [] {
      NothingWritten(m, a);
      return;
    }
    var n := ScatterFirst(mem, a, data);
    ghost var middle := mem.model;
    Scatter(mem, a + n, data[n..]);
    WroteBoth(m, middle, mem.model, a, data, n);
  }

  method ScatterFirst(mem: Memory, a: nat, data: bytes) returns (n: nat)
    requires mem.Ok() && data != [] && Fits(mem.model, a, |data|) && AllPrivate(mem.model, a, |data|)
    modifies mem`model, mem.Arrays()
    ensures mem.Arrays() == old(mem.Arrays())
    ensures mem.Ok() && 0 < n <= |data| && Wrote(old(mem.model), mem.model, a, data[..n])
    ensures AllPrivate(mem.model, a + n, |data| - n)
  {
    ghost var m := mem.model;
    n := Piece(a, |data|);
    PieceInWord(m, a, |data|);
    FirstPrivate(m, a, |data|);
    PutPiece(mem, a, a / 8, a % 8, data[..n]);
    RestPrivate(m, mem.model, a, |data|, n);
  }

  lemma NothingWritten(m: Mem, a: nat)
    requires Valid(m) && Fits(m, a, 0)
    ensures Wrote(m, m, a, [])
  {
    assert Splice(Bytes(m), a, []) == Bytes(m);
  }

  lemma FirstPrivate(m: Mem, a: nat, n: nat)
    requires Valid(m) && Fits(m, a, n) && AllPrivate(m, a, n) && n > 0
    ensures a / 8 < 8192 * m.pages && PlaceOf(m, a / 8).At?
  {
  }

  lemma RestPrivate(before: Mem, after: Mem, a: nat, n: nat, done: nat)
    requires Stays(before, after) && after.pages == before.pages && done <= n && Fits(before, a, n)
    requires AllPrivate(before, a, n)
    ensures AllPrivate(after, a + done, n - done)
  {
    forall x: nat | a + done <= x < a + n ensures PlaceOf(after, x / 8).At? {
      assert PlaceOf(before, x / 8).At?;
    }
  }

  /** A word, or one byte merged into its word. */
  method PutPiece(mem: Memory, a: nat, i: nat, off: nat, b: bytes)
    requires mem.Ok() && off < 8 && a == 8 * i + off && (|b| == 1 || (|b| == 8 && off == 0))
    requires Fits(mem.model, a, |b|) && i < 8192 * mem.pages && PlaceOf(mem.model, i).At?
    modifies mem`model, mem.Arrays()
    ensures mem.Arrays() == old(mem.Arrays())
    ensures mem.Ok() && Wrote(old(mem.model), mem.model, a, b)
  {
    ghost var before := mem.model;
    NoChangeIsSilent(before);
    var w := FieldWord(ReadWord(mem, i), off, |b|, FromLE(b));
    LittleAgain(b);
    PutBack(mem, i, w, a, off, b, before);
  }

  // ----- copying within a memory -----

  /**
   * `memory.copy`: the destination receives the bytes the source held before,
   * however the two overlap. Bounds and budget are settled before a byte moves.
   */
  method Copy(mem: Memory, d: nat, s: nat, n: nat) returns (r: Answer)
    requires mem.Ok()
    modifies mem`model, mem`arena, mem`budget, mem.Arrays()
    ensures mem.Ok() && fresh(mem.Arrays() - old(mem.Arrays()))
    ensures r.Trap? <==> !(Fits(old(mem.model), d, n) && Fits(old(mem.model), s, n))
    ensures r.Done? ==> Wrote(old(mem.model), mem.model, d, Bytes(old(mem.model))[s..s + n])
    ensures !r.Done? ==> Silent(old(mem.model), mem.model)
    ensures r.Exhausted? ==> Refused(mem.model, mem.budget)
  {
    if d + n > 65536 * mem.pages || s + n > 65536 * mem.pages {
      NoChangeIsSilent(mem.model);
      return Trap;
    }
    ghost var before := mem.model;
    var ok := Prepare(mem, d, n);
    if !ok {
      return Exhausted;
    }
    ghost var m := mem.model;
    ghost var b := Bytes(before)[s..s + n];
    SilentBytes(before, m);
    if d <= s || d >= s + n {
      CopyForward(mem, d, s, n, b);
    } else {
      CopyBackward(mem, d, s, n, b);
    }
    SilentThenWrote(before, m, mem.model, d, b);
    r := Done;
  }

  /** Ascending, which is safe when the destination does not start inside the source. `b` is what the source holds. */
  method CopyForward(mem: Memory, d: nat, s: nat, n: nat, ghost b: bytes)
    requires mem.Ok() && Fits(mem.model, d, n) && Fits(mem.model, s, n) && b == Bytes(mem.model)[s..s + n]
    requires AllPrivate(mem.model, d, n) && (d <= s || d >= s + n)
    modifies mem`model, mem.Arrays()
    ensures mem.Arrays() == old(mem.Arrays())
    ensures mem.Ok() && Wrote(old(mem.model), mem.model, d, b)
    decreases n
  {
    ghost var m := mem.model;
    if n == 0 {
      NothingWritten(m, d);
      return;
    }
    var k := MoveFirst(mem, d, s, n, b);
    ghost var middle, at, left := mem.model, d + k, b[k..];
    CopyForward(mem, d + k, s + k, n - k, left);
    assert Wrote(middle, mem.model, at, left);
    WroteBoth(m, middle, mem.model, d, b, k);
  }

  lemma WroteBoth(m0: Mem, m1: Mem, m2: Mem, a: nat, b: bytes, k: nat)
    requires k <= |b| && Wrote(m0, m1, a, b[..k]) && Wrote(m1, m2, a + k, b[k..])
    ensures Wrote(m0, m2, a, b)
  {
    WroteThen(m0, m1, m2, a, b[..k], b[k..]);
    assert b[..k] + b[k..] == b;
  }

  lemma SourceLeft(m: Mem, middle: Mem, d: nat, s: nat, k: nat, n: nat, b: bytes)
    requires Valid(m) && Fits(m, d, n) && Fits(m, s, n) && 0 < k <= n && (d <= s || d >= s + n)
    requires b == Bytes(m)[s..s + n] && Wrote(m, middle, d, b[..k])
    ensures b[k..] == Bytes(middle)[s + k..s + n]
  {
    Untouched(Bytes(m), d, b[..k], s + k, n - k);
  }

  method MoveFirst(mem: Memory, d: nat, s: nat, n: nat, ghost b: bytes) returns (k: nat)
    requires mem.Ok() && Fits(mem.model, d, n) && Fits(mem.model, s, n) && b == Bytes(mem.model)[s..s + n]
    requires AllPrivate(mem.model, d, n) && 0 < n && (d <= s || d >= s + n)
    modifies mem`model, mem.Arrays()
    ensures mem.Arrays() == old(mem.Arrays())
    ensures mem.Ok() && 0 < k <= n && Wrote(old(mem.model), mem.model, d, b[..k])
    ensures Fits(mem.model, d + k, n - k) && AllPrivate(mem.model, d + k, n - k)
    ensures Fits(mem.model, s + k, n - k) && Bytes(mem.model)[s + k..s + n] == b[k..]
  {
    ghost var m := mem.model;
    k := if s % 8 == 0 then Piece(d, n) else 1;
    PieceInWord(m, d, n);
    MovePiece(mem, d, s, k, n, b[..k]);
    SourceLeft(m, mem.model, d, s, k, n, b);
  }

  /** One piece moved, and the rest of the destination still private. */
  method MovePiece(mem: Memory, d: nat, s: nat, k: nat, n: nat, ghost b: bytes)
    requires mem.Ok() && Fits(mem.model, d, n) && Fits(mem.model, s, n) && AllPrivate(mem.model, d, n)
    requires 0 < k <= n && (k == 1 || (k == 8 && d % 8 == 0 && s % 8 == 0)) && b == Bytes(mem.model)[s..s + k]
    modifies mem`model, mem.Arrays()
    ensures mem.Arrays() == old(mem.Arrays())
    ensures mem.Ok() && Wrote(old(mem.model), mem.model, d, b)
    ensures AllPrivate(mem.model, d + k, n - k)
  {
    ghost var m := mem.model;
    PieceInWord(m, d, n);
    PieceInWord(m, s, n);
    FirstPrivate(m, d, n);
    MoveBetween(mem, d, d / 8, d % 8, s, s / 8, s % 8, k, b);
    RestPrivate(m, mem.model, d, n, k);
  }

  /** From byte `soff` of word `j` to byte `off` of word `i`. */
  method MoveBetween(mem: Memory, d: nat, i: nat, off: nat, s: nat, j: nat, soff: nat, k: nat, ghost b: bytes)
    requires mem.Ok() && off < 8 && d == 8 * i + off && soff < 8 && s == 8 * j + soff
    requires k == 1 || (k == 8 && off == 0 && soff == 0)
    requires Fits(mem.model, d, k) && i < 8192 * mem.pages && PlaceOf(mem.model, i).At? && j < 8192 * mem.pages
    requires Fits(mem.model, s, k) && b == Bytes(mem.model)[s..s + k]
    modifies mem`model, mem.Arrays()
    ensures mem.Arrays() == old(mem.Arrays())
    ensures mem.Ok() && Wrote(old(mem.model), mem.model, d, b)
  {
    var piece := ReadPiece(mem, s, j, soff, k);
    PutPiece(mem, d, i, off, piece);
  }

  /** A write leaves a range it does not meet. */
  lemma Untouched(flat: bytes, a: nat, b: bytes, s: nat, n: nat)
    requires a + |b| <= |flat| && s + n <= |flat| && (a + |b| <= s || s + n <= a)
    ensures Splice(flat, a, b)[s..s + n] == flat[s..s + n]
  {
  }

  /** Descending, a byte at a time, when it does. */
  method CopyBackward(mem: Memory, d: nat, s: nat, n: nat, ghost b: bytes)
    requires mem.Ok() && Fits(mem.model, d, n) && Fits(mem.model, s, n) && b == Bytes(mem.model)[s..s + n]
    requires AllPrivate(mem.model, d, n) && s <= d
    modifies mem`model, mem.Arrays()
    ensures mem.Arrays() == old(mem.Arrays())
    ensures mem.Ok() && Wrote(old(mem.model), mem.model, d, b)
    decreases n
  {
    ghost var m := mem.model;
    if n == 0 {
      NothingWritten(m, d);
      return;
    }
    MoveLast(mem, d, s, n, b);
    ghost var middle := mem.model;
    CopyBackward(mem, d, s, n - 1, b[..n - 1]);
    WroteBefore(m, middle, mem.model, d, b[..n - 1], b[n - 1..]);
    assert b[..n - 1] + b[n - 1..] == b;
  }

  lemma SourceBelow(m: Mem, middle: Mem, d: nat, s: nat, n: nat, b: bytes)
    requires Valid(m) && Fits(m, d, n) && Fits(m, s, n) && 0 < n && s <= d
    requires b == Bytes(m)[s..s + n] && Wrote(m, middle, d + n - 1, b[n - 1..])
    ensures b[..n - 1] == Bytes(middle)[s..s + n - 1]
  {
    Untouched(Bytes(m), d + n - 1, b[n - 1..], s, n - 1);
  }

  method MoveLast(mem: Memory, d: nat, s: nat, n: nat, ghost b: bytes)
    requires mem.Ok() && Fits(mem.model, d, n) && Fits(mem.model, s, n) && b == Bytes(mem.model)[s..s + n]
    requires AllPrivate(mem.model, d, n) && 0 < n && s <= d
    modifies mem`model, mem.Arrays()
    ensures mem.Ok() && Wrote(old(mem.model), mem.model, d + n - 1, b[n - 1..])
    ensures AllPrivate(mem.model, d, n - 1) && Bytes(mem.model)[s..s + n - 1] == b[..n - 1]
  {
    ghost var m := mem.model;
    LastPrivate(m, d, n);
    assert b[n - 1..] == Bytes(m)[s + n - 1..s + n];
    MovePiece(mem, d + n - 1, s + n - 1, 1, 1, b[n - 1..]);
    RestPrivateBelow(m, mem.model, d, n);
    SourceBelow(m, mem.model, d, s, n, b);
  }

  lemma LastPrivate(m: Mem, a: nat, n: nat)
    requires Valid(m) && Fits(m, a, n) && AllPrivate(m, a, n) && n > 0
    ensures Fits(m, a + n - 1, 1) && AllPrivate(m, a + n - 1, 1)
  {
  }

  lemma RestPrivateBelow(before: Mem, after: Mem, a: nat, n: nat)
    requires Stays(before, after) && after.pages == before.pages && n > 0 && Fits(before, a, n)
    requires AllPrivate(before, a, n)
    ensures AllPrivate(after, a, n - 1)
  {
    forall x: nat | a <= x < a + n - 1 ensures PlaceOf(after, x / 8).At? {
      assert PlaceOf(before, x / 8).At?;
    }
  }

  lemma WroteBefore(m0: Mem, m1: Mem, m2: Mem, a: nat, b: bytes, c: bytes)
    requires Wrote(m0, m1, a + |b|, c) && Wrote(m1, m2, a, b)
    ensures Wrote(m0, m2, a, b + c)
  {
    StaysOn(m0, m1, m2);
    SpliceBefore(Bytes(m0), a, b, c);
  }

  lemma SpliceBefore(flat: bytes, a: nat, b: bytes, c: bytes)
    requires a + |b| + |c| <= |flat|
    ensures Splice(Splice(flat, a + |b|, c), a, b) == Splice(flat, a, b + c)
  {
  }
}
