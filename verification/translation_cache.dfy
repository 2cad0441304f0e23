/**
 * Loads and stores of generated code: a two-entry cache of page translations
 * in front of the page table, on the arrays themselves. A hit makes no bounds
 * test; a miss that ends on an array puts its page first.
 */
module TranslationCache {
  import opened LittleEndian
  import opened Words
  import opened Integers
  import opened PagedMemory
  import opened MemorySteps
  import opened FlatMemory
  import opened MemoryStart
  import opened MemoryArrays
  import opened MemoryCode
  import opened Translations

  datatype Cache = Cache(first: Entry, second: Entry)

  ghost predicate CacheOk(m: Mem, c: Cache)
    requires Valid(m)
  {
    Translates(m, c.first) && Translates(m, c.second)
  }

  lemma CacheOn(m: Mem, after: Mem, c: Cache)
    requires Stays(m, after) && CacheOk(m, c)
    ensures CacheOk(after, c)
  {
    TranslatesOn(m, after, c.first);
    TranslatesOn(m, after, c.second);
  }

  /** `none` is for everything the helpers settle. */
  datatype Found = Array(ref: Ref, index: nat) | Image | None

  /** The array and word an in-bounds, one-word access is at, as far as this handle can tell. */
  function Find(mem: Memory, h: Handle, i: nat, off: nat, n: nat): (f: Found)
    requires mem.Ok() && HandleOk(mem.model, h) && off < 8 && 1 <= n
    reads mem, mem.Arrays()
    ensures f.Array? ==> off + n <= 8 && i < 8192 * h.pages && PlaceOf(mem.model, i) == At(f.ref, f.index)
    ensures f.Image? ==> off + n <= 8 && i < 8192 * |mem.img| && PlaceOf(mem.model, i) == InImage
  {
    if off + n > 8 || 8 * i + off + n > 65536 * h.pages then None
    else if i >= 8192 * |mem.img| then Array(Chunk(ChunkAt(mem.shift, i)), IndexAt(mem.shift, i))
    else
      var e := mem.tab[i / 512];
      if e == 0 then Image
      else if ChunkIn(e) <= h.arena then Array(Arena(ChunkIn(e) - 1), IndexIn(e) * 512 + i % 512)
      else None
  }

  /** It is found if it is in one word, in the bounds the handle knows, and not in an arena chunk the handle has not
      seen; and then it is found where it is. */
  lemma FindExactly(mem: Memory, h: Handle, i: nat, off: nat, n: nat)
    requires mem.Ok() && HandleOk(mem.model, h) && off < 8 && 1 <= n
    ensures var f := Find(mem, h, i, off, n);
      if off + n > 8 || 8 * i + off + n > 65536 * h.pages then f.None?
      else
        var at := PlaceOf(mem.model, i);
        && (f.Image? <==> at.InImage?)
        && (f.Array? <==> at.At? && (at.ref.Arena? ==> at.ref.k < h.arena))
        && (f.Array? ==> f.ref == at.ref && f.index == at.index)
  {
  }

  /** The load itself, on a word already found. */
  function Take(w: Word, off: nat, n: nat): nat {
    if n == 8 then w else Extract(w, 8 * off, 8 * n)
  }

  lemma TakeIsLittle(m: Mem, i: nat, off: nat, n: nat)
    requires Valid(m) && 1 <= n && off + n <= 8 && i < 8192 * m.pages
    ensures Take(WordOf(m, i), off, n) == FromLE(Bytes(m)[8 * i + off..8 * i + off + n])
  {
    ReadIsLittle(m, i, off, n);
  }

  /** A word in bounds holds whole accesses in bounds. */
  lemma WordFits(m: Mem, i: nat, off: nat, n: nat)
    requires i < 8192 * m.pages && off + n <= 8
    ensures Fits(m, 8 * i + off, n)
  {
  }

  /** The bytes of an untouched page, straight from the image's binary. */
  function FromImage(img: seq<ImagePage>, a: nat, n: nat): nat
    requires ValidImage(img) && a + n <= 65536 * |img| && a % 65536 + n <= 65536 && n > 0
  {
    if img[a / 65536].Zero? then 0 else FromLE(img[a / 65536].data[a % 65536..a % 65536 + n])
  }

  lemma ImageBytes(m: Mem, i: nat, off: nat, n: nat)
    requires Valid(m) && 1 <= n && off + n <= 8 && i < 8192 * |m.img| && PlaceOf(m, i) == InImage
    ensures var a := 8 * i + off;
      a + n <= 65536 * |m.img| && a % 65536 + n <= 65536 && FromImage(m.img, a, n) == FromLE(Bytes(m)[a..a + n])
  {
    ImageOffset(i, off);
    var b := Bytes(m)[8 * i + off..8 * i + off + n];
    forall k: nat | k < n ensures b[k] == ImageByteOf(m.img, i, off + k) {
      AddressByte(m, i, off + k);
      ImageByte(m.img, i, off + k);
    }
    if m.img[i / 8192].Zero? {
      AllZeros(b);
    } else {
      var at := i % 8192 * 8 + off;
      assert m.img[i / 8192].data[at..at + n] == b;
    }
  }

  lemma ImageOffset(i: nat, off: nat)
    requires off < 8
    ensures (8 * i + off) / 65536 == i / 8192 && (8 * i + off) % 65536 == i % 8192 * 8 + off
  {
  }

  lemma {:induction false} AllZeros(b: bytes)
    requires forall k :: 0 <= k < |b| ==> b[k] == 0
    ensures FromLE(b) == 0
  {
    if b != [] { AllZeros(b[1..]); }
  }

  // ----- loads -----

  datatype Out = Out(r: Loaded<nat>, cache: Cache)

  /** The array word `i` is in goes first, and the first entry becomes the second. */
  function Refilled(c: Cache, i: nat, ref: Ref, index: nat): Cache
    requires i % 512 <= index
  {
    Cache(Entry(i / 512, ref, index - i % 512), c.first)
  }

  lemma RefilledIsOk(m: Mem, c: Cache, i: nat)
    requires Valid(m) && CacheOk(m, c) && i < 8192 * m.pages && PlaceOf(m, i).At?
    ensures var at := PlaceOf(m, i); i % 512 <= at.index && CacheOk(m, Refilled(c, i, at.ref, at.index))
  {
    RefillTranslates(m, i);
  }

  /** What a load in one word answers. */
  lemma OneWordLoad(m: Mem, i: nat, off: nat, n: nat)
    requires Valid(m) && 1 <= n && off + n <= 8 && i < 8192 * m.pages
    ensures LoadOf(m, 8 * i + off, n) == Value(Take(WordOf(m, i), off, n))
  {
    WordFits(m, i, off, n);
    TakeIsLittle(m, i, off, n);
  }

  function ArrayLoad(mem: Memory, ref: Ref, index: nat, i: nat, off: nat, n: nat): (v: nat)
    requires mem.Ok() && i < 8192 * mem.pages && PlaceOf(mem.model, i) == At(ref, index) && 1 <= n && off + n <= 8
    reads mem, mem.Arrays()
    ensures LoadOf(mem.model, 8 * i + off, n) == Value(v)
  {
    OneWordLoad(mem.model, i, off, n);
    Placed(mem.model, i);
    Take(mem.Get(ref, index), off, n)
  }

  lemma OneWordFromImage(m: Mem, i: nat, a: nat, off: nat, n: nat)
    requires Valid(m) && i < 8192 * |m.img| && PlaceOf(m, i) == InImage && 1 <= n && off + n <= 8 && a == 8 * i + off
    ensures a + n <= 65536 * |m.img| && a % 65536 + n <= 65536
    ensures LoadOf(m, a, n) == Value(FromImage(m.img, a, n))
  {
    assert Fits(m, a, n);
    ImageBytes(m, i, off, n);
  }

  function ImageLoad(mem: Memory, i: nat, off: nat, n: nat): (v: nat)
    requires mem.Ok() && i < 8192 * |mem.img| && PlaceOf(mem.model, i) == InImage && 1 <= n && off + n <= 8
    reads mem, mem.Arrays()
    ensures LoadOf(mem.model, 8 * i + off, n) == Value(v)
  {
    OneWordFromImage(mem.model, i, 8 * i + off, off, n);
    FromImage(mem.img, 8 * i + off, n)
  }

  /** The ordinary access: it refills the cache when it ends on an array, and otherwise leaves it. */
  function TlbLoad(mem: Memory, h: Handle, c: Cache, i: nat, off: nat, n: nat): (out: Out)
    requires mem.Ok() && HandleOk(mem.model, h) && CacheOk(mem.model, c) && off < 8 && 1 <= n <= 8
    reads mem, mem.Arrays()
    ensures out.r == LoadOf(mem.model, 8 * i + off, n) && CacheOk(mem.model, out.cache)
  {
    var found := Find(mem, h, i, off, n);
    Out(LoadFound(mem, found, i, off, n),
        if found.Array? then RefilledIsOk(mem.model, c, i); Refilled(c, i, found.ref, found.index) else c)
  }

  function LoadFound(mem: Memory, found: Found, i: nat, off: nat, n: nat): (r: Loaded<nat>)
    requires mem.Ok() && off < 8 && 1 <= n <= 8
    requires !found.None? ==> off + n <= 8
    requires found.Array? ==> i < 8192 * mem.pages && PlaceOf(mem.model, i) == At(found.ref, found.index)
    requires found.Image? ==> i < 8192 * |mem.img| && PlaceOf(mem.model, i) == InImage
    reads mem, mem.Arrays()
    ensures r == LoadOf(mem.model, 8 * i + off, n)
  {
    match found
    case Array(ref, index) => Value(ArrayLoad(mem, ref, index, i, off, n))
    case Image => Value(ImageLoad(mem, i, off, n))
    case None => Load(mem, 8 * i + off, n)
  }

  /** A hit: one compare, no bounds test. */
  function HitLoad(mem: Memory, c: Entry, i: nat, off: nat, n: nat): (v: nat)
    requires mem.Ok() && Translates(mem.model, c) && c.page == i / 512 && 1 <= n && off + n <= 8
    reads mem, mem.Arrays()
    ensures LoadOf(mem.model, 8 * i + off, n) == Value(v)
  {
    ArrayLoad(mem, c.ref, c.base + i % 512, i, off, n)
  }

  /** An access site: an access that leaves its word is the helper's, a hit on the second entry swaps the two. */
  function CachedLoadAt(mem: Memory, h: Handle, c: Cache, i: nat, off: nat, n: nat): (out: Out)
    requires mem.Ok() && HandleOk(mem.model, h) && CacheOk(mem.model, c) && off < 8 && 1 <= n <= 8
    reads mem, mem.Arrays()
    ensures out.r == LoadOf(mem.model, 8 * i + off, n) && CacheOk(mem.model, out.cache)
  {
    if off + n > 8 then Out(Load(mem, 8 * i + off, n), c)
    else if i / 512 == c.first.page then Out(Value(HitLoad(mem, c.first, i, off, n)), c)
    else if i / 512 == c.second.page then Out(Value(HitLoad(mem, c.second, i, off, n)), Cache(c.second, c.first))
    else TlbLoad(mem, h, c, i, off, n)
  }

  /** Whatever the cache holds, a load answers the bytes of the flat memory, or traps when they are not all there. */
  function CachedLoad(mem: Memory, h: Handle, c: Cache, a: nat, n: nat): (out: Out)
    requires mem.Ok() && HandleOk(mem.model, h) && CacheOk(mem.model, c) && 1 <= n <= 8
    reads mem, mem.Arrays()
    ensures out.r == LoadOf(mem.model, a, n) && CacheOk(mem.model, out.cache)
  {
    assert a == 8 * (a / 8) + a % 8;
    CachedLoadAt(mem, h, c, a / 8, a % 8, n)
  }

  // ----- what the cache remembers -----

  /** Whether a site gets to an array without help: by a hit, or by finding it. */
  predicate Direct(mem: Memory, h: Handle, c: Cache, i: nat, off: nat, n: nat)
    requires mem.Ok() && HandleOk(mem.model, h) && off < 8 && 1 <= n
    reads mem, mem.Arrays()
  {
    off + n <= 8 && (i / 512 == c.first.page || i / 512 == c.second.page || Find(mem, h, i, off, n).Array?)
  }

  /** The page of an access that got to an array is first, and the one that was first is second if it is another;
      any other access leaves the cache as it is. */
  predicate Remembers(c: Cache, after: Cache, page: nat, direct: bool) {
    && (direct ==> after.first.page == page)
    && (direct && c.first.page != page ==> after.second == c.first)
    && (!direct || c.first.page == page ==> after == c)
  }

  lemma LoadRemembers(mem: Memory, h: Handle, c: Cache, a: nat, n: nat)
    requires mem.Ok() && HandleOk(mem.model, h) && CacheOk(mem.model, c) && 1 <= n <= 8
    ensures Remembers(c, CachedLoad(mem, h, c, a, n).cache, a / 4096, Direct(mem, h, c, a / 8, a % 8, n))
  {
    assert a / 8 / 512 == a / 4096;
  }

  /** Two pages used in turn stay, whichever of them is used next: neither is ever looked up again. */
  lemma TwoPagesStay(c: Cache, c1: Cache, c2: Cache, c3: Cache, p: nat, q: nat, r: nat)
    requires p != q && (r == p || r == q)
    requires Remembers(c, c1, p, true) && Remembers(c1, c2, q, true) && Remembers(c2, c3, r, true)
    ensures {c2.first.page, c2.second.page} == {p, q} == {c3.first.page, c3.second.page}
  {
  }

  // ----- stores -----

  /** The masked value merged into the word in place: keep the other bits, or in the new ones. */
  method Merge(was: Word, off: nat, n: nat, masked: nat) returns (w: Word)
    requires 1 <= n && off + n <= 8 && masked < Two(8 * n)
    ensures Replaces(w, was, off, LE(masked, n))
  {
    AlreadyMasked(masked, n);
    if n == 8 {
      w := masked;
    } else {
      ReplaceFits(was, 8 * off, 8 * n, masked);
      XorIsNot(was, Shl(Ones(8 * n), 8 * off));
      var keep := Xor(ALL, Shl(Ones(8 * n), 8 * off));
      w := Or(And(was, keep), Shl(masked, 8 * off));
      MergedBytes(was, off, n, masked, w);
    }
  }

  lemma AlreadyMasked(masked: nat, n: nat)
    requires 1 <= n <= 8 && masked < Two(8 * n)
    ensures And(masked, Ones(8 * n)) == masked <= ALL
  {
    BandIsRemainder(masked, 8 * n);
    Remainder(masked, Two(8 * n), 0, masked);
    TwoGrows(8 * n, 64);
    TwoIsMask(64);
    Ones64();
  }

  lemma MergedBytes(was: Word, off: nat, n: nat, v: nat, w: Word)
    requires off + n <= 8 && w == Stored(Replace(was, 8 * off, 8 * n, v))
    ensures Replaces(w, was, off, LE(v, n))
  {
    forall k: nat | k < 8 ensures ByteAt(w, k) == if off <= k < off + n then LE(v, n)[k - off] else ByteAt(was, k) {
      ReplacedByte(was, off, n, v, k);
    }
  }

  /** The store itself, on a word already found. */
  method StoreFound(mem: Memory, ref: Ref, index: nat, i: nat, off: nat, n: nat, v: int)
    requires mem.Ok() && i < 8192 * mem.pages && PlaceOf(mem.model, i) == At(ref, index) && 1 <= n && off + n <= 8
    modifies mem`model, mem.Arrays()
    ensures mem.Ok() && Wrote(old(mem.model), mem.model, 8 * i + off, StoredBytes(v, n))
  {
    ghost var before := mem.model;
    Placed(before, i);
    BandIsRemainder(v, 8 * n);
    TwoBytes(n);
    var w := Merge(mem.Get(ref, index), off, n, Band(v, 8 * n));
    ghost var after := SetIn(before, i, w);
    SetInIs(before, i, w);
    SetIsWrote(before, after, i, w, off, StoredBytes(v, n));
    mem.PutAt(ref, index, w);
    assert mem.model == after;
  }

  /** What a store leaves behind. */
  ghost predicate Settled(before: Mem, after: Mem, a: nat, n: nat, v: int, r: Answer) {
    && Valid(before) && Valid(after)
    && (r.Trap? <==> !Fits(before, a, n))
    && (r.Done? ==> Wrote(before, after, a, StoredBytes(v, n)))
    && (!r.Done? ==> Silent(before, after))
  }

  /** After a store every entry and the handle are still right. */
  lemma SettledOn(before: Mem, after: Mem, a: nat, n: nat, v: int, r: Answer, h: Handle, c: Cache)
    requires Settled(before, after, a, n, v, r) && CacheOk(before, c) && HandleOk(before, h)
    ensures CacheOk(after, c) && HandleOk(after, h)
  {
    assert Stays(before, after);
    CacheOn(before, after, c);
    HandleOn(before, after, h);
  }

  /** A store the helper settles. */
  method MissStore(mem: Memory, h: Handle, ghost c: Cache, a: nat, n: nat, v: int) returns (r: Answer)
    requires mem.Ok() && HandleOk(mem.model, h) && CacheOk(mem.model, c) && 1 <= n <= 8
    modifies mem`model, mem`arena, mem`budget, mem.Arrays()
    ensures mem.Ok() && fresh(mem.Arrays() - old(mem.Arrays()))
    ensures Settled(old(mem.model), mem.model, a, n, v, r)
    ensures CacheOk(mem.model, c) && HandleOk(mem.model, h)
  {
    ghost var before := mem.model;
    r := Store(mem, a, n, v);
    SettledOn(before, mem.model, a, n, v, r, h, c);
  }

  /** A store at a place that is known. */
  method PlacedStore(mem: Memory, h: Handle, ghost c: Cache, ref: Ref, index: nat, i: nat, off: nat, n: nat, v: int)
      returns (r: Answer)
    requires mem.Ok() && HandleOk(mem.model, h) && CacheOk(mem.model, c)
    requires i < 8192 * mem.pages && PlaceOf(mem.model, i) == At(ref, index) && 1 <= n && off + n <= 8
    modifies mem`model, mem.Arrays()
    ensures mem.Ok() && Settled(old(mem.model), mem.model, 8 * i + off, n, v, r)
    ensures CacheOk(mem.model, c) && HandleOk(mem.model, h)
  {
    ghost var before := mem.model;
    WordFits(before, i, off, n);
    StoreFound(mem, ref, index, i, off, n, v);
    r := Done;
    SettledOn(before, mem.model, 8 * i + off, n, v, r, h, c);
  }

  /** A hit on entry `e`. */
  method HitStore(mem: Memory, h: Handle, ghost c: Cache, e: Entry, i: nat, off: nat, n: nat, v: int)
      returns (r: Answer)
    requires mem.Ok() && HandleOk(mem.model, h) && CacheOk(mem.model, c)
    requires Translates(mem.model, e) && e.page == i / 512 && 1 <= n && off + n <= 8
    modifies mem`model, mem.Arrays()
    ensures mem.Ok() && Settled(old(mem.model), mem.model, 8 * i + off, n, v, r)
    ensures CacheOk(mem.model, c) && HandleOk(mem.model, h)
  {
    r := PlacedStore(mem, h, c, e.ref, e.base + i % 512, i, off, n, v);
  }

  method RefillingStore(mem: Memory, h: Handle, c: Cache, ref: Ref, index: nat, i: nat, off: nat, n: nat, v: int)
      returns (r: Answer, after: Cache)
    requires mem.Ok() && HandleOk(mem.model, h) && CacheOk(mem.model, c)
    requires i < 8192 * mem.pages && PlaceOf(mem.model, i) == At(ref, index) && 1 <= n && off + n <= 8
    modifies mem`model, mem.Arrays()
    ensures mem.Ok() && Settled(old(mem.model), mem.model, 8 * i + off, n, v, r)
    ensures CacheOk(mem.model, after) && HandleOk(mem.model, h)
    ensures after.first.page == i / 512 && after.second == c.first
  {
    RefilledIsOk(mem.model, c, i);
    after := Refilled(c, i, ref, index);
    r := PlacedStore(mem, h, after, ref, index, i, off, n, v);
  }

  /** `tlb_store`: like the load, it refills the cache when it ends on an array. */
  method TlbStore(mem: Memory, h: Handle, c: Cache, i: nat, off: nat, n: nat, v: int) returns (r: Answer, after: Cache)
    requires mem.Ok() && HandleOk(mem.model, h) && CacheOk(mem.model, c) && off < 8 && 1 <= n <= 8
    modifies mem`model, mem`arena, mem`budget, mem.Arrays()
    ensures mem.Ok() && fresh(mem.Arrays() - old(mem.Arrays()))
    ensures Settled(old(mem.model), mem.model, 8 * i + off, n, v, r)
    ensures CacheOk(mem.model, after) && HandleOk(mem.model, h)
    ensures if old(Find(mem, h, i, off, n)).Array? then after.first.page == i / 512 && after.second == c.first
            else after == c
  {
    var found := Find(mem, h, i, off, n);
    if found.Array? {
      r, after := RefillingStore(mem, h, c, found.ref, found.index, i, off, n, v);
    } else {
      after := c;
      r := MissStore(mem, h, c, 8 * i + off, n, v);
    }
  }

  /** The same site for a store: exactly its bytes change, and every entry is still right. */
  method CachedStore(mem: Memory, h: Handle, c: Cache, a: nat, n: nat, v: int) returns (r: Answer, after: Cache)
    requires mem.Ok() && HandleOk(mem.model, h) && CacheOk(mem.model, c) && 1 <= n <= 8
    modifies mem`model, mem`arena, mem`budget, mem.Arrays()
    ensures mem.Ok() && fresh(mem.Arrays() - old(mem.Arrays()))
    ensures Settled(old(mem.model), mem.model, a, n, v, r)
    ensures CacheOk(mem.model, after) && HandleOk(mem.model, h)
    ensures Remembers(c, after, a / 4096, old(Direct(mem, h, c, a / 8, a % 8, n)))
  {
    var i, off := a / 8, a % 8;
    r, after := CachedStoreAt(mem, h, c, i, off, n, v);
  }

  method CachedStoreAt(mem: Memory, h: Handle, c: Cache, i: nat, off: nat, n: nat, v: int)
    returns (r: Answer, after: Cache)
    requires mem.Ok() && HandleOk(mem.model, h) && CacheOk(mem.model, c) && off < 8 && 1 <= n <= 8
    modifies mem`model, mem`arena, mem`budget, mem.Arrays()
    ensures mem.Ok() && fresh(mem.Arrays() - old(mem.Arrays()))
    ensures Settled(old(mem.model), mem.model, 8 * i + off, n, v, r)
    ensures CacheOk(mem.model, after) && HandleOk(mem.model, h)
    ensures Remembers(c, after, i / 512, old(Direct(mem, h, c, i, off, n)))
  {
    if off + n > 8 {
      after := c;
      r := MissStore(mem, h, c, 8 * i + off, n, v);
    } else if i / 512 == c.first.page {
      after := c;
      r := HitStore(mem, h, after, c.first, i, off, n, v);
    } else if i / 512 == c.second.page {
      after := Cache(c.second, c.first);
      r := HitStore(mem, h, after, c.second, i, off, n, v);
    } else {
      r, after := TlbStore(mem, h, c, i, off, n, v);
    }
  }
}
