/**
 * Linear memory restored from an image: where a word is, and what it holds.
 *
 * Below the image's size a word is found through a page table with one entry
 * for each 4 KiB page. An entry is 0 while the page is still the image's, and
 * afterwards names the arena slot that holds the page. Above it a word is in a
 * growth chunk. Everything here counts 64-bit words: word `i` is bytes
 * `8 * i` to `8 * i + 7`, 512 words are a 4 KiB page, 8192 a 64 KiB one.
 */
module PagedMemory {
  import opened LittleEndian
  import opened Words

  datatype ImagePage = Zero | Bin(data: bytes)

  /**
   * The arrays of a memory. `claimed` and `published` are the two entries that
   * follow the page table: the last slot claimed and the number of arena chunks
   * announced. `arena` is the published cell, which is ahead of the count while
   * an extension is being announced. The chunks the image covers are
   * placeholders and hold nothing.
   */
  datatype Mem = Mem(pages: nat, shift: nat, img: seq<ImagePage>, tab: seq<nat>,
                     claimed: nat, published: nat, arena: seq<seq<Word>>, chunks: seq<seq<Word>>)

  // ----- the arena's layout -----

  /** Slots in arena chunk `k`, counting chunks from one: 16, 32, 64, 128, then 256. */
  function ChunkSlots(k: nat): nat {
    if k == 0 then 8 else if k == 1 then 16 else if k == 2 then 32
    else if k == 3 then 64 else if k == 4 then 128 else 256
  }

  /** Slots in the first `k` chunks. */
  function ArenaSlots(k: nat): nat {
    if k == 0 then 0 else if k == 1 then 16 else if k == 2 then 48 else if k == 3 then 112
    else if k == 4 then 240 else 240 + 256 * (k - 4)
  }

  /** The chunk slot `s` is in. */
  function ChunkOf(s: nat): nat
    requires s >= 1
  {
    if s <= 16 then 1 else if s <= 48 then 2 else if s <= 112 then 3 else if s <= 240 then 4 else 5 + (s - 241) / 256
  }

  /** Slot `s` as a table entry: its chunk above bit sixteen, its index in the chunk below. */
  function Located(s: nat): nat
    requires s >= 1
  {
    var k := ChunkOf(s);
    k * 65536 + (s - 1 - ArenaSlots(k - 1))
  }

  function ChunkIn(e: nat): nat { e / 65536 }

  function IndexIn(e: nat): nat { e % 65536 }

  /** An entry that names a slot. */
  predicate Named(e: nat) { ChunkIn(e) >= 1 && IndexIn(e) < ChunkSlots(ChunkIn(e)) }

  /** The slot an entry names. */
  function SlotOf(e: nat): nat
    requires Named(e)
  {
    ArenaSlots(ChunkIn(e) - 1) + IndexIn(e) + 1
  }

  lemma ArenaGrows(j: nat, k: nat)
    requires j < k
    ensures ArenaSlots(j) + ChunkSlots(j + 1) == ArenaSlots(j + 1) <= ArenaSlots(k)
  {
  }

  /** Entries and slots are in one-to-one correspondence, and the first `k` chunks hold the first `ArenaSlots(k)`. */
  lemma LocatedNames(s: nat)
    requires s >= 1
    ensures Named(Located(s)) && SlotOf(Located(s)) == s
    ensures ArenaSlots(ChunkIn(Located(s)) - 1) < s <= ArenaSlots(ChunkIn(Located(s)))
  {
    var k := ChunkOf(s);
    ArenaGrows(k - 1, k);
    var index := s - 1 - ArenaSlots(k - 1);
    assert 0 <= index < ChunkSlots(k);
    assert Located(s) == k * 65536 + index;
    assert ChunkIn(Located(s)) == k && IndexIn(Located(s)) == index;
  }

  lemma SlotNamesOne(e: nat, f: nat)
    requires Named(e) && Named(f) && SlotOf(e) == SlotOf(f)
    ensures e == f
  {
    if ChunkIn(e) < ChunkIn(f) {
      ArenaGrows(ChunkIn(e) - 1, ChunkIn(f) - 1);
    } else if ChunkIn(f) < ChunkIn(e) {
      ArenaGrows(ChunkIn(f) - 1, ChunkIn(e) - 1);
    }
  }

  lemma SlotInArena(e: nat, k: nat)
    requires Named(e) && SlotOf(e) <= ArenaSlots(k)
    ensures ChunkIn(e) <= k
  {
    if ChunkIn(e) > k {
      if k < ChunkIn(e) - 1 { ArenaGrows(k, ChunkIn(e) - 1); }
    }
  }

  // ----- the image -----

  predicate ValidImage(img: seq<ImagePage>) {
    forall p :: 0 <= p < |img| && img[p].Bin? ==> |img[p].data| == 65536
  }

  /** The word `W:64/little` at word `i` of the image's bytes, or 0 in a page of zeros. */
  function ImageWord(img: seq<ImagePage>, i: nat): Word
    requires ValidImage(img) && i < 8192 * |img|
  {
    if img[i / 8192].Zero? then 0 else
      var at := i % 8192 * 8;
      var data := img[i / 8192].data[at..at + 8];
      FromLEBound(data);
      assert Pow256(4) == 0x1_0000_0000;
      FromLE(data)
  }

  // ----- a memory -----

  /** Words in a growth chunk of `1 bsl shift` bytes. */
  function ChunkWords(shift: nat): (n: nat)
    requires 16 <= shift <= 20
    ensures n > 0
  {
    SplitAt(0, shift - 3);
    Shl(1, shift - 3)
  }

  /** The growth chunk word `i` is in. */
  function ChunkAt(shift: nat, i: nat): nat
    requires 16 <= shift <= 20
  {
    Shr(i, shift - 3)
  }

  /** Its index in that chunk. */
  function IndexAt(shift: nat, i: nat): nat
    requires 16 <= shift <= 20
  {
    Low(i, shift - 3)
  }

  /** Words in `n` chunks. */
  function Total(shift: nat, n: nat): nat
    requires 16 <= shift <= 20
  {
    Shl(n, shift - 3)
  }

  predicate Sized(m: Mem) {
    && 16 <= m.shift <= 20
    && ValidImage(m.img)
    && |m.img| <= m.pages
    && IndexAt(m.shift, 8192 * |m.img|) == 0
    && 8192 * m.pages <= Total(m.shift, |m.chunks|)
    && |m.tab| == 16 * |m.img|
  }

  predicate ArenaSized(arena: seq<seq<Word>>) {
    forall k :: 0 <= k < |arena| ==> |arena[k]| == 512 * ChunkSlots(k + 1)
  }

  predicate ChunksSized(m: Mem)
    requires Sized(m)
  {
    forall c :: ChunkAt(m.shift, 8192 * |m.img|) <= c < |m.chunks| ==> |m.chunks[c]| == ChunkWords(m.shift)
  }

  /** Every entry is 0 or names a slot that has been claimed. */
  predicate EntriesNamed(tab: seq<nat>, claimed: nat) {
    forall p :: 0 <= p < |tab| && tab[p] != 0 ==> Named(tab[p]) && SlotOf(tab[p]) <= claimed
  }

  /** No two pages share a slot. */
  predicate Unshared(tab: seq<nat>) {
    forall p, q :: 0 <= p < q < |tab| && tab[p] != 0 ==> tab[p] != tab[q]
  }

  predicate Valid(m: Mem) {
    && Sized(m)
    && ArenaSized(m.arena)
    && ChunksSized(m)
    && m.published <= |m.arena|
    && m.claimed <= ArenaSlots(m.published)
    && EntriesNamed(m.tab, m.claimed)
    && Unshared(m.tab)
  }

  /** Which of a memory's arrays: an arena chunk or a growth chunk, counting from zero. */
  datatype Ref = Arena(k: nat) | Chunk(c: nat)

  /** Where a word is: in the image, or at an index of an array. */
  datatype Place = InImage | At(ref: Ref, index: nat)

  function PlaceOf(m: Mem, i: nat): Place
    requires Valid(m) && i < 8192 * m.pages
  {
    if i < 8192 * |m.img| then
      var e := m.tab[i / 512];
      if e == 0 then InImage else At(Arena(ChunkIn(e) - 1), IndexIn(e) * 512 + i % 512)
    else
      At(Chunk(ChunkAt(m.shift, i)), IndexAt(m.shift, i))
  }

  predicate Exists(m: Mem, ref: Ref) {
    match ref
    case Arena(k) => k < |m.arena|
    case Chunk(c) => c < |m.chunks|
  }

  function ArrayAt(m: Mem, ref: Ref): seq<Word>
    requires Exists(m, ref)
  {
    match ref
    case Arena(k) => m.arena[k]
    case Chunk(c) => m.chunks[c]
  }

  function With(words: seq<Word>, index: nat, v: Word): seq<Word>
    requires index < |words|
  {
    words[index := v]
  }

  /** A memory with one array element changed, as `atomics:put` does it. */
  function Put(m: Mem, ref: Ref, index: nat, v: Word): Mem
    requires Exists(m, ref) && index < |ArrayAt(m, ref)|
  {
    match ref
    case Arena(k) => m.(arena := m.arena[k := With(m.arena[k], index, v)])
    case Chunk(c) => m.(chunks := m.chunks[c := With(m.chunks[c], index, v)])
  }

  /** A word that is not the image's is inside an array that exists. */
  lemma Placed(m: Mem, i: nat)
    requires Valid(m) && i < 8192 * m.pages
    ensures var at := PlaceOf(m, i); at.At? ==> Exists(m, at.ref) && at.index < |ArrayAt(m, at.ref)|
  {
    if i < 8192 * |m.img| {
      var e := m.tab[i / 512];
      if e != 0 {
        SlotWithin(m, i / 512);
      }
    } else {
      ChunkOfWord(m.shift, i, |m.chunks|);
      ChunkAbove(m.shift, 8192 * |m.img|, i);
    }
  }

  lemma SlotWithin(m: Mem, p: nat)
    requires Valid(m) && p < |m.tab| && m.tab[p] != 0
    ensures 1 <= ChunkIn(m.tab[p]) <= m.published
    ensures 512 * IndexIn(m.tab[p]) + 512 <= |m.arena[ChunkIn(m.tab[p]) - 1]|
  {
    SlotInArena(m.tab[p], m.published);
  }

  /** `i bsr shift` is below `n` chunks when `i` is below what they hold, and the index is inside the chunk. */
  lemma ChunkOfWord(shift: nat, i: nat, n: nat)
    requires 16 <= shift <= 20 && i < Total(shift, n)
    ensures ChunkAt(shift, i) < n && IndexAt(shift, i) < ChunkWords(shift)
  {
    ShrBelow(i, n, shift - 3);
    SplitAt(i, shift - 3);
  }

  lemma ChunkAbove(shift: nat, low: nat, i: nat)
    requires 16 <= shift <= 20 && low <= i
    ensures ChunkAt(shift, low) <= ChunkAt(shift, i)
  {
    ShrMonotone(low, i, shift - 3);
  }

  function WordOf(m: Mem, i: nat): Word
    requires Valid(m) && i < 8192 * m.pages
  {
    Placed(m, i);
    match PlaceOf(m, i)
    case InImage => ImageWord(m.img, i)
    case At(ref, index) => ArrayAt(m, ref)[index]
  }

  /** Two words are never in the same place. */
  lemma Apart(m: Mem, i: nat, j: nat)
    requires Valid(m) && i < 8192 * m.pages && j < 8192 * m.pages && i != j
    requires PlaceOf(m, i).At?
    ensures PlaceOf(m, i) != PlaceOf(m, j)
  {
    if i < 8192 * |m.img| && j < 8192 * |m.img| {
      var p, q := i / 512, j / 512;
      if p != q && m.tab[q] != 0 {
        assert m.tab[p] != m.tab[q];
        SlotNames(m.tab[p], m.tab[q], i % 512, j % 512);
      }
    } else if i >= 8192 * |m.img| && j >= 8192 * |m.img| {
      SplitWord(m.shift, i);
      SplitWord(m.shift, j);
    }
  }

  lemma SlotNames(e: nat, f: nat, x: nat, y: nat)
    requires e != f && x < 512 && y < 512
    ensures ChunkIn(e) != ChunkIn(f) || IndexIn(e) * 512 + x != IndexIn(f) * 512 + y
  {
    assert e == ChunkIn(e) * 65536 + IndexIn(e) && f == ChunkIn(f) * 65536 + IndexIn(f);
  }

  lemma SplitWord(shift: nat, i: nat)
    requires 16 <= shift <= 20
    ensures i == Total(shift, ChunkAt(shift, i)) + IndexAt(shift, i) && IndexAt(shift, i) < ChunkWords(shift)
  {
    SplitAt(i, shift - 3);
  }

  lemma PutValid(m: Mem, ref: Ref, index: nat, v: Word)
    requires Valid(m) && Exists(m, ref) && index < |ArrayAt(m, ref)|
    ensures Valid(Put(m, ref, index, v))
    ensures forall i: nat :: i < 8192 * m.pages ==> PlaceOf(Put(m, ref, index, v), i) == PlaceOf(m, i)
  {
  }

  /** Writing the element a word is in changes that word and no other. */
  lemma PutWord(m: Mem, i: nat, v: Word)
    requires Valid(m) && i < 8192 * m.pages && PlaceOf(m, i).At?
    ensures var at := PlaceOf(m, i);
      && Exists(m, at.ref) && at.index < |ArrayAt(m, at.ref)|
      && var after := Put(m, at.ref, at.index, v);
      && Valid(after)
      && forall j: nat :: j < 8192 * m.pages ==> WordOf(after, j) == if j == i then v else WordOf(m, j)
  {
    Placed(m, i);
    var at := PlaceOf(m, i);
    var after := Put(m, at.ref, at.index, v);
    PutValid(m, at.ref, at.index, v);
    forall j: nat | j < 8192 * m.pages ensures WordOf(after, j) == if j == i then v else WordOf(m, j) {
      Placed(m, j);
      if j != i { Apart(m, i, j); }
    }
  }
}
