/** Cached translations, and what a handle has seen: when they are right, and why they stay right. */
module Translations {
  import opened Words
  import opened PagedMemory
  import opened MemorySteps

  /** A cached translation: a page, the array it is in and its first word there. An empty one has page -1. */
  datatype Entry = Entry(page: int, ref: Ref, base: nat)

  /** What a handle has seen: a size in pages, and how many growth and arena chunks. */
  datatype Handle = Handle(pages: nat, chunks: nat, arena: nat)

  predicate HandleOk(m: Mem, h: Handle)
    requires Valid(m)
  {
    && |m.img| <= h.pages <= m.pages && h.chunks <= |m.chunks| && h.arena <= |m.arena|
    && 8192 * h.pages <= Total(m.shift, h.chunks)
  }

  /** A cached translation is right about every word of its page. */
  ghost predicate Translates(m: Mem, c: Entry)
    requires Valid(m)
  {
    c.page >= 0 ==>
      && 512 * c.page + 511 < 8192 * m.pages
      && forall i: nat :: i / 512 == c.page ==> PlaceOf(m, i) == At(c.ref, c.base + i % 512)
  }

  /** The other words of a page follow the one that was found. */
  lemma SamePage(m: Mem, i: nat, j: nat)
    requires Valid(m) && i < 8192 * m.pages && i / 512 == j / 512 && PlaceOf(m, i).At?
    ensures j < 8192 * m.pages
    ensures var at := PlaceOf(m, i);
      i % 512 <= at.index && PlaceOf(m, j) == At(at.ref, at.index - i % 512 + j % 512)
  {
    SameRegion(m.pages, |m.img|, i, j);
    if i >= 8192 * |m.img| {
      SameChunk(m.shift, i, j);
    }
  }

  lemma SameRegion(pages: nat, img: nat, i: nat, j: nat)
    requires i / 512 == j / 512
    ensures i < 8192 * pages <==> j < 8192 * pages
    ensures i < 8192 * img <==> j < 8192 * img
  {
    PageBelow(i, pages);
    PageBelow(j, pages);
    PageBelow(i, img);
    PageBelow(j, img);
  }

  lemma PageBelow(i: nat, n: nat)
    ensures i < 8192 * n <==> i / 512 < 16 * n
  {
    if i < 8192 * n {} else {}
  }

  /** A chunk is a whole number of pages. */
  lemma SameChunk(shift: nat, i: nat, j: nat)
    requires 16 <= shift <= 20 && i / 512 == j / 512
    ensures ChunkAt(shift, i) == ChunkAt(shift, j)
    ensures i % 512 <= IndexAt(shift, i)
    ensures IndexAt(shift, j) == IndexAt(shift, i) - i % 512 + j % 512
  {
    PageInChunk(shift, i);
    PageInChunk(shift, j);
  }

  lemma PageInChunk(shift: nat, i: nat)
    requires 16 <= shift <= 20
    ensures ChunkAt(shift, i) == Shr(i / 512, shift - 12)
    ensures IndexAt(shift, i) == i % 512 + 512 * Low(i / 512, shift - 12)
  {
    PageSplit(i, shift - 12);
  }

  lemma PageSplit(i: nat, t: nat)
    ensures Shr(i, 9 + t) == Shr(i / 512, t) && Low(i, 9 + t) == i % 512 + 512 * Low(i / 512, t)
  {
    ShrAgain(i, 9, t);
    LowAgain(i, 9, t);
    Nine(i);
    Nine(Low(i / 512, t));
  }

  /** What a miss puts in the cache translates its whole page. */
  lemma RefillTranslates(m: Mem, i: nat)
    requires Valid(m) && i < 8192 * m.pages && PlaceOf(m, i).At?
    ensures var at := PlaceOf(m, i);
      i % 512 <= at.index && Translates(m, Entry(i / 512, at.ref, at.index - i % 512))
  {
    SamePage(m, i, i);
    SamePage(m, i, i / 512 * 512 + 511);
    forall j: nat | j / 512 == i / 512
      ensures j < 8192 * m.pages && PlaceOf(m, j) == At(PlaceOf(m, i).ref, PlaceOf(m, i).index - i % 512 + j % 512)
    {
      SamePage(m, i, j);
    }
  }

  /** A translation that is right is right for ever: nothing that has a place moves, and no page goes away. */
  lemma TranslatesOn(m: Mem, after: Mem, c: Entry)
    requires Stays(m, after) && Translates(m, c)
    ensures Translates(after, c)
  {
  }

  lemma HandleOn(m: Mem, after: Mem, h: Handle)
    requires Stays(m, after) && HandleOk(m, h)
    ensures HandleOk(after, h)
  {
  }
}
