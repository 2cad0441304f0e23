/**
 * The changes memory's arrays go through, one at a time, and what each leaves
 * readable. Only writing a word that has a place changes what is read.
 */
module MemorySteps {
  import opened Words
  import opened PagedMemory

  // ----- what never changes -----

  /** Nothing that can be found stops being where it was, and nothing readable goes away. */
  ghost predicate Stays(m: Mem, after: Mem) {
    && Valid(m) && Valid(after)
    && after.img == m.img && after.shift == m.shift
    && m.pages <= after.pages && m.claimed <= after.claimed && m.published <= after.published
    && |m.arena| <= |after.arena| && |m.chunks| <= |after.chunks|
    && (forall p :: 0 <= p < |m.tab| && m.tab[p] != 0 ==> after.tab[p] == m.tab[p])
    && forall i: nat :: i < 8192 * m.pages && PlaceOf(m, i).At? ==> PlaceOf(after, i) == PlaceOf(m, i)
  }

  ghost predicate SameWords(m: Mem, after: Mem) {
    && Valid(m) && Valid(after) && m.pages <= after.pages
    && forall i: nat :: i < 8192 * m.pages ==> WordOf(after, i) == WordOf(m, i)
  }

  /** A change nobody can read. */
  ghost predicate Silent(m: Mem, after: Mem) {
    Stays(m, after) && SameWords(m, after) && after.pages == m.pages
  }

  // ----- slots -----

  predicate InArena(arena: seq<seq<Word>>, e: nat) { Named(e) && ChunkIn(e) <= |arena| }

  /** Word `x` of the slot an entry names. */
  function SlotWord(arena: seq<seq<Word>>, e: nat, x: nat): Word
    requires ArenaSized(arena) && InArena(arena, e) && x < 512
  {
    arena[ChunkIn(e) - 1][IndexIn(e) * 512 + x]
  }

  /** Slots nobody has claimed hold zeros. */
  ghost predicate FreshZero(m: Mem)
    requires ArenaSized(m.arena)
  {
    forall e: nat, x: nat ::
      x < 512 && InArena(m.arena, e) && m.claimed < SlotOf(e) ==> SlotWord(m.arena, e, x) == 0
  }

  /** Word `x` of growth chunk `c` is above the memory's size. */
  predicate InTail(m: Mem, c: nat, x: nat)
    requires Valid(m)
  {
    && ChunkAt(m.shift, 8192 * |m.img|) <= c < |m.chunks| && x < ChunkWords(m.shift)
    && 8192 * m.pages <= Total(m.shift, c) + x
  }

  /** So does every word of a growth chunk that is above the memory's size. */
  ghost predicate ZeroTail(m: Mem)
    requires Valid(m)
  {
    forall c: nat, x: nat ::
      InTail(m, c, x) ==> m.chunks[c][x] == 0
  }

  /** A memory between operations. */
  ghost predicate Sound(m: Mem) { Valid(m) && FreshZero(m) && ZeroTail(m) }

  /** Page `p` of the image is what the slot `e` holds. */
  ghost predicate Holds(m: Mem, p: nat, e: nat)
    requires Valid(m) && p < |m.tab| && InArena(m.arena, e)
  {
    forall x: nat :: x < 512 ==> SlotWord(m.arena, e, x) == ImageWord(m.img, 512 * p + x)
  }

  // ----- the steps -----

  /** One word of a slot no page is in. */
  function FillWord(m: Mem, e: nat, x: nat, v: Word): Mem
    requires Valid(m) && InArena(m.arena, e) && x < 512
  {
    Put(m, Arena(ChunkIn(e) - 1), IndexIn(e) * 512 + x, v)
  }

  lemma FillIsSilent(m: Mem, e: nat, x: nat, v: Word)
    requires Valid(m) && InArena(m.arena, e) && x < 512 && e !in m.tab
    ensures Silent(m, FillWord(m, e, x, v))
  {
    var after := FillWord(m, e, x, v);
    assert Valid(after);
    forall i: nat | i < 8192 * m.pages ensures PlaceOf(after, i) == PlaceOf(m, i) && WordOf(after, i) == WordOf(m, i) {
      assert PlaceOf(after, i) == PlaceOf(m, i);
      Placed(m, i);
      if i < 8192 * |m.img| && m.tab[i / 512] != 0 {
        SlotNames(m.tab[i / 512], e, i % 512, x);
      }
    }
  }

  lemma FillOthers(m: Mem, e: nat, x: nat, v: Word, f: nat, y: nat)
    requires Valid(m) && InArena(m.arena, e) && x < 512 && InArena(m.arena, f) && y < 512
    ensures ArenaSized(FillWord(m, e, x, v).arena)
    ensures SlotWord(FillWord(m, e, x, v).arena, f, y) == if f == e && y == x then v else SlotWord(m.arena, f, y)
  {
    if f != e { SlotNames(e, f, x, y); }
  }

  /** The compare-and-exchange that makes a page private. */
  function PublishPage(m: Mem, p: nat, e: nat): Mem
    requires p < |m.tab|
  {
    m.(tab := m.tab[p := e])
  }

  lemma PublishIsSilent(m: Mem, p: nat, e: nat)
    requires Valid(m) && p < |m.tab| && m.tab[p] == 0
    requires InArena(m.arena, e) && SlotOf(e) <= m.claimed && e !in m.tab && Holds(m, p, e)
    ensures Silent(m, PublishPage(m, p, e))
  {
    var after := PublishPage(m, p, e);
    assert Valid(after);
    forall i: nat | i < 8192 * m.pages
      ensures (PlaceOf(m, i).At? ==> PlaceOf(after, i) == PlaceOf(m, i)) && WordOf(after, i) == WordOf(m, i)
    {
      Placed(m, i);
      Placed(after, i);
      if i / 512 == p {
        assert i == 512 * p + i % 512;
        assert SlotWord(m.arena, e, i % 512) == ImageWord(m.img, 512 * p + i % 512);
      } else if i < 8192 * |m.img| {
        assert after.tab[i / 512] == m.tab[i / 512];
      }
    }
  }

  function Claim(m: Mem): Mem { m.(claimed := m.claimed + 1) }

  lemma ClaimIsSilent(m: Mem)
    requires Valid(m) && m.claimed + 1 <= ArenaSlots(m.published)
    ensures Silent(m, Claim(m))
  {
    var after := Claim(m);
    assert Valid(after);
    forall i: nat | i < 8192 * m.pages ensures PlaceOf(after, i) == PlaceOf(m, i) && WordOf(after, i) == WordOf(m, i) {
      assert PlaceOf(after, i) == PlaceOf(m, i);
      Placed(m, i);
    }
  }

  function Zeros(n: nat): (z: seq<Word>)
    ensures |z| == n && forall x :: 0 <= x < n ==> z[x] == 0
  {
    seq(n, _ => 0)
  }

  /** Arena chunks up to `target`, every word zero. */
  function NewArena(arena: seq<seq<Word>>, target: nat): (longer: seq<seq<Word>>)
    requires |arena| <= target
    ensures |longer| == target && arena <= longer
    ensures forall k :: |arena| <= k < target ==> longer[k] == Zeros(512 * ChunkSlots(k + 1))
  {
    arena + seq(target - |arena|, k requires 0 <= k < target - |arena| => Zeros(512 * ChunkSlots(|arena| + k + 1)))
  }

  function Extend(m: Mem, target: nat): Mem
    requires |m.arena| <= target
  {
    m.(arena := NewArena(m.arena, target))
  }

  lemma ExtendIsSilent(m: Mem, target: nat)
    requires Valid(m) && |m.arena| <= target
    ensures Silent(m, Extend(m, target))
    ensures FreshZero(m) ==> FreshZero(Extend(m, target))
  {
    var after := Extend(m, target);
    assert Valid(after);
    forall i: nat | i < 8192 * m.pages ensures PlaceOf(after, i) == PlaceOf(m, i) && WordOf(after, i) == WordOf(m, i) {
      assert PlaceOf(after, i) == PlaceOf(m, i);
      Placed(m, i);
    }
    if FreshZero(m) {
      forall e: nat, x: nat | x < 512 && InArena(after.arena, e) && m.claimed < SlotOf(e)
        ensures SlotWord(after.arena, e, x) == 0
      {
        if InArena(m.arena, e) { assert SlotWord(m.arena, e, x) == 0; }
      }
    }
  }

  function Raise(m: Mem, to: nat): Mem { m.(published := to) }

  lemma RaiseIsSilent(m: Mem, to: nat)
    requires Valid(m) && m.published <= to <= |m.arena|
    ensures Silent(m, Raise(m, to))
  {
    var after := Raise(m, to);
    if m.published < to { ArenaGrows(m.published, to); }
    assert Valid(after);
    forall i: nat | i < 8192 * m.pages ensures PlaceOf(after, i) == PlaceOf(m, i) && WordOf(after, i) == WordOf(m, i) {
      assert PlaceOf(after, i) == PlaceOf(m, i);
      Placed(m, i);
    }
  }

  function ChunksFor(words: nat, shift: nat): nat
    requires 16 <= shift <= 20
  {
    ChunkAt(shift, words + ChunkWords(shift) - 1)
  }

  lemma ChunksEnough(words: nat, shift: nat)
    requires 16 <= shift <= 20
    ensures words <= Total(shift, ChunksFor(words, shift))
  {
    var w := words + ChunkWords(shift) - 1;
    SplitAt(w, shift - 3);
  }

  /** `memory.grow`: whole chunks are appended, and the new size is announced with them. */
  function Grow(m: Mem, delta: nat): Mem
    requires Valid(m)
  {
    var need := ChunksFor(8192 * (m.pages + delta), m.shift);
    var extra := if need <= |m.chunks| then 0 else need - |m.chunks|;
    m.(pages := m.pages + delta, chunks := m.chunks + seq(extra, _ => Zeros(ChunkWords(m.shift))))
  }

  lemma GrowValid(m: Mem, delta: nat)
    requires Valid(m)
    ensures Valid(Grow(m, delta))
  {
    var after := Grow(m, delta);
    ChunksEnough(8192 * after.pages, m.shift);
    var need := ChunksFor(8192 * after.pages, m.shift);
    ShlAdds(need, |after.chunks| - need, m.shift - 3);
  }

  /** Growing keeps every word, and every word it adds is zero. */
  lemma GrowKeeps(m: Mem, delta: nat)
    requires Valid(m) && ZeroTail(m)
    ensures var after := Grow(m, delta);
      && Stays(m, after) && SameWords(m, after) && ZeroTail(after)
      && forall i: nat :: 8192 * m.pages <= i < 8192 * after.pages ==> WordOf(after, i) == 0
  {
    var after := Grow(m, delta);
    GrowValid(m, delta);
    forall i: nat | i < 8192 * m.pages ensures PlaceOf(after, i) == PlaceOf(m, i) && WordOf(after, i) == WordOf(m, i) {
      Placed(m, i);
    }
    GrowTail(m, delta);
    forall i: nat | 8192 * m.pages <= i < 8192 * after.pages ensures WordOf(after, i) == 0 {
      Placed(after, i);
      SplitWord(m.shift, i);
      ChunkAbove(m.shift, 8192 * |m.img|, i);
      GrownWord(m, delta, ChunkAt(m.shift, i), IndexAt(m.shift, i));
    }
  }

  lemma GrownWord(m: Mem, delta: nat, c: nat, x: nat)
    requires Valid(m) && ZeroTail(m) && Valid(Grow(m, delta))
    requires ChunkAt(m.shift, 8192 * |m.img|) <= c < |Grow(m, delta).chunks| && x < ChunkWords(m.shift)
    requires 8192 * m.pages <= Total(m.shift, c) + x
    ensures Grow(m, delta).chunks[c][x] == 0
  {
    if c < |m.chunks| { assert InTail(m, c, x); }
  }

  lemma GrowTail(m: Mem, delta: nat)
    requires Valid(m) && ZeroTail(m) && Valid(Grow(m, delta))
    ensures ZeroTail(Grow(m, delta))
  {
    var after := Grow(m, delta);
    forall c: nat, x: nat | InTail(after, c, x) ensures after.chunks[c][x] == 0
    {
      GrownWord(m, delta, c, x);
    }
  }

  lemma PutStays(m: Mem, i: nat, v: Word)
    requires Valid(m) && i < 8192 * m.pages && PlaceOf(m, i).At?
    ensures var at := PlaceOf(m, i);
      Exists(m, at.ref) && at.index < |ArrayAt(m, at.ref)| && Stays(m, Put(m, at.ref, at.index, v))
  {
    PutWord(m, i, v);
    var at := PlaceOf(m, i);
    var after := Put(m, at.ref, at.index, v);
    forall j: nat | j < 8192 * m.pages ensures PlaceOf(after, j) == PlaceOf(m, j) {}
  }

  lemma PutKeepsFresh(m: Mem, i: nat, v: Word)
    requires Valid(m) && FreshZero(m) && i < 8192 * |m.img| && PlaceOf(m, i).At?
    ensures var at := PlaceOf(m, i);
      && Exists(m, at.ref) && at.index < |ArrayAt(m, at.ref)|
      && var after := Put(m, at.ref, at.index, v); ArenaSized(after.arena) && FreshZero(after)
  {
    Placed(m, i);
    var e := m.tab[i / 512];
    SlotWithin(m, i / 512);
    var after := FillWord(m, e, i % 512, v);
    forall f: nat, y: nat | y < 512 && InArena(after.arena, f) && m.claimed < SlotOf(f)
      ensures SlotWord(after.arena, f, y) == 0
    {
      FillOthers(m, e, i % 512, v, f, y);
      assert SlotWord(m.arena, f, y) == 0;
    }
  }

  lemma PutKeepsTail(m: Mem, i: nat, v: Word)
    requires Valid(m) && ZeroTail(m) && 8192 * |m.img| <= i < 8192 * m.pages
    ensures var at := PlaceOf(m, i);
      && Exists(m, at.ref) && at.index < |ArrayAt(m, at.ref)|
      && var after := Put(m, at.ref, at.index, v); Valid(after) && ZeroTail(after)
  {
    PutWord(m, i, v);
    var at := PlaceOf(m, i);
    var after := Put(m, at.ref, at.index, v);
    SplitWord(m.shift, i);
    forall c: nat, x: nat | InTail(after, c, x) ensures after.chunks[c][x] == 0 {
      assert InTail(m, c, x);
    }
  }

  /** Writing a word in place leaves the reserve of zeros alone. */
  lemma PutKeepsZeros(m: Mem, i: nat, v: Word)
    requires Valid(m) && FreshZero(m) && ZeroTail(m) && i < 8192 * m.pages && PlaceOf(m, i).At?
    ensures var at := PlaceOf(m, i);
      && Exists(m, at.ref) && at.index < |ArrayAt(m, at.ref)|
      && var after := Put(m, at.ref, at.index, v); Stays(m, after) && FreshZero(after) && ZeroTail(after)
  {
    PutStays(m, i, v);
    if i < 8192 * |m.img| {
      PutKeepsFresh(m, i, v);
    } else {
      PutKeepsTail(m, i, v);
    }
  }

  // ----- filling a slot -----

  ghost predicate ZeroPage(img: seq<ImagePage>, p: nat)
    requires ValidImage(img)
  {
    forall i: nat :: i < 8192 * |img| && i / 512 == p ==> ImageWord(img, i) == 0
  }

  /** A slot that has been claimed and that no page is in. */
  predicate Spare(m: Mem, e: nat)
    requires Valid(m)
  {
    InArena(m.arena, e) && SlotOf(e) <= m.claimed && e !in m.tab
  }

  /** The first `x` words of page `p` are in the slot, and zeros after them. */
  ghost predicate PartFilled(m: Mem, p: nat, e: nat, x: nat)
    requires Valid(m) && p < |m.tab| && InArena(m.arena, e) && x <= 512
  {
    && (forall y: nat :: y < x ==> SlotWord(m.arena, e, y) == ImageWord(m.img, 512 * p + y))
    && (forall y: nat :: x <= y < 512 ==> SlotWord(m.arena, e, y) == 0)
  }

  lemma TailKept(m: Mem, after: Mem)
    requires Valid(m) && Valid(after) && ZeroTail(m)
    requires after.chunks == m.chunks && after.pages == m.pages && after.img == m.img && after.shift == m.shift
    ensures ZeroTail(after)
  {
    forall c: nat, x: nat | InTail(after, c, x) ensures after.chunks[c][x] == 0 { assert InTail(m, c, x); }
  }

  /** A slot just claimed is in no page, and all zeros. */
  lemma TakenSlot(m: Mem, p: nat, n: nat)
    requires Valid(m) && FreshZero(m) && p < |m.tab| && m.claimed == n && n + 1 <= ArenaSlots(m.published)
    ensures var after, e := Claim(m), Located(n + 1);
      Valid(after) && FreshZero(after) && Spare(after, e) && SlotOf(e) == n + 1 && PartFilled(after, p, e, 0)
  {
    var e := Located(n + 1);
    LocatedNames(n + 1);
    SlotInArena(e, m.published);
    assert e !in m.tab;
    forall y: nat | y < 512 ensures SlotWord(m.arena, e, y) == 0 {
      assert InArena(m.arena, e) && m.claimed < SlotOf(e);
    }
  }

  lemma ZeroHolds(m: Mem, p: nat, e: nat)
    requires Valid(m) && p < |m.tab| && InArena(m.arena, e) && ZeroPage(m.img, p) && PartFilled(m, p, e, 0)
    ensures Holds(m, p, e)
  {
    forall x: nat | x < 512 ensures SlotWord(m.arena, e, x) == ImageWord(m.img, 512 * p + x) {
      assert (512 * p + x) / 512 == p;
    }
  }

  lemma NoChangeIsSilent(m: Mem)
    requires Valid(m)
    ensures Silent(m, m)
  {
  }

  lemma FilledMore(m: Mem, p: nat, e: nat, x: nat)
    requires Valid(m) && p < |m.tab| && x < 512 && Spare(m, e) && PartFilled(m, p, e, x)
    ensures var after := FillWord(m, e, x, ImageWord(m.img, 512 * p + x));
      && Valid(after) && Spare(after, e) && PartFilled(after, p, e, x + 1)
      && (x + 1 == 512 ==> Holds(after, p, e))
  {
    var v := ImageWord(m.img, 512 * p + x);
    PutValid(m, Arena(ChunkIn(e) - 1), IndexIn(e) * 512 + x, v);
    var after := FillWord(m, e, x, v);
    forall y: nat | y < 512 ensures SlotWord(after.arena, e, y) == if y == x then v else SlotWord(m.arena, e, y) {
      FillOthers(m, e, x, v, e, y);
    }
  }

  lemma FillKeepsFresh(m: Mem, e: nat, x: nat, v: Word)
    requires Valid(m) && FreshZero(m) && Spare(m, e) && x < 512
    ensures ArenaSized(FillWord(m, e, x, v).arena) && FreshZero(FillWord(m, e, x, v))
  {
    var after := FillWord(m, e, x, v);
    PutValid(m, Arena(ChunkIn(e) - 1), IndexIn(e) * 512 + x, v);
    forall f: nat, y: nat | y < 512 && InArena(after.arena, f) && m.claimed < SlotOf(f)
      ensures SlotWord(after.arena, f, y) == 0
    {
      FillOthers(m, e, x, v, f, y);
      assert SlotWord(m.arena, f, y) == 0;
    }
  }

  /** One more word of a page copied: nothing shows, and the reserve of zeros is kept. */
  lemma CopiedWord(m: Mem, p: nat, e: nat, x: nat)
    requires Valid(m) && FreshZero(m) && ZeroTail(m)
    requires p < |m.tab| && x < 512 && Spare(m, e) && PartFilled(m, p, e, x)
    ensures var after := FillWord(m, e, x, ImageWord(m.img, 512 * p + x));
      && Silent(m, after) && FreshZero(after) && ZeroTail(after)
      && Spare(after, e) && PartFilled(after, p, e, x + 1) && (x + 1 == 512 ==> Holds(after, p, e))
  {
    var v := ImageWord(m.img, 512 * p + x);
    FillIsSilent(m, e, x, v);
    FilledMore(m, p, e, x);
    FillKeepsFresh(m, e, x, v);
    TailKept(m, FillWord(m, e, x, v));
  }

  /** The words of page `p` of the image. */
  function PageWords(img: seq<ImagePage>, p: nat): (words: seq<Word>)
    requires ValidImage(img) && p < 16 * |img|
    ensures |words| == 512 && forall x :: 0 <= x < 512 ==> words[x] == ImageWord(img, 512 * p + x)
  {
    seq<Word>(512, x requires 0 <= x < 512 => ImageWord(img, 512 * p + x))
  }

  function WithRun(words: seq<Word>, index: nat, run: seq<Word>): (after: seq<Word>)
    requires index + |run| <= |words|
    ensures |after| == |words|
    ensures forall y :: 0 <= y < |words| ==> after[y] == if index <= y < index + |run| then run[y - index] else words[y]
  {
    words[..index] + run + words[index + |run|..]
  }

  /** A whole page copied into a slot. */
  function FilledSlot(m: Mem, p: nat, e: nat): Mem
    requires Valid(m) && p < |m.tab| && InArena(m.arena, e)
  {
    var k := ChunkIn(e) - 1;
    m.(arena := m.arena[k := WithRun(m.arena[k], IndexIn(e) * 512, PageWords(m.img, p))])
  }

  lemma SlotsApart(e: nat, f: nat, y: nat)
    requires e != f && y < 512
    ensures ChunkIn(e) == ChunkIn(f) ==> !(IndexIn(e) * 512 <= IndexIn(f) * 512 + y < IndexIn(e) * 512 + 512)
  {
    assert e == ChunkIn(e) * 65536 + IndexIn(e) && f == ChunkIn(f) * 65536 + IndexIn(f);
  }

  lemma FilledSlotWord(m: Mem, p: nat, e: nat, f: nat, y: nat)
    requires Valid(m) && p < |m.tab| && InArena(m.arena, e) && InArena(m.arena, f) && y < 512
    ensures ArenaSized(FilledSlot(m, p, e).arena)
    ensures SlotWord(FilledSlot(m, p, e).arena, f, y)
         == if f == e then ImageWord(m.img, 512 * p + y) else SlotWord(m.arena, f, y)
  {
    if f != e { SlotsApart(e, f, y); }
  }

  lemma FilledSlotIsSilent(m: Mem, p: nat, e: nat)
    requires Valid(m) && p < |m.tab| && Spare(m, e)
    ensures var after := FilledSlot(m, p, e); Silent(m, after) && Spare(after, e) && Holds(after, p, e)
  {
    var after := FilledSlot(m, p, e);
    assert Valid(after);
    forall i: nat | i < 8192 * m.pages ensures PlaceOf(after, i) == PlaceOf(m, i) && WordOf(after, i) == WordOf(m, i) {
      assert PlaceOf(after, i) == PlaceOf(m, i);
      Placed(m, i);
      if i < 8192 * |m.img| && m.tab[i / 512] != 0 {
        SlotWithin(m, i / 512);
        FilledSlotWord(m, p, e, m.tab[i / 512], i % 512);
      }
    }
    forall y: nat | y < 512 ensures SlotWord(after.arena, e, y) == ImageWord(m.img, 512 * p + y) {
      FilledSlotWord(m, p, e, e, y);
    }
  }

  lemma FilledSlotZeros(m: Mem, p: nat, e: nat)
    requires Valid(m) && FreshZero(m) && ZeroTail(m) && p < |m.tab| && Spare(m, e)
    ensures var after := FilledSlot(m, p, e); Valid(after) && FreshZero(after) && ZeroTail(after)
  {
    var after := FilledSlot(m, p, e);
    FilledSlotIsSilent(m, p, e);
    TailKept(m, after);
    forall f: nat, y: nat | y < 512 && InArena(after.arena, f) && m.claimed < SlotOf(f)
      ensures SlotWord(after.arena, f, y) == 0
    {
      FilledSlotWord(m, p, e, f, y);
      assert SlotWord(m.arena, f, y) == 0;
    }
  }

  lemma StaysOn(a: Mem, b: Mem, c: Mem)
    requires Stays(a, b) && Stays(b, c)
    ensures Stays(a, c)
  {
    forall i: nat | i < 8192 * a.pages && PlaceOf(a, i).At? ensures PlaceOf(c, i) == PlaceOf(a, i) {
      assert PlaceOf(b, i) == PlaceOf(a, i);
    }
  }

  lemma SilentOn(a: Mem, b: Mem, c: Mem)
    requires Silent(a, b) && Silent(b, c)
    ensures Silent(a, c)
  {
    StaysOn(a, b, c);
  }
}
