/**
 * The arrays themselves, and the single operations on them: what the memory's
 * code reads and writes in place, tied to the value they stand for.
 */
module MemoryArrays {
  import opened Words
  import opened PagedMemory
  import opened MemorySteps
  import opened FlatMemory
  import opened MemoryStart

  ghost predicate Holding(arrays: seq<array<Word>>, words: seq<seq<Word>>)
    reads arrays
  {
    |arrays| == |words| && forall k :: 0 <= k < |arrays| ==> arrays[k][..] == words[k]
  }

  /** Every atomics array is a different one. */
  predicate Distinct(tab: array<nat>, arena: seq<array<Word>>, chunks: seq<array<Word>>) {
    && (forall k :: 0 <= k < |arena| ==> (arena[k] as object) != tab)
    && (forall c :: 0 <= c < |chunks| ==> (chunks[c] as object) != tab)
    && (forall j, k :: 0 <= j < k < |arena| ==> arena[j] != arena[k])
    && (forall b, c :: 0 <= b < c < |chunks| ==> chunks[b] != chunks[c])
    && (forall k, c :: 0 <= k < |arena| && 0 <= c < |chunks| ==> arena[k] != chunks[c])
  }

  function WithArray(m: Mem, ref: Ref, words: seq<Word>): Mem
    requires Exists(m, ref)
  {
    match ref
    case Arena(k) => m.(arena := m.arena[k := words])
    case Chunk(c) => m.(chunks := m.chunks[c := words])
  }

  method ScatterRun(a: array<Word>, index: nat, run: seq<Word>)
    requires index + |run| <= a.Length
    modifies a
    ensures a[..] == WithRun(old(a[..]), index, run)
  {
    var n := 0;
    while n < |run|
      invariant n <= |run|
      invariant forall y :: 0 <= y < a.Length ==> a[y] == if index <= y < index + n then run[y - index] else old(a[y])
    {
      a[index + n] := run[n];
      n := n + 1;
    }
  }

  /** Empty arrays in the place of the image's chunks, and chunks of zeros. */
  method StartArrays(mapped: nat, more: nat, shift: nat) returns (chunks: seq<array<Word>>)
    requires 16 <= shift <= 20
    ensures fresh(chunks) && Holding(chunks, StartChunks(mapped, more, shift))
    ensures forall b, c :: 0 <= b < c < |chunks| ==> chunks[b] != chunks[c]
  {
    chunks := [];
    while |chunks| < mapped + more
      invariant |chunks| <= mapped + more && fresh(chunks)
      invariant forall c :: 0 <= c < |chunks| ==> chunks[c][..] == StartChunks(mapped, more, shift)[c]
      invariant forall b, c :: 0 <= b < c < |chunks| ==> chunks[b] != chunks[c]
    {
      var a := new Word[if |chunks| < mapped then 0 else ChunkWords(shift)](_ => 0);
      assert a[..] == StartChunks(mapped, more, shift)[|chunks|];
      chunks := chunks + [a];
    }
  }

  lemma StartDistinct(tab: array<nat>, chunks: seq<array<Word>>)
    requires forall b, c :: 0 <= b < c < |chunks| ==> chunks[b] != chunks[c]
    requires forall c :: 0 <= c < |chunks| ==> (chunks[c] as object) != tab
    ensures Distinct(tab, [], chunks)
  {
  }

  method StartTable(n: nat) returns (tab: array<nat>)
    ensures fresh(tab) && tab[..] == Unmapped(n) + [0, 0]
  {
    tab := new nat[16 * n + 2](_ => 0);
  }

  class Memory {
    const shift: nat
    const img: seq<ImagePage>
    /** Sixteen entries for each image page, then the last slot claimed and the number of arena chunks. */
    const tab: array<nat>
    var pages: nat
    /** The published arena chunks, and the growth chunks: an empty array where the image is. */
    var arena: seq<array<Word>>
    var chunks: seq<array<Word>>
    /** Pages the node will still grant. */
    var budget: nat

    /** The memory these stand for. */
    ghost var model: Mem

    ghost function Arrays(): set<object>
      reads `arena, `chunks
    {
      {tab} + (set a: array<Word> | a in arena) + (set a: array<Word> | a in chunks)
    }

    /** No two arrays are the same, and each holds what the model says. */
    ghost predicate Linked()
      reads this, Arrays()
    {
      && tab.Length == 16 * |img| + 2
      && Distinct(tab, arena, chunks)
      && model.pages == pages && model.shift == shift && model.img == img
      && tab[..] == model.tab + [model.claimed, model.published]
      && Holding(arena, model.arena) && Holding(chunks, model.chunks)
    }

    ghost predicate Ok()
      reads this, Arrays()
    {
      Linked() && Sound(model)
    }

    /** A memory over an image, of which nothing is copied, or over none when it has no pages. */
    constructor (image: seq<ImagePage>, min: nat, left: nat)
      requires ValidImage(image)
      ensures Ok() && fresh(tab) && fresh(arena) && fresh(chunks) && model == Start(image, min) && budget == left
    {
      var size := StartPages(image, min);
      var bits := StartShift(|image|, size);
      var made := StartArrays(ChunksFor(8192 * |image|, bits), MoreChunks(|image|, size, bits), bits);
      var table := StartTable(|image|);
      shift, img, pages, budget := bits, image, size, left;
      tab, arena, chunks := table, [], made;
      model := Start(image, min);
      StartSound(image, min);
      new;
      StartDistinct(table, made);
    }

    function Get(ref: Ref, index: nat): (v: Word)
      requires Linked() && Exists(model, ref) && index < |ArrayAt(model, ref)|
      reads this, Arrays()
      ensures v == ArrayAt(model, ref)[index]
    {
      match ref
      case Arena(k) => arena[k][index]
      case Chunk(c) => chunks[c][index]
    }

    method PutAt(ref: Ref, index: nat, v: Word)
      requires Linked() && Exists(model, ref) && index < |ArrayAt(model, ref)|
      modifies `model, Arrays()
      ensures Linked() && model == Put(old(model), ref, index, v)
    {
      match ref {
        case Arena(k) =>
          arena[k][index] := v;
        case Chunk(c) =>
          chunks[c][index] := v;
      }
      model := Put(model, ref, index, v);
    }

    /** A run of whole words inside one array. */
    method PutRun(ref: Ref, index: nat, run: seq<Word>)
      requires Linked() && Exists(model, ref) && index + |run| <= |ArrayAt(model, ref)|
      modifies `model, Arrays()
      ensures Linked() && model == WithArray(old(model), ref, WithRun(ArrayAt(old(model), ref), index, run))
    {
      match ref {
        case Arena(k) => ScatterRun(arena[k], index, run);
        case Chunk(c) => ScatterRun(chunks[c], index, run);
      }
      model := WithArray(model, ref, WithRun(ArrayAt(model, ref), index, run));
    }

    // ----- the page table -----

    /** `atomics:compare_exchange`: what the entry held. */
    method Exchange(ix: nat, was: nat, to: nat) returns (found: nat)
      requires Linked() && ix < 16 * |img| + 2 && |model.tab| == 16 * |img|
      modifies `model, tab
      ensures Linked() && found == old(tab[ix])
      ensures model == if found != was then old(model)
                       else if ix < 16 * |img| then PublishPage(old(model), ix, to)
                       else if ix == 16 * |img| then old(model).(claimed := to)
                       else Raise(old(model), to)
    {
      found := tab[ix];
      if found == was {
        tab[ix] := to;
        model := if ix < 16 * |img| then PublishPage(model, ix, to)
                 else if ix == 16 * |img| then model.(claimed := to)
                 else Raise(model, to);
      }
    }

    // ----- the arena -----

    /** New chunks after the published ones, charged to the node first, and then the count. */
    method ExtendArena(target: nat) returns (ok: bool)
      requires Ok()
      modifies `model, `arena, `budget, tab
      ensures Ok() && fresh(Arrays() - old(Arrays())) && Silent(old(model), model)
      ensures model.tab == old(model).tab && model.claimed == old(model).claimed
      ensures ok ==> model.published >= target
      ensures !ok ==> model == old(model)
      ensures ok == (|old(model).arena| >= target || ArenaPages(|old(model).arena|, target) <= old(budget))
      ensures budget == if ok && |old(model).arena| < target then old(budget) - ArenaPages(|old(model).arena|, target)
                        else old(budget)
    {
      ok := ReserveAndAppend(target);
      if ok {
        ghost var before := model;
        RaiseCount();
        SilentOn(old(model), before, model);
      }
    }

    method ReserveAndAppend(target: nat) returns (ok: bool)
      requires Ok()
      modifies `model, `arena, `budget
      ensures Ok() && fresh(Arrays() - old(Arrays())) && Silent(old(model), model)
      ensures ok == (|old(model).arena| >= target || ArenaPages(|old(model).arena|, target) <= old(budget))
      ensures if ok && |old(model).arena| < target
              then model == Extend(old(model), target) && budget == old(budget) - ArenaPages(|old(model).arena|, target)
              else model == old(model) && budget == old(budget)
    {
      NoChangeIsSilent(model);
      if |arena| >= target {
        return true;
      }
      var need := ArenaPages(|arena|, target);
      if need > budget {
        return false;
      }
      budget := budget - need;
      Append(target);
      ok := true;
    }

    /** The count moves only after the cell holds the chunks, and only up. */
    method RaiseCount()
      requires Ok()
      modifies `model, tab
      ensures Ok() && Silent(old(model), model) && model == Raise(old(model), |arena|)
    {
      RaiseIsSilent(model, |arena|);
      TailKept(model, Raise(model, |arena|));
      var was := tab[16 * |img| + 1];
      if was < |arena| {
        var _ := Exchange(16 * |img| + 1, was, |arena|);
      }
    }

    method Append(target: nat)
      requires Ok() && |arena| <= target
      modifies `model, `arena
      ensures Ok() && fresh(Arrays() - old(Arrays()))
      ensures model == Extend(old(model), target) && Silent(old(model), model)
    {
      ghost var m := model;
      ExtendIsSilent(m, target);
      TailKept(m, Extend(m, target));
      var more := NewChunks(|arena|, target);
      arena := arena + more;
      model := Extend(m, target);
    }

    // ----- the first write to a page -----

    /** A slot taken only when the published arena has room for it; 0 when the node refuses the room. */
    method ClaimSlot(ghost p: nat) returns (s: nat)
      requires Ok() && p < 16 * |img|
      modifies `model, `arena, `budget, tab
      ensures Ok() && fresh(Arrays() - old(Arrays())) && Silent(old(model), model) && model.tab == old(model).tab
      ensures s > 0 ==> model.claimed == s == old(model).claimed + 1
                        && Spare(model, Located(s)) && PartFilled(model, p, Located(s), 0)
      ensures s == 0 ==> model == old(model) && budget == old(budget) && Refused(model, budget)
    {
      var n := tab[16 * |img|];
      if n + 1 > ArenaSlots(tab[16 * |img| + 1]) {
        var ok := ExtendArena(ChunkOf(n + 1));
        if !ok {
          return 0;
        }
        RoomInChunk(n + 1, model.published);
      } else {
        NoChangeIsSilent(model);
      }
      ghost var m := model;
      TakeNext(p);
      SilentOn(old(model), m, model);
      s := n + 1;
    }

    method TakeNext(ghost p: nat)
      requires Ok() && p < 16 * |img| && model.claimed + 1 <= ArenaSlots(model.published)
      modifies `model, tab
      ensures Ok() && Silent(old(model), model) && model == Claim(old(model))
      ensures Spare(model, Located(model.claimed)) && PartFilled(model, p, Located(model.claimed), 0)
    {
      ghost var m := model;
      var n := tab[16 * |img|];
      TakenSlot(m, p, n);
      ClaimIsSilent(m);
      TailKept(m, Claim(m));
      var _ := Exchange(16 * |img|, n, n + 1);
    }

    /** The image's words of page `p` into slot `e`. */
    method FillSlot(e: nat, p: nat)
      requires Ok() && p < 16 * |img| && Spare(model, e) && PartFilled(model, p, e, 0)
      modifies `model, Arrays()
      ensures Ok() && Silent(old(model), model) && model.tab == old(model).tab
      ensures Spare(model, e) && Holds(model, p, e) && model.claimed == old(model).claimed
    {
      ghost var m := model;
      NoChangeIsSilent(m);
      var skip := AllZero(p);
      if skip {
        ZeroHolds(m, p, e);
        return;
      }
      FilledSlotIsSilent(m, p, e);
      FilledSlotZeros(m, p, e);
      PutRun(Arena(ChunkIn(e) - 1), IndexIn(e) * 512, PageWords(img, p));
      assert model == FilledSlot(m, p, e);
    }

    /** Whether a page of the image is all zeros. */
    method AllZero(p: nat) returns (zero: bool)
      requires ValidImage(img) && p < 16 * |img|
      ensures zero <==> ZeroPage(img, p)
    {
      if img[p / 16].Zero? {
        return true;
      }
      var x := 0;
      while x < 512
        invariant x <= 512 && forall i: nat :: 512 * p <= i < 512 * p + x ==> ImageWord(img, i) == 0
      {
        if ImageWord(img, 512 * p + x) != 0 {
          assert (512 * p + x) / 512 == p;
          return false;
        }
        x := x + 1;
      }
      zero := true;
    }

    /** The slot of page `p`, made now if the page is still the image's; 0 when the node refuses the room. */
    method EnsurePrivate(p: nat) returns (e: nat)
      requires Ok() && p < 16 * |img|
      modifies `model, `arena, `budget, Arrays()
      ensures Ok() && fresh(Arrays() - old(Arrays())) && Silent(old(model), model)
      ensures e == model.tab[p]
      ensures e == 0 ==> model == old(model) && Refused(model, budget)
      ensures forall q :: 0 <= q < 16 * |img| && q != p ==> model.tab[q] == old(model).tab[q]
    {
      NoChangeIsSilent(model);
      e := tab[p];
      if e == 0 {
        e := Fault(p);
      }
    }

    method Fault(p: nat) returns (e: nat)
      requires Ok() && p < 16 * |img| && tab[p] == 0
      modifies `model, `arena, `budget, Arrays()
      ensures Ok() && fresh(Arrays() - old(Arrays())) && Silent(old(model), model)
      ensures model.tab == if e == 0 then old(model).tab else old(model).tab[p := e]
      ensures e == 0 ==> model == old(model) && Refused(model, budget)
    {
      var s := ClaimSlot(p);
      if s == 0 {
        return 0;
      }
      ghost var m := model;
      e := FillAndPublish(p, Located(s));
      SilentOn(old(model), m, model);
    }

    method FillAndPublish(p: nat, e: nat) returns (winner: nat)
      requires Ok() && p < 16 * |img| && tab[p] == 0 && Spare(model, e) && PartFilled(model, p, e, 0)
      modifies `model, Arrays()
      ensures Ok() && Silent(old(model), model) && winner != 0 && model.tab == old(model).tab[p := winner]
    {
      FillSlot(e, p);
      ghost var m := model;
      winner := PublishSlot(p, e);
      SilentOn(old(model), m, model);
    }

    method PublishSlot(p: nat, e: nat) returns (winner: nat)
      requires Ok() && p < 16 * |img| && Spare(model, e) && Holds(model, p, e)
      modifies `model, tab
      ensures Ok() && Silent(old(model), model) && winner == model.tab[p] != 0
      ensures model.tab == if old(tab[p]) == 0 then old(model).tab[p := e] else old(model).tab
    {
      ghost var m := model;
      NoChangeIsSilent(m);
      if tab[p] == 0 {
        PublishIsSilent(m, p, e);
        TailKept(m, PublishPage(m, p, e));
      }
      var found := Exchange(p, 0, e);
      winner := if found == 0 then e else found;
    }
  }

  /** The pages are charged to the node first; `page_limit` makes no memory. */
  method Create(image: seq<ImagePage>, min: nat, budget: nat) returns (mem: Memory?)
    requires ValidImage(image)
    ensures mem == null <==> min > budget || |image| > budget
    ensures mem != null ==> mem.Ok() && mem.img == image
    ensures mem != null ==> mem.pages >= min && mem.pages >= |image| && (mem.pages == min || mem.pages == |image|)
    ensures mem != null ==> fresh(mem) && fresh(mem.tab) && fresh(mem.arena) && fresh(mem.chunks)
    ensures mem != null ==> mem.budget == budget - mem.pages
    ensures mem != null ==> Bytes(mem.model) == Contents(image) + seq(65536 * (mem.pages - |image|), _ => 0)
  {
    var pages := StartPages(image, min);
    if pages > budget {
      return null;
    }
    StartReads(image, min);
    mem := new Memory(image, min, budget - pages);
  }

  /** The next slot needs an arena chunk the node will not grant. */
  ghost predicate Refused(m: Mem, budget: nat) {
    && m.claimed + 1 > ArenaSlots(m.published) && |m.arena| < ChunkOf(m.claimed + 1)
    && ArenaPages(|m.arena|, ChunkOf(m.claimed + 1)) > budget
  }

  lemma RoomInChunk(s: nat, k: nat)
    requires s >= 1 && ChunkOf(s) <= k
    ensures s <= ArenaSlots(k)
  {
    LocatedNames(s);
    if ChunkOf(s) < k { ArenaGrows(ChunkOf(s), k); }
  }

  method NewChunks(have: nat, target: nat) returns (more: seq<array<Word>>)
    requires have <= target
    ensures |more| == target - have && fresh(more)
    ensures forall k :: 0 <= k < |more| ==> more[k][..] == Zeros(512 * ChunkSlots(have + k + 1))
    ensures forall j, k :: 0 <= j < k < |more| ==> more[j] != more[k]
  {
    more := [];
    while have + |more| < target
      invariant have + |more| <= target && fresh(more)
      invariant forall k :: 0 <= k < |more| ==> more[k][..] == Zeros(512 * ChunkSlots(have + k + 1))
      invariant forall j, k :: 0 <= j < k < |more| ==> more[j] != more[k]
    {
      var a := new Word[512 * ChunkSlots(have + |more| + 1)](_ => 0);
      assert a[..] == Zeros(512 * ChunkSlots(have + |more| + 1));
      more := more + [a];
    }
  }

  /** 64 KiB pages in arena chunks `have + 1` to `target`. */
  function ArenaPages(have: nat, target: nat): nat
    requires have <= target
    decreases target - have
  {
    if have == target then 0 else ChunkSlots(have + 1) * 4096 / 65536 + ArenaPages(have + 1, target)
  }

  /** Words in these arena chunks. */
  function WordsIn(arena: seq<seq<Word>>): nat {
    if arena == [] then 0 else WordsIn(arena[..|arena| - 1]) + |arena[|arena| - 1]|
  }

  /** What an extension of the arena is charged for is the bytes of its new arrays, exactly. */
  lemma {:induction false} ArenaCost(arena: seq<seq<Word>>, target: nat)
    requires |arena| <= target
    ensures 65536 * ArenaPages(|arena|, target) == 8 * (WordsIn(NewArena(arena, target)) - WordsIn(arena))
    decreases target - |arena|
  {
    if |arena| == target {
      assert NewArena(arena, target) == arena;
    } else {
      var one := arena + [Zeros(512 * ChunkSlots(|arena| + 1))];
      assert one[..|arena|] == arena;
      assert NewArena(one, target) == NewArena(arena, target);
      ArenaCost(one, target);
      ChunkCost(|arena| + 1);
    }
  }

  /** A chunk is a whole number of 64 KiB pages. */
  lemma ChunkCost(k: nat)
    requires k >= 1
    ensures 65536 * (ChunkSlots(k) * 4096 / 65536) == 8 * |Zeros(512 * ChunkSlots(k))|
  {
  }
}
