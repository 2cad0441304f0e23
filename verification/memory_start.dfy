/**
 * A memory as it is made: over an image nothing is copied, and every page is
 * still the image's; what is above the image is zero.
 */
module MemoryStart {
  import opened LittleEndian
  import opened Words
  import opened PagedMemory
  import opened MemorySteps
  import opened FlatMemory

  // ----- the size of a chunk -----

  /**
   * With an image: the largest chunk, up to 1 MiB, the image's size is a
   * multiple of, found by going down from `s`. A page always is one.
   */
  function ImageShift(n: nat, s: nat): (shift: nat)
    requires 16 <= s
    ensures 16 <= shift <= s && Low(65536 * n, shift) == 0
    ensures forall t: nat :: shift < t <= s ==> Low(65536 * n, t) != 0
  {
    PagesAreWhole(n);
    if Low(65536 * n, s) == 0 then s else ImageShift(n, s - 1)
  }

  lemma PagesAreWhole(n: nat)
    ensures Low(65536 * n, 16) == 0
  {
    Nine(n);
    ShlAgain(n, 9, 7);
    assert Shl(512 * n, 7) == 65536 * n;
    LowOfShl(n, 16);
  }

  lemma {:induction false} LowOfShl(n: nat, s: nat)
    ensures Low(Shl(n, s), s) == 0
    decreases s
  {
    if s > 0 {
      ShlTwice(n, s - 1);
      LowOfShl(n, s - 1);
    }
  }

  /** Without one: the least chunk from `s` on that holds `target` bytes. */
  function RoundUpShift(s: nat, target: nat): (shift: nat)
    requires 16 <= s <= 20 && target <= 0x10_0000
    ensures s <= shift <= 20 && target <= Shl(1, shift)
    ensures forall t: nat :: s <= t < shift ==> Shl(1, t) < target
    decreases 20 - s
  {
    Megabyte();
    if Shl(1, s) >= target then s else RoundUpShift(s + 1, target)
  }

  lemma Megabyte()
    ensures Shl(1, 20) == 0x10_0000
  {
    Nine(1);
    Nine(512);
    ShlAgain(1, 9, 11);
    ShlAgain(512, 9, 2);
  }

  /** The memory's initial size, clamped to between a page and 1 MiB, rounded up. */
  function ChunkShift(pages: nat): nat {
    RoundUpShift(16, if pages == 0 then 65536 else if pages > 16 then 0x10_0000 else 65536 * pages)
  }

  function StartShift(n: nat, pages: nat): (shift: nat)
    ensures 16 <= shift <= 20
  {
    if n == 0 then ChunkShift(pages) else ImageShift(n, 20)
  }

  // ----- the memory -----

  function StartPages(img: seq<ImagePage>, min: nat): nat { if min < |img| then |img| else min }

  /**
   * A placeholder for every chunk the image covers, chunks of zeros up to the
   * memory's size, a table of zeros and an empty arena.
   */
  function Start(img: seq<ImagePage>, min: nat): Mem {
    var pages := StartPages(img, min);
    var shift := StartShift(|img|, pages);
    Mem(pages, shift, img, Unmapped(|img|), 0, 0, [],
        StartChunks(ChunksFor(8192 * |img|, shift), MoreChunks(|img|, pages, shift), shift))
  }

  function Unmapped(n: nat): seq<nat> { seq(16 * n, _ => 0) }

  /** Chunks above those the image covers. */
  function MoreChunks(n: nat, pages: nat, shift: nat): nat
    requires 16 <= shift <= 20
  {
    var mapped, all := ChunksFor(8192 * n, shift), ChunksFor(8192 * pages, shift);
    if all < mapped then 0 else all - mapped
  }

  function StartChunks(mapped: nat, more: nat, shift: nat): (chunks: seq<seq<Word>>)
    requires 16 <= shift <= 20
    ensures |chunks| == mapped + more
    ensures forall c :: 0 <= c < mapped ==> chunks[c] == []
    ensures forall c :: mapped <= c < mapped + more ==> chunks[c] == Zeros(ChunkWords(shift))
  {
    seq(mapped, _ => []) + seq(more, _ => Zeros(ChunkWords(shift)))
  }

  lemma {:induction false} ShrOfSum(q: nat, r: nat, s: nat)
    requires r < Shl(1, s)
    ensures Shr(Shl(q, s) + r, s) == q
    decreases s
  {
    if s > 0 {
      ShlTwice(q, s - 1);
      ShlTwice(1, s - 1);
      assert (2 * Shl(q, s - 1) + r) / 2 == Shl(q, s - 1) + r / 2;
      ShrOfSum(q, r / 2, s - 1);
    }
  }

  lemma WordsOf(n: nat, shift: nat)
    requires 16 <= shift <= 20 && Low(65536 * n, shift) == 0
    ensures IndexAt(shift, 8192 * n) == 0
  {
    Three(65536 * n);
    LowAgain(65536 * n, 3, shift - 3);
    assert 65536 * n / 8 == 8192 * n;
    Three(IndexAt(shift, 8192 * n));
  }

  lemma ChunksOfWhole(words: nat, shift: nat)
    requires 16 <= shift <= 20 && IndexAt(shift, words) == 0
    ensures ChunksFor(words, shift) == ChunkAt(shift, words)
  {
    SplitWord(shift, words);
    ShrOfSum(ChunkAt(shift, words), ChunkWords(shift) - 1, shift - 3);
  }

  /** The image ends exactly where a chunk does. */
  lemma ImageEndsOnChunk(n: nat, pages: nat)
    ensures var shift := StartShift(n, pages);
      IndexAt(shift, 8192 * n) == 0 && ChunksFor(8192 * n, shift) == ChunkAt(shift, 8192 * n)
  {
    var shift := StartShift(n, pages);
    if n == 0 {
      LowOfZero(shift - 3);
    } else {
      WordsOf(n, shift);
    }
    ChunksOfWhole(8192 * n, shift);
  }

  lemma {:induction false} LowOfZero(s: nat)
    ensures Low(0, s) == 0
  {
    if s > 0 { LowOfZero(s - 1); }
  }

  lemma LargerNeedsMore(words: nat, more: nat, shift: nat)
    requires 16 <= shift <= 20 && words <= more
    ensures ChunksFor(words, shift) <= ChunksFor(more, shift)
  {
    ShrMonotone(words + ChunkWords(shift) - 1, more + ChunkWords(shift) - 1, shift - 3);
  }

  lemma StartSized(img: seq<ImagePage>, min: nat)
    requires ValidImage(img)
    ensures var m := Start(img, min);
      Sized(m) && |m.chunks| == ChunksFor(8192 * m.pages, m.shift) && ChunksFor(8192 * |img|, m.shift) <= |m.chunks|
  {
    var pages := StartPages(img, min);
    var shift := StartShift(|img|, pages);
    ImageEndsOnChunk(|img|, pages);
    ChunksEnough(8192 * pages, shift);
    LargerNeedsMore(8192 * |img|, 8192 * pages, shift);
  }

  /** The memory made is one its operations can start from. */
  lemma StartSound(img: seq<ImagePage>, min: nat)
    requires ValidImage(img)
    ensures Sound(Start(img, min))
  {
    var m := Start(img, min);
    StartSized(img, min);
    ImageEndsOnChunk(|img|, m.pages);
    assert Valid(m);
    forall c: nat, x: nat | InTail(m, c, x) ensures m.chunks[c][x] == 0 {
      assert m.chunks[c] == Zeros(ChunkWords(m.shift));
    }
  }

  // ----- what can be read in it -----

  /** Byte `k` of word `i` of the image. */
  function ImageByteOf(img: seq<ImagePage>, i: nat, k: nat): byte
    requires ValidImage(img) && i < 8192 * |img| && k < 8
  {
    if img[i / 8192].Zero? then 0 else img[i / 8192].data[i % 8192 * 8 + k]
  }

  lemma ImageByte(img: seq<ImagePage>, i: nat, k: nat)
    requires ValidImage(img) && i < 8192 * |img| && k < 8
    ensures ByteAt(ImageWord(img, i), k) == ImageByteOf(img, i, k)
  {
    if img[i / 8192].Zero? {
      ZeroByte(k);
    } else {
      var at := i % 8192 * 8;
      LittleByte(img[i / 8192].data[at..at + 8], k);
    }
  }

  lemma {:induction false} ZeroByte(k: nat)
    ensures ByteAt(0, k) == 0
  {
    if k > 0 { ZeroByte(k - 1); }
  }

  /** The bytes an image was taken from: its pages one after another. */
  function Contents(img: seq<ImagePage>): (b: bytes)
    requires ValidImage(img)
    ensures |b| == 65536 * |img|
  {
    assert forall p :: 0 <= p < |img| - 1 ==> img[1..][p] == img[p + 1];
    if img == [] then [] else (if img[0].Zero? then seq(65536, _ => 0) else img[0].data) + Contents(img[1..])
  }

  lemma {:induction false} ContentsAt(img: seq<ImagePage>, x: nat)
    requires ValidImage(img) && x < 65536 * |img|
    ensures Contents(img)[x] == if img[x / 65536].Zero? then 0 else img[x / 65536].data[x % 65536]
    decreases |img|
  {
    assert ValidImage(img[1..]);
    if |img| > 1 {
      ContentsAt(img[1..], if x < 65536 then 0 else x - 65536);
      if x >= 65536 { assert img[1..][(x - 65536) / 65536] == img[x / 65536]; }
    }
  }

  /** The byte at address `x` of a memory just made. */
  lemma StartByte(img: seq<ImagePage>, min: nat, x: nat)
    requires ValidImage(img) && Valid(Start(img, min)) && x < 65536 * StartPages(img, min)
    ensures FlatByte(Start(img, min), x)
         == if x >= 65536 * |img| || img[x / 65536].Zero? then 0 else img[x / 65536].data[x % 65536]
  {
    var m := Start(img, min);
    if x < 65536 * |img| {
      ImageByte(img, x / 8, x % 8);
      WordAddress(x);
    } else {
      StartTail(img, min, x / 8);
      ZeroByte(x % 8);
    }
  }

  lemma WordAddress(x: nat)
    ensures x / 8 / 8192 == x / 65536 && x / 8 % 8192 * 8 + x % 8 == x % 65536
  {
  }

  lemma StartTail(img: seq<ImagePage>, min: nat, i: nat)
    requires ValidImage(img) && Valid(Start(img, min)) && 8192 * |img| <= i < 8192 * StartPages(img, min)
    ensures WordOf(Start(img, min), i) == 0
  {
    var m := Start(img, min);
    Placed(m, i);
    ImageEndsOnChunk(|img|, m.pages);
    ChunkAbove(m.shift, 8192 * |img|, i);
    assert m.chunks[ChunkAt(m.shift, i)] == Zeros(ChunkWords(m.shift));
  }

  lemma StartByteRead(img: seq<ImagePage>, min: nat, x: nat)
    requires ValidImage(img) && Valid(Start(img, min)) && x < 65536 * StartPages(img, min)
    ensures Bytes(Start(img, min))[x] == if x < 65536 * |img| then Contents(img)[x] else 0
  {
    StartByte(img, min, x);
    ByteOfBytes(Start(img, min), x);
    if x < 65536 * |img| { ContentsAt(img, x); }
  }

  lemma Followed(b: bytes, image: bytes, zeros: bytes)
    requires |b| == |image| + |zeros|
    requires forall x: nat :: x < |b| ==> b[x] == if x < |image| then image[x] else 0
    requires forall x: nat :: x < |zeros| ==> zeros[x] == 0
    ensures b == image + zeros
  {
  }

  /** Restoring an image gives back its bytes, with zeros above them. */
  lemma StartReads(img: seq<ImagePage>, min: nat)
    requires ValidImage(img)
    ensures Valid(Start(img, min))
    ensures Bytes(Start(img, min)) == Contents(img) + seq(65536 * (StartPages(img, min) - |img|), _ => 0)
  {
    StartSound(img, min);
    var b := Bytes(Start(img, min));
    forall x: nat | x < |b| ensures b[x] == if x < 65536 * |img| then Contents(img)[x] else 0 {
      StartByteRead(img, min, x);
    }
    Followed(b, Contents(img), seq(65536 * (StartPages(img, min) - |img|), _ => 0));
  }
}
