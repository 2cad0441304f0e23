/** The memory as the guest addresses it: a flat string of bytes over the words. */
module FlatMemory {
  import opened LittleEndian
  import opened Words
  import opened PagedMemory
  import opened MemorySteps

  /** The byte at address `x`. */
  function FlatByte(m: Mem, x: nat): byte
    requires Valid(m) && x < 65536 * m.pages
  {
    ByteAt(WordOf(m, x / 8), x % 8)
  }

  /** The whole memory, byte by byte. */
  function Bytes(m: Mem): (b: bytes)
    requires Valid(m)
    ensures |b| == 65536 * m.pages
  {
    seq<byte>(65536 * m.pages, x requires 0 <= x < 65536 * m.pages => FlatByte(m, x))
  }

  lemma ByteOfBytes(m: Mem, x: nat)
    requires Valid(m) && x < 65536 * m.pages
    ensures Bytes(m)[x] == FlatByte(m, x)
  {
  }

  lemma SilentBytes(m: Mem, after: Mem)
    requires Silent(m, after)
    ensures Bytes(after) == Bytes(m)
  {
    forall x: nat | x < 65536 * m.pages ensures FlatByte(after, x) == FlatByte(m, x) {
      assert x / 8 < 8192 * m.pages;
    }
  }

  /** A byte string with the bytes from `a` on replaced. */
  function Splice(flat: bytes, a: nat, b: bytes): bytes
    requires a + |b| <= |flat|
  {
    flat[..a] + b + flat[a + |b|..]
  }

  lemma SpliceTwice(flat: bytes, a: nat, b: bytes, c: bytes)
    requires a + |b| + |c| <= |flat|
    ensures Splice(Splice(flat, a, b), a + |b|, c) == Splice(flat, a, b + c)
  {
  }

  // ----- the bytes of a number are its bits, eight at a time -----

  lemma {:induction false} ShiftBit(v: nat, i: nat, k: nat)
    ensures Bit(Shift(v, i), k) == Bit(v, 8 * i + k)
    decreases i
  {
    if i > 0 {
      ShiftBit(v / 256, i - 1, k);
      DownEight(v, 8 * (i - 1) + k);
    }
  }

  lemma DownEight(v: nat, k: nat)
    ensures Bit(v / 256, k) == Bit(v, k + 8)
  {
    assert Ones(8) == 255;
    SumBit(v % 256, v / 256, 8, k + 8);
  }

  lemma LowByteBit(v: nat, k: nat)
    ensures Bit(v % 256, k) == if k < 8 then Bit(v, k) else 0
  {
    assert Ones(8) == 255;
    SumBit(v % 256, v / 256, 8, k);
    if k >= 8 { AboveWidth(v % 256, 8, k); }
  }

  lemma ByteBit(v: nat, i: nat, k: nat)
    ensures Bit(ByteAt(v, i), k) == if k < 8 then Bit(v, 8 * i + k) else 0
  {
    LowByteBit(Shift(v, i), k);
    ShiftBit(v, i, k);
  }

  /** Bit `k` of byte `i`. */
  function BitIn(v: nat, i: nat, k: nat): nat { Bit(v, 8 * i + k) }

  lemma SameByte(v: nat, i: nat, w: nat, j: nat)
    requires forall k: nat :: k < 8 ==> BitIn(v, i, k) == BitIn(w, j, k)
    ensures ByteAt(v, i) == ByteAt(w, j)
  {
    forall k: nat ensures Bit(ByteAt(v, i), k) == Bit(ByteAt(w, j), k) {
      ByteBit(v, i, k);
      ByteBit(w, j, k);
      assert k < 8 ==> BitIn(v, i, k) == BitIn(w, j, k);
    }
    SameBits(ByteAt(v, i), ByteAt(w, j));
  }

  /** A number is the little-endian reading of bytes that have its bits. */
  lemma IsLittle(v: nat, b: bytes)
    requires forall k: nat :: Bit(v, k) == if k / 8 < |b| then Bit(b[k / 8], k % 8) else 0
    ensures v == FromLE(b)
  {
    forall k: nat ensures Bit(v, k) == Bit(FromLE(b), k) {
      LittleBit(b, k);
    }
    SameBits(v, FromLE(b));
  }

  // ----- one access, in one word or two -----

  lemma ExtractIsLittle(w: Word, off: nat, n: nat, b: bytes)
    requires off + n <= 8 && |b| == n
    requires forall i :: 0 <= i < n ==> b[i] == ByteAt(w, off + i)
    ensures Extract(w, 8 * off, 8 * n) == FromLE(b)
  {
    var v := Extract(w, 8 * off, 8 * n);
    forall k: nat ensures Bit(v, k) == if k / 8 < n then Bit(b[k / 8], k % 8) else 0 {
      ExtractedBit(w, 8 * off, 8 * n, k);
      if k / 8 < n {
        ByteBit(w, off + k / 8, k % 8);
        assert 8 * (off + k / 8) + k % 8 == 8 * off + k;
      }
    }
    IsLittle(v, b);
  }

  lemma JoinIsLittle(low: Word, high: Word, off: nat, n: nat, b: bytes)
    requires 0 < off < 8 < off + n && n <= 8 && |b| == n
    requires forall i :: 0 <= i < n ==> b[i] == if off + i < 8 then ByteAt(low, off + i) else ByteAt(high, off + i - 8)
    ensures Join(low, high, 8 * off, 8 * n) == FromLE(b)
  {
    var v := Join(low, high, 8 * off, 8 * n);
    forall k: nat ensures Bit(v, k) == if k / 8 < n then Bit(b[k / 8], k % 8) else 0 {
      JoinedBit(low, high, 8 * off, 8 * n, k);
      if k / 8 < n {
        var i := k / 8;
        if off + i < 8 {
          ByteBit(low, off + i, k % 8);
          assert 8 * (off + i) + k % 8 == 8 * off + k;
        } else {
          ByteBit(high, off + i - 8, k % 8);
          assert 8 * (off + i - 8) + k % 8 == 8 * off + k - 64;
        }
      }
    }
    IsLittle(v, b);
  }

  lemma StoredByte(v: nat, i: nat)
    requires i < 8
    ensures ByteAt(Stored(v), i) == ByteAt(v, i)
  {
    forall k: nat | k < 8 ensures BitIn(Stored(v), i, k) == BitIn(v, i, k) {
      StoredBit(v, 8 * i + k);
    }
    SameByte(Stored(v), i, v, i);
  }

  lemma ReplacedByte(w: Word, off: nat, n: nat, v: nat, i: nat)
    requires off + n <= 8 && i < 8
    ensures ByteAt(Stored(Replace(w, 8 * off, 8 * n, v)), i)
         == if off <= i < off + n then ByteAt(v, i - off) else ByteAt(w, i)
  {
    var r := Replace(w, 8 * off, 8 * n, v);
    StoredByte(r, i);
    if off <= i < off + n {
      forall k: nat | k < 8 ensures BitIn(r, i, k) == BitIn(v, i - off, k) {
        ReplacedBit(w, 8 * off, 8 * n, v, 8 * i + k);
      }
      SameByte(r, i, v, i - off);
    } else {
      forall k: nat | k < 8 ensures BitIn(r, i, k) == BitIn(w, i, k) {
        ReplacedBit(w, 8 * off, 8 * n, v, 8 * i + k);
      }
      SameByte(r, i, w, i);
    }
  }

  lemma LowPutByte(was: Word, off: nat, v: nat, i: nat)
    requires off < 8 && i < 8
    ensures ByteAt(Stored(PutLow(was, 8 * off, v)), i) == if i < off then ByteAt(was, i) else ByteAt(v, i - off)
  {
    var w := PutLow(was, 8 * off, v);
    StoredByte(w, i);
    if i < off {
      forall k: nat | k < 8 ensures BitIn(w, i, k) == BitIn(was, i, k) { LowBit(was, 8 * off, v, 8 * i + k); }
      SameByte(w, i, was, i);
    } else {
      forall k: nat | k < 8 ensures BitIn(w, i, k) == BitIn(v, i - off, k) { LowBit(was, 8 * off, v, 8 * i + k); }
      SameByte(w, i, v, i - off);
    }
  }

  lemma HighPutByte(was: Word, high: nat, taken: nat, v: nat, i: nat)
    requires forall j: nat :: 8 * taken + 8 * high <= j ==> Bit(v, j) == 0
    requires i < 8
    ensures ByteAt(Stored(PutHigh(was, 8 * high, 8 * taken, v)), i)
         == if i < high then ByteAt(v, taken + i) else ByteAt(was, i)
  {
    var w := PutHigh(was, 8 * high, 8 * taken, v);
    StoredByte(w, i);
    if i < high {
      forall k: nat | k < 8 ensures BitIn(w, i, k) == BitIn(v, taken + i, k) {
        HighBit(was, 8 * high, 8 * taken, v, 8 * i + k);
      }
      SameByte(w, i, v, taken + i);
    } else {
      forall k: nat | k < 8 ensures BitIn(w, i, k) == BitIn(was, i, k) {
        HighBit(was, 8 * high, 8 * taken, v, 8 * i + k);
      }
      SameByte(w, i, was, i);
    }
  }
}
