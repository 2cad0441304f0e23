/**
 * Numbers as strings of bits: the bit operations of the memory's code on
 * unbounded non-negative integers, and what a narrow access reads and
 * replaces in a 64-bit word.
 */
module Words {
  import opened LittleEndian

  type Word = w: nat | w < 0x1_0000_0000_0000_0000

  /** Bit `k` of a number, 0 or 1. */
  function Bit(a: nat, k: nat): nat
    decreases k
  {
    if k == 0 then a % 2 else Bit(a / 2, k - 1)
  }

  /** `a bsr s` */
  function Shr(a: nat, s: nat): nat
    decreases s
  {
    if s == 0 then a else Shr(a / 2, s - 1)
  }

  /** `a bsl s` */
  function Shl(a: nat, s: nat): nat
    decreases s
  {
    if s == 0 then a else Shl(2 * a, s - 1)
  }

  /** `a band b` */
  function And(a: nat, b: nat): nat
    decreases a
  {
    if a == 0 then 0 else (if a % 2 == 1 && b % 2 == 1 then 1 else 0) + 2 * And(a / 2, b / 2)
  }

  /** `a band (bnot b)` */
  function AndNot(a: nat, b: nat): nat
    decreases a
  {
    if a == 0 then 0 else (if a % 2 == 1 && b % 2 == 0 then 1 else 0) + 2 * AndNot(a / 2, b / 2)
  }

  /** `a bor b` */
  function Or(a: nat, b: nat): nat
    decreases a + b
  {
    if a == 0 then b else (if a % 2 == 1 || b % 2 == 1 then 1 else 0) + 2 * Or(a / 2, b / 2)
  }

  /** `a bxor b` */
  function Xor(a: nat, b: nat): nat
    decreases a + b
  {
    if a == 0 then b else (if a % 2 != b % 2 then 1 else 0) + 2 * Xor(a / 2, b / 2)
  }

  /** `(1 bsl n) - 1` */
  function Ones(n: nat): nat
  {
    if n == 0 then 0 else 1 + 2 * Ones(n - 1)
  }

  /** `a band ((1 bsl s) - 1)` */
  function Low(a: nat, s: nat): nat
    decreases s
  {
    if s == 0 then 0 else a % 2 + 2 * Low(a / 2, s - 1)
  }

  lemma {:induction false} BitOfZero(k: nat)
    ensures Bit(0, k) == 0
  {
    if k > 0 { BitOfZero(k - 1); }
  }

  /** A number is its bits. */
  lemma {:induction false} SameBits(a: nat, b: nat)
    requires forall k: nat :: Bit(a, k) == Bit(b, k)
    ensures a == b
    decreases a + b
  {
    assert Bit(a, 0) == Bit(b, 0);
    if a > 0 || b > 0 {
      forall k: nat ensures Bit(a / 2, k) == Bit(b / 2, k) {
        assert Bit(a, k + 1) == Bit(b, k + 1);
      }
      SameBits(a / 2, b / 2);
    }
  }

  lemma {:induction false} BitOfShr(a: nat, s: nat, k: nat)
    ensures Bit(Shr(a, s), k) == Bit(a, s + k)
    decreases s
  {
    if s > 0 { BitOfShr(a / 2, s - 1, k); }
  }

  lemma {:induction false} BitOfShl(a: nat, s: nat, k: nat)
    ensures Bit(Shl(a, s), k) == if k < s then 0 else Bit(a, k - s)
    decreases s
  {
    if s > 0 {
      BitOfShl(2 * a, s - 1, k);
      if k >= s {
        assert Bit(2 * a, k - s + 1) == Bit(2 * a / 2, k - s);
      }
    }
  }

  /** The bits of a number given by its last bit and the rest. */
  lemma BitAbove(c: nat, y: nat, k: nat)
    requires c < 2
    ensures Bit(c + 2 * y, k) == if k == 0 then c else Bit(y, k - 1)
  {
    assert (c + 2 * y) / 2 == y && (c + 2 * y) % 2 == c;
  }

  lemma {:induction false} BitOfAnd(a: nat, b: nat, k: nat)
    ensures Bit(And(a, b), k) == if Bit(a, k) == 1 && Bit(b, k) == 1 then 1 else 0
    decreases k
  {
    if a == 0 {
      BitOfZero(k);
    } else {
      BitAbove(if a % 2 == 1 && b % 2 == 1 then 1 else 0, And(a / 2, b / 2), k);
      if k > 0 { BitOfAnd(a / 2, b / 2, k - 1); }
    }
  }

  lemma {:induction false} BitOfAndNot(a: nat, b: nat, k: nat)
    ensures Bit(AndNot(a, b), k) == if Bit(a, k) == 1 && Bit(b, k) == 0 then 1 else 0
    decreases k
  {
    if a == 0 {
      BitOfZero(k);
    } else {
      BitAbove(if a % 2 == 1 && b % 2 == 0 then 1 else 0, AndNot(a / 2, b / 2), k);
      if k > 0 { BitOfAndNot(a / 2, b / 2, k - 1); }
    }
  }

  lemma {:induction false} BitOfOr(a: nat, b: nat, k: nat)
    ensures Bit(Or(a, b), k) == if Bit(a, k) == 1 || Bit(b, k) == 1 then 1 else 0
    decreases k
  {
    if a == 0 {
      BitOfZero(k);
      BitRange(b, k);
    } else {
      BitAbove(if a % 2 == 1 || b % 2 == 1 then 1 else 0, Or(a / 2, b / 2), k);
      if k > 0 { BitOfOr(a / 2, b / 2, k - 1); }
    }
  }

  lemma {:induction false} BitOfXor(a: nat, b: nat, k: nat)
    ensures Bit(Xor(a, b), k) == if Bit(a, k) != Bit(b, k) then 1 else 0
    decreases k
  {
    if a == 0 {
      BitOfZero(k);
      BitRange(b, k);
    } else {
      BitAbove(if a % 2 != b % 2 then 1 else 0, Xor(a / 2, b / 2), k);
      if k > 0 { BitOfXor(a / 2, b / 2, k - 1); }
    }
  }

  lemma {:induction false} BitOfOnes(n: nat, k: nat)
    ensures Bit(Ones(n), k) == if k < n then 1 else 0
    decreases n
  {
    if n == 0 { BitOfZero(k); } else if k > 0 { BitOfOnes(n - 1, k - 1); }
  }

  lemma {:induction false} BitRange(a: nat, k: nat)
    ensures Bit(a, k) == 0 || Bit(a, k) == 1
    decreases k
  {
    if k > 0 { BitRange(a / 2, k - 1); }
  }

  lemma {:induction false} AboveWidth(a: nat, n: nat, k: nat)
    requires a <= Ones(n) && n <= k
    ensures Bit(a, k) == 0
    decreases n
  {
    if n == 0 { BitOfZero(k); } else { AboveWidth(a / 2, n - 1, k - 1); }
  }

  lemma {:induction false} WithinWidth(a: nat, n: nat)
    requires forall k: nat :: n <= k ==> Bit(a, k) == 0
    ensures a <= Ones(n)
    decreases n
  {
    if n == 0 {
      forall k: nat ensures Bit(a, k) == Bit(0, k) { BitOfZero(k); }
      SameBits(a, 0);
    } else {
      forall k: nat | n - 1 <= k ensures Bit(a / 2, k) == 0 {
        assert Bit(a, k + 1) == 0;
      }
      WithinWidth(a / 2, n - 1);
    }
  }

  lemma OnesUp(n: nat)
    ensures Ones(n + 8) == 256 * Ones(n) + 255
  {
    assert Ones(n + 2) == 4 * Ones(n) + 3;
    assert Ones(n + 4) == 16 * Ones(n) + 15;
    assert Ones(n + 6) == 64 * Ones(n) + 63;
  }

  lemma {:induction false} OnesBytes(n: nat)
    ensures Ones(8 * n) + 1 == Pow256(n)
  {
    if n > 0 {
      OnesBytes(n - 1);
      OnesUp(8 * (n - 1));
    }
  }

  lemma Ones64()
    ensures Ones(64) == 0xFFFF_FFFF_FFFF_FFFF
  {
    OnesBytes(8);
    assert Pow256(4) == 0x1_0000_0000;
  }

  lemma WordBits(w: Word, k: nat)
    requires 64 <= k
    ensures Bit(w, k) == 0
  {
    Ones64();
    AboveWidth(w, 64, k);
  }

  lemma MaskedBit(v: nat, n: nat, k: nat)
    ensures Bit(And(v, Ones(n)), k) == if k < n then Bit(v, k) else 0
  {
    BitOfAnd(v, Ones(n), k);
    BitOfOnes(n, k);
    BitRange(v, k);
  }

  lemma MaskFits(v: nat, n: nat)
    ensures And(v, Ones(n)) <= Ones(n)
  {
    forall k: nat | n <= k ensures Bit(And(v, Ones(n)), k) == 0 {
      MaskedBit(v, n, k);
    }
    WithinWidth(And(v, Ones(n)), n);
  }

  /** What the array operations keep of a value: `V band 16#FFFFFFFFFFFFFFFF`. */
  function Stored(v: nat): Word {
    Ones64();
    MaskFits(v, 64);
    And(v, 0xFFFF_FFFF_FFFF_FFFF)
  }

  lemma StoredBit(v: nat, k: nat)
    requires k < 64
    ensures Bit(Stored(v), k) == Bit(v, k)
  {
    Ones64();
    MaskedBit(v, 64, k);
  }

  /** A field of `n` bits at bit `s`, as a load takes it out of a word. */
  function Extract(w: nat, s: nat, n: nat): nat {
    And(Shr(w, s), Ones(n))
  }

  lemma ExtractedBit(w: nat, s: nat, n: nat, k: nat)
    ensures Bit(Extract(w, s, n), k) == if k < n then Bit(w, s + k) else 0
  {
    MaskedBit(Shr(w, s), n, k);
    BitOfShr(w, s, k);
  }

  /** A field of `n` bits at bit `s` replaced, as a store does it. */
  function Replace(w: nat, s: nat, n: nat, v: nat): nat {
    Or(AndNot(w, Shl(Ones(n), s)), Shl(And(v, Ones(n)), s))
  }

  lemma ReplacedBit(w: nat, s: nat, n: nat, v: nat, k: nat)
    ensures Bit(Replace(w, s, n, v), k) == if s <= k < s + n then Bit(v, k - s) else Bit(w, k)
  {
    var m, f := Shl(Ones(n), s), Shl(And(v, Ones(n)), s);
    BitOfOr(AndNot(w, m), f, k);
    BitOfAndNot(w, m, k);
    BitOfShl(Ones(n), s, k);
    BitOfShl(And(v, Ones(n)), s, k);
    BitRange(w, k);
    if s <= k {
      BitOfOnes(n, k - s);
      MaskedBit(v, n, k - s);
      BitRange(v, k - s);
    }
  }

  /** A field of `n` bits that starts at bit `s` of one word and ends in the next. */
  function Join(low: Word, high: Word, s: nat, n: nat): nat
    requires 0 < s < 64
  {
    And(Or(Shl(high, 64 - s), Shr(low, s)), Ones(n))
  }

  lemma JoinedBit(low: Word, high: Word, s: nat, n: nat, k: nat)
    requires 0 < s < 64
    ensures Bit(Join(low, high, s, n), k)
         == if k >= n then 0 else if s + k < 64 then Bit(low, s + k) else Bit(high, s + k - 64)
  {
    MaskedBit(Or(Shl(high, 64 - s), Shr(low, s)), n, k);
    BitOfOr(Shl(high, 64 - s), Shr(low, s), k);
    BitOfShl(high, 64 - s, k);
    BitOfShr(low, s, k);
    if s + k < 64 {
      BitRange(low, s + k);
    } else {
      WordBits(low, s + k);
      BitRange(high, s + k - 64);
    }
  }

  /** The first of the two words a straddling store leaves. */
  function PutLow(was: nat, s: nat, v: nat): nat
    requires s < 64
  {
    Or(And(was, Ones(s)), Shl(And(v, Ones(64 - s)), s))
  }

  lemma LowBit(was: nat, s: nat, v: nat, k: nat)
    requires s < 64 && k < 64
    ensures Bit(PutLow(was, s, v), k) == if k < s then Bit(was, k) else Bit(v, k - s)
  {
    var f := Shl(And(v, Ones(64 - s)), s);
    BitOfOr(And(was, Ones(s)), f, k);
    MaskedBit(was, s, k);
    BitOfShl(And(v, Ones(64 - s)), s, k);
    BitRange(was, k);
    if s <= k {
      MaskedBit(v, 64 - s, k - s);
      BitRange(v, k - s);
    }
  }

  /** The second: `taken` bits of the value are in the first, `high` are left. */
  function PutHigh(was: nat, high: nat, taken: nat, v: nat): nat {
    Or(AndNot(was, Ones(high)), Shr(v, taken))
  }

  lemma HighBit(was: nat, high: nat, taken: nat, v: nat, k: nat)
    requires high <= k ==> Bit(v, taken + k) == 0
    ensures Bit(PutHigh(was, high, taken, v), k) == if k < high then Bit(v, taken + k) else Bit(was, k)
  {
    BitOfOr(AndNot(was, Ones(high)), Shr(v, taken), k);
    BitOfAndNot(was, Ones(high), k);
    BitOfOnes(high, k);
    BitOfShr(v, taken, k);
    BitRange(was, k);
    BitRange(v, taken + k);
  }

  lemma {:induction false} SumBit(r: nat, x: nat, s: nat, k: nat)
    requires r <= Ones(s)
    ensures Bit(r + (Ones(s) + 1) * x, k) == if k < s then Bit(r, k) else Bit(x, k - s)
    decreases s
  {
    if s > 0 {
      var p := (Ones(s - 1) + 1) * x;
      assert (Ones(s) + 1) * x == 2 * p;
      if k > 0 {
        assert (r + 2 * p) / 2 == r / 2 + p;
        SumBit(r / 2, x, s - 1, k - 1);
      }
    }
  }

  /** The bits of a little-endian byte string, as `binary` patterns read one. */
  lemma {:induction false} LittleBit(b: bytes, k: nat)
    ensures Bit(FromLE(b), k) == if k / 8 < |b| then Bit(b[k / 8], k % 8) else 0
    decreases |b|
  {
    if b == [] {
      BitOfZero(k);
    } else {
      assert Ones(8) == 255;
      SumBit(b[0], FromLE(b[1..]), 8, k);
      if k >= 8 {
        LittleBit(b[1..], k - 8);
      }
    }
  }

  // ----- splitting a number at a bit -----

  lemma {:induction false} AndNone(a: nat)
    ensures And(a, 0) == 0
    decreases a
  {
    if a > 0 { AndNone(a / 2); }
  }

  lemma {:induction false} ShlTwice(a: nat, s: nat)
    ensures Shl(2 * a, s) == 2 * Shl(a, s)
    decreases s
  {
    if s > 0 { ShlTwice(2 * a, s - 1); }
  }

  /** The high part and the low part make up the number. */
  lemma {:induction false} SplitAt(a: nat, s: nat)
    ensures a == Shl(Shr(a, s), s) + Low(a, s) && Low(a, s) < Shl(1, s)
    decreases s
  {
    if s > 0 {
      SplitAt(a / 2, s - 1);
      ShlTwice(Shr(a / 2, s - 1), s - 1);
      ShlTwice(1, s - 1);
    }
  }

  lemma {:induction false} ShlAdds(a: nat, b: nat, s: nat)
    ensures Shl(a + b, s) == Shl(a, s) + Shl(b, s)
    decreases s
  {
    if s > 0 { ShlAdds(2 * a, 2 * b, s - 1); }
  }

  lemma {:induction false} ShrBelow(a: nat, n: nat, s: nat)
    requires a < Shl(n, s)
    ensures Shr(a, s) < n
    decreases s
  {
    if s > 0 {
      ShlTwice(n, s - 1);
      ShrBelow(a / 2, n, s - 1);
    }
  }

  lemma {:induction false} ShrMonotone(a: nat, b: nat, s: nat)
    requires a <= b
    ensures Shr(a, s) <= Shr(b, s)
    decreases s
  {
    if s > 0 { ShrMonotone(a / 2, b / 2, s - 1); }
  }

  lemma {:induction false} ShrAgain(a: nat, s: nat, t: nat)
    ensures Shr(a, s + t) == Shr(Shr(a, s), t)
    decreases s
  {
    if s > 0 { ShrAgain(a / 2, s - 1, t); }
  }

  lemma {:induction false} LowAgain(a: nat, s: nat, t: nat)
    ensures Low(a, s + t) == Low(a, s) + Shl(Low(Shr(a, s), t), s)
    decreases s
  {
    if s > 0 {
      LowAgain(a / 2, s - 1, t);
      ShlTwice(Low(Shr(a, s), t), s - 1);
    }
  }

  lemma Nine(a: nat)
    ensures Shr(a, 9) == a / 512 && Low(a, 9) == a % 512 && Shl(a, 9) == 512 * a
  {
    assert Shr(a, 3) == a / 8 && Low(a, 3) == a % 8 && Shl(a, 3) == 8 * a;
    Three(a / 8);
    Three(a / 64);
    Three(8 * a);
    Three(64 * a);
    ShrAgain(a, 3, 6);
    ShrAgain(a / 8, 3, 3);
    LowAgain(a, 3, 6);
    LowAgain(a / 8, 3, 3);
    ShlAgain(a, 3, 6);
    ShlAgain(8 * a, 3, 3);
  }

  lemma Three(a: nat)
    ensures Shr(a, 3) == a / 8 && Low(a, 3) == a % 8 && Shl(a, 3) == 8 * a
  {
  }

  lemma {:induction false} ShlAgain(a: nat, s: nat, t: nat)
    ensures Shl(a, s + t) == Shl(Shl(a, s), t)
    decreases s
  {
    if s > 0 { ShlAgain(2 * a, s - 1, t); }
  }

  // ----- the same merge with an exclusive or -----

  const ALL: nat := 0xFFFF_FFFF_FFFF_FFFF

  /** `w band (ALL bxor m)` is `w band (bnot m)` on a 64-bit word. */
  lemma XorIsNot(w: Word, m: nat)
    ensures And(w, Xor(ALL, m)) == AndNot(w, m)
  {
    forall k: nat ensures Bit(And(w, Xor(ALL, m)), k) == Bit(AndNot(w, m), k) {
      Ones64();
      BitOfAnd(w, Xor(ALL, m), k);
      BitOfXor(ALL, m, k);
      BitOfOnes(64, k);
      BitOfAndNot(w, m, k);
      BitRange(m, k);
      if k >= 64 { WordBits(w, k); }
    }
    SameBits(And(w, Xor(ALL, m)), AndNot(w, m));
  }

  /** A field replaced inside a word leaves a word. */
  lemma ReplaceFits(w: Word, s: nat, n: nat, v: nat)
    requires s + n <= 64
    ensures Replace(w, s, n, v) <= ALL && Stored(Replace(w, s, n, v)) == Replace(w, s, n, v)
  {
    var r := Replace(w, s, n, v);
    forall k: nat | 64 <= k ensures Bit(r, k) == 0 {
      ReplacedBit(w, s, n, v, k);
      WordBits(w, k);
    }
    WithinWidth(r, 64);
    Ones64();
    forall k: nat ensures Bit(Stored(r), k) == Bit(r, k) {
      MaskedBit(r, 64, k);
    }
    SameBits(Stored(r), r);
  }
}
