/**
 * Signed integers as bit strings: the mask a store takes of its value, and the
 * two ways a load widens what it read.
 */
module Integers {
  import opened LittleEndian
  import opened Words

  /** `1 bsl n` */
  function Two(n: nat): (p: nat)
    ensures p > 0
  {
    ShlPositive(1, n);
    Shl(1, n)
  }

  lemma {:induction false} ShlPositive(a: nat, s: nat)
    requires a > 0
    ensures Shl(a, s) > 0
    decreases s
  {
    if s > 0 { ShlPositive(2 * a, s - 1); }
  }

  lemma TwoUp(n: nat)
    ensures Two(n + 1) == 2 * Two(n)
  {
    ShlTwice(1, n);
  }

  lemma {:induction false} TwoIsMask(n: nat)
    ensures Two(n) == Ones(n) + 1
  {
    if n > 0 {
      TwoIsMask(n - 1);
      TwoUp(n - 1);
    }
  }

  lemma {:induction false} TwoGrows(j: nat, k: nat)
    requires j <= k
    ensures Two(j) <= Two(k)
    decreases k
  {
    if j < k {
      TwoGrows(j, k - 1);
      TwoUp(k - 1);
    }
  }

  lemma TwoBytes(n: nat)
    ensures Two(8 * n) == Pow256(n)
  {
    TwoIsMask(8 * n);
    OnesBytes(n);
  }

  // ----- storing -----

  /** `v band ((1 bsl n) - 1)`; a negative number is the complement of `-1 - v`. */
  function Band(v: int, n: nat): nat {
    if v >= 0 then And(v, Ones(n)) else AndNot(Ones(n), -1 - v)
  }

  lemma Halves(v: int, p: nat)
    requires p > 0
    ensures v % (2 * p) == v % 2 + 2 * ((v / 2) % p)
  {
    var q, r := v / 2 / p, v / 2 % p;
    assert v == 2 * p * q + (v % 2 + 2 * r) by {
      assert v / 2 == p * q + r;
      assert 2 * (p * q) == 2 * p * q;
    }
    Remainder(v, 2 * p, q, v % 2 + 2 * r);
  }

  lemma Remainder(v: int, p: nat, q: int, r: nat)
    requires r < p && v == p * q + r
    ensures v % p == r
  {
    var d := v / p - q;
    assert v == p * (v / p) + v % p;
    assert p * d == r - v % p by { assert p * d == p * (v / p) - p * q; }
    Multiple(p, d);
  }

  lemma Multiple(p: nat, d: int)
    ensures d >= 1 ==> p * d >= p
    ensures d <= -1 ==> p * d <= 0 - p
  {
    if d >= 1 { assert p * d == p + p * (d - 1); }
    if d <= -1 { assert p * d == 0 - p + p * (d + 1); }
  }

  /** The mask keeps the remainder, whatever the sign. */
  lemma {:induction false} BandIsRemainder(v: int, n: nat)
    ensures Band(v, n) == v % Two(n)
    decreases n
  {
    if n == 0 {
      if v >= 0 { AndNone(v); }
    } else {
      TwoUp(n - 1);
      Halves(v, Two(n - 1));
      BandIsRemainder(v / 2, n - 1);
      BandStep(v, n);
    }
  }

  lemma BandStep(v: int, n: nat)
    requires n > 0
    ensures Band(v, n) == v % 2 + 2 * Band(v / 2, n - 1)
  {
    assert Ones(n) % 2 == 1 && Ones(n) / 2 == Ones(n - 1);
    if v < 0 {
      assert (-1 - v) / 2 == -1 - v / 2 && (-1 - v) % 2 == 1 - v % 2;
    }
  }

  // ----- what a signed number is -----

  /** The number of `n` bits that is `v` but for whole turns. */
  function Signed(v: int, n: nat): int
    requires n > 0
  {
    var r := v % Two(n);
    if r >= Two(n - 1) then r - Two(n) else r
  }

  /** It is the only one in the signed range. */
  lemma SignedOnly(v: int, n: nat, x: int)
    requires n > 0
    ensures 0 - Two(n - 1) <= x < Two(n - 1) && x % Two(n) == v % Two(n) <==> x == Signed(v, n)
  {
    TwoUp(n - 1);
    var p := Two(n);
    if 0 - Two(n - 1) <= x < Two(n - 1) { Reduced(x, p); }
    if x == Signed(v, n) {
      Reduced(x, p);
    }
  }

  lemma Reduced(x: int, p: nat)
    requires 0 - p <= x < p && p > 0
    ensures x % p == if x >= 0 then x else x + p
  {
    Remainder(x, p, if x >= 0 then 0 else -1, if x >= 0 then x else x + p);
  }

  // ----- loading -----

  /** `sign_extend` of the interpreter. */
  function SignExtend(n: nat, raw: nat): int
    requires n > 0
  {
    if raw >= Two(8 * n - 1) then raw - Two(8 * n) else raw
  }

  /** What generated code does instead: flip the sign bit and subtract it back. */
  function Flipped(n: nat, raw: nat): int
    requires n > 0
  {
    Xor(raw, Two(8 * n - 1)) - Two(8 * n - 1)
  }

  lemma {:induction false} XorTop(a: nat, k: nat)
    requires a < 2 * Two(k)
    ensures Xor(a, Two(k)) == if a < Two(k) then a + Two(k) else a - Two(k)
    decreases k
  {
    if k > 0 {
      TwoUp(k - 1);
      XorTop(a / 2, k - 1);
      XorDouble(a, Two(k - 1));
    } else {
      XorBit(a);
    }
  }

  lemma XorDouble(a: nat, c: nat)
    ensures Xor(a, 2 * c) == a % 2 + 2 * Xor(a / 2, c)
  {
  }

  lemma XorBit(a: nat)
    requires a < 2
    ensures Xor(a, 1) == 1 - a
  {
    assert a / 2 == 0;
  }

  lemma FlippedAgrees(n: nat, raw: nat)
    requires n > 0 && raw < Two(8 * n)
    ensures Flipped(n, raw) == SignExtend(n, raw) == Signed(raw, 8 * n)
  {
    TwoUp(8 * n - 1);
    XorTop(raw, 8 * n - 1);
    Reduced(raw, Two(8 * n));
  }

  /** `wrap_s32`, `wrap_s64` */
  function Wrap(n: nat, v: int): int
    requires n > 0
  {
    var w := Band(v, n);
    if w >= Two(n - 1) then w - Two(n) else w
  }

  lemma WrapIsSigned(n: nat, v: int)
    requires n > 0
    ensures Wrap(n, v) == Signed(v, n)
  {
    BandIsRemainder(v, n);
  }

  lemma WrapKeeps(n: nat, x: int)
    requires n > 0 && 0 - Two(n - 1) <= x < Two(n - 1)
    ensures Wrap(n, x) == x
  {
    WrapIsSigned(n, x);
    SignedOnly(x, n, x);
  }

  datatype Kind = I32S | I32U | I64S | I64U

  function BitsOf(kind: Kind): (b: nat)
    ensures b == 32 || b == 64
  {
    if kind.I32S? || kind.I32U? then 32 else 64
  }

  predicate IsSigned(kind: Kind) { kind.I32S? || kind.I64S? }

  /** `decode_loaded` on integers. */
  function Decoded(kind: Kind, n: nat, raw: nat): int
    requires n > 0
  {
    Wrap(BitsOf(kind), if IsSigned(kind) then SignExtend(n, raw) else raw)
  }

  /** The same, as generated: a whole word is tested against 2^63 and nothing else. */
  function Generated(kind: Kind, n: nat, raw: nat): int
    requires n > 0
  {
    if n == 8 then (if raw < Two(63) then raw else raw - Two(64))
    else Wrap(BitsOf(kind), if IsSigned(kind) then Flipped(n, raw) else raw)
  }

  /** What a load of `n` bytes is: the signed number of its bits, or, unsigned and narrow, the number itself. */
  lemma DecodedIs(kind: Kind, n: nat, raw: nat)
    requires 0 < n && 8 * n <= BitsOf(kind) && raw < Two(8 * n)
    ensures Decoded(kind, n, raw) == if IsSigned(kind) || 8 * n == BitsOf(kind) then Signed(raw, 8 * n) else raw
  {
    var b := BitsOf(kind);
    TwoUp(8 * n - 1);
    TwoGrows(8 * n - 1, b - 1);
    FlippedAgrees(n, raw);
    if IsSigned(kind) {
      WrapKeeps(b, SignExtend(n, raw));
    } else if 8 * n == b {
      WrapIsSigned(b, raw);
    } else {
      TwoGrows(8 * n, b - 1);
      WrapKeeps(b, raw);
    }
  }

  /** The two implementations of the rule agree on every load there is. */
  lemma GeneratedAgrees(kind: Kind, n: nat, raw: nat)
    requires 0 < n && 8 * n <= BitsOf(kind) && raw < Two(8 * n)
    ensures Generated(kind, n, raw) == Decoded(kind, n, raw)
  {
    DecodedIs(kind, n, raw);
    FlippedAgrees(n, raw);
  }
}
