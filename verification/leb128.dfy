/**
 * LEB128 integers, section 5.2.2 of the WebAssembly Core Specification: the
 * decoder with its two limits, the encoders as the fixtures write them, and
 * exactly which byte strings the decoder takes for which number.
 */
module Leb128 {
  import opened LittleEndian

  datatype Error =
    | UnexpectedEnd | RepresentationTooLong | IntegerTooLarge
    | UnexpectedElse | IllegalOpcode | MalformedBlockType | MalformedHeapType | MalformedValueType
    | MalformedCatchClause | MalformedMemopFlags | LengthOutOfBounds | AnotherModule

  /** A value and the bytes after it, or why there is none. */
  datatype Parsed<T> = Ok(value: T, rest: bytes) | Bad(error: Error)

  function Pow2(n: nat): (p: nat)
    ensures p >= 1
  {
    if n == 0 then 1 else 2 * Pow2(n - 1)
  }

  /** `1 bsl (7 * n)` */
  function Pow128(n: nat): (p: nat)
    ensures p >= 1
  {
    if n == 0 then 1 else 128 * Pow128(n - 1)
  }

  function MaxBytes(bits: nat): nat { (bits + 6) / 7 }

  // ----- decoding -----

  /** `n` bytes of `max` have been looked at; the ones before are worth `acc`, and `p` is `1 bsl Shift`. */
  function Unsigned(b: bytes, max: nat, n: nat, acc: nat, p: nat): Parsed<nat>
    decreases |b|
  {
    if b == [] then Bad(UnexpectedEnd)
    else if b[0] < 128 then Ok(acc + b[0] * p, b[1..])
    else if n >= max then Bad(RepresentationTooLong)
    else Unsigned(b[1..], max, n + 1, acc + (b[0] - 128) * p, 128 * p)
  }

  function Uleb(b: bytes, bits: nat): Parsed<nat> {
    match Unsigned(b, MaxBytes(bits), 1, 0, 1)
    case Ok(v, rest) => if v < Pow2(bits) then Ok(v, rest) else Bad(IntegerTooLarge)
    case Bad(e) => Bad(e)
  }

  /** Bit 6 of the last byte is the sign of the number. */
  function Signed(b: bytes, max: nat, n: nat, acc: nat, p: nat): Parsed<int>
    decreases |b|
  {
    if b == [] then Bad(UnexpectedEnd)
    else if b[0] < 128 then
      var v := acc + b[0] * p;
      Ok(if b[0] < 64 then v else v - 128 * p, b[1..])
    else if n >= max then Bad(RepresentationTooLong)
    else Signed(b[1..], max, n + 1, acc + (b[0] - 128) * p, 128 * p)
  }

  predicate Within(v: int, bits: nat)
    requires bits >= 1
  {
    -(Pow2(bits - 1) as int) <= v < Pow2(bits - 1)
  }

  function Sleb(b: bytes, bits: nat): Parsed<int>
    requires bits >= 1
  {
    match Signed(b, MaxBytes(bits), 1, 0, 1)
    case Ok(v, rest) => if Within(v, bits) then Ok(v, rest) else Bad(IntegerTooLarge)
    case Bad(e) => Bad(e)
  }

  function U32(b: bytes): Parsed<nat> { Uleb(b, 32) }

  function U64(b: bytes): Parsed<nat> { Uleb(b, 64) }

  function S32(b: bytes): Parsed<int> { Sleb(b, 32) }

  function S64(b: bytes): Parsed<int> { Sleb(b, 64) }

  function S33(b: bytes): Parsed<int> { Sleb(b, 33) }

  // ----- what a byte string stands for -----

  /** One whole integer: every byte but the last has its top bit set. */
  predicate Whole(b: bytes) {
    b != [] && b[|b| - 1] < 128 && forall k :: 0 <= k < |b| - 1 ==> b[k] >= 128
  }

  /** The low seven bits of each byte, least significant first. */
  function Groups(b: bytes): nat
    decreases |b|
  {
    if b == [] then 0 else b[0] % 128 + 128 * Groups(b[1..])
  }

  /** The same with the sign bit of the last byte extended. */
  function SignedGroups(b: bytes): int
    requires b != []
  {
    if b[|b| - 1] % 128 < 64 then Groups(b) else Groups(b) - Pow128(|b|)
  }

  /** The whole integer a byte string starts with, if it starts with one. */
  function Head(b: bytes): (n: nat)
    ensures n <= |b| && (n > 0 ==> Whole(b[..n]))
    decreases |b|
  {
    if b == [] then 0
    else if b[0] < 128 then 1
    else
      var n := Head(b[1..]);
      if n == 0 then 0 else
        assert b[..n + 1] == [b[0]] + b[1..][..n];
        n + 1
  }

  lemma {:induction false} WholeHead(b: bytes, n: nat)
    requires 0 < n <= |b| && Whole(b[..n])
    ensures Head(b) == n
    decreases n
  {
    if n == 1 {
      assert b[0] == b[..1][0];
    } else {
      assert b[0] == b[..n][0];
      assert b[1..][..n - 1] == b[..n][1..];
      WholeHead(b[1..], n - 1);
    }
  }

  /** Whether the whole integer of `h` bytes that is ahead is short enough, `n` being the number of its first byte. */
  predicate Short(h: nat, n: nat, max: nat) { h == 1 || (h > 0 && n + h - 1 <= max) }

  lemma GroupsStep(b: bytes, h: nat)
    requires h < |b|
    ensures Groups(b[..h + 1]) == b[0] % 128 + 128 * Groups(b[1..][..h])
  {
    assert b[..h + 1][1..] == b[1..][..h];
  }

  lemma {:induction false} UnsignedIs(b: bytes, max: nat, n: nat, acc: nat, p: nat)
    ensures var h := Head(b); var r := Unsigned(b, max, n, acc, p);
      && (r.Ok? <==> Short(h, n, max))
      && (r.Ok? ==> r == Ok(acc + Groups(b[..h]) * p, b[h..]))
    decreases |b|
  {
    if b != [] {
      if b[0] < 128 {
        assert b[..1] == [b[0]] && Groups([b[0]]) == b[0];
      } else if n < max {
        UnsignedIs(b[1..], max, n + 1, acc + (b[0] - 128) * p, 128 * p);
        var h := Head(b[1..]);
        if h > 0 {
          GroupsStep(b, h);
          assert b[h + 1..] == b[1..][h..];
          GroupStep(acc, b[0] - 128, Groups(b[1..][..h]), p);
        }
      }
    }
  }

  lemma GroupStep(acc: nat, low: nat, high: nat, p: nat)
    ensures acc + low * p + high * (128 * p) == acc + (low + 128 * high) * p
  {
    assert high * (128 * p) == 128 * (high * p);
    assert (low + 128 * high) * p == low * p + 128 * high * p;
  }

  lemma {:induction false} SignedIs(b: bytes, max: nat, n: nat, acc: nat, p: nat)
    ensures var h := Head(b); var r := Signed(b, max, n, acc, p);
      && (r.Ok? <==> Short(h, n, max))
      && (r.Ok? ==> r == Ok(acc + SignedGroups(b[..h]) * p, b[h..]))
    decreases |b|
  {
    if b != [] {
      if b[0] < 128 {
        assert b[..1] == [b[0]] && Groups([b[0]]) == b[0] && Pow128(1) == 128;
        assert b[0] >= 64 ==> (b[0] - 128) * p == b[0] * p - 128 * p;
      } else if n < max {
        SignedIs(b[1..], max, n + 1, acc + (b[0] - 128) * p, 128 * p);
        var h := Head(b[1..]);
        if h > 0 {
          SignedStep(b, h);
          assert b[h + 1..] == b[1..][h..];
          SignedGroupStep(acc, b[0] - 128, SignedGroups(b[1..][..h]), p);
        }
      }
    }
  }

  lemma SignedStep(b: bytes, h: nat)
    requires 0 < h < |b| && b[0] >= 128
    ensures SignedGroups(b[..h + 1]) == b[0] - 128 + 128 * SignedGroups(b[1..][..h])
  {
    assert b[..h + 1][1..] == b[1..][..h];
    assert b[..h + 1][h] == b[1..][..h][h - 1];
  }

  lemma SignedGroupStep(acc: nat, low: nat, high: int, p: nat)
    ensures acc + low * p + high * (128 * p) == acc + (low + 128 * high) * p
  {
    assert high * (128 * p) == 128 * (high * p);
    assert (low + 128 * high) * p == low * p + 128 * high * p;
  }

  /**
   * The decoder takes exactly the integers of the format: a whole byte string
   * of at most as many bytes as the bits fill, whose groups make a number in
   * range, and hands back what follows it.
   */
  lemma UlebExact(b: bytes, bits: nat, v: nat, rest: bytes)
    requires bits >= 1
    ensures Uleb(b, bits) == Ok(v, rest)
       <==> exists h: nat :: IsUnsigned(b, h, bits, v, rest)
  {
    UnsignedIs(b, MaxBytes(bits), 1, 0, 1);
    var h := Head(b);
    if Uleb(b, bits) == Ok(v, rest) {
      assert IsUnsigned(b, h, bits, v, rest);
    }
    forall h: nat | IsUnsigned(b, h, bits, v, rest) ensures Uleb(b, bits) == Ok(v, rest) {
      WholeHead(b, h);
    }
  }

  ghost predicate IsUnsigned(b: bytes, h: nat, bits: nat, v: nat, rest: bytes) {
    && 0 < h <= |b| && Whole(b[..h]) && rest == b[h..] && 7 * (h - 1) < bits
    && v == Groups(b[..h]) && v < Pow2(bits)
  }

  lemma SlebExact(b: bytes, bits: nat, v: int, rest: bytes)
    requires bits >= 1
    ensures Sleb(b, bits) == Ok(v, rest)
       <==> exists h: nat :: IsSigned(b, h, bits, v, rest)
  {
    SignedIs(b, MaxBytes(bits), 1, 0, 1);
    var h := Head(b);
    if Sleb(b, bits) == Ok(v, rest) {
      assert IsSigned(b, h, bits, v, rest);
    }
    forall h: nat | IsSigned(b, h, bits, v, rest) ensures Sleb(b, bits) == Ok(v, rest) {
      WholeHead(b, h);
    }
  }

  ghost predicate IsSigned(b: bytes, h: nat, bits: nat, v: int, rest: bytes)
    requires bits >= 1
  {
    && 0 < h <= |b| && Whole(b[..h]) && rest == b[h..] && 7 * (h - 1) < bits
    && v == SignedGroups(b[..h]) && Within(v, bits)
  }

  /** A whole integer of few enough bytes, whose number does not fit the bits. */
  ghost predicate TooLarge(b: bytes, h: nat, most: nat, bits: nat) {
    0 < h <= |b| && h <= most && Whole(b[..h]) && Groups(b[..h]) >= Pow2(bits)
  }

  /** Why an integer is refused: nothing but bytes with their top bit set, and too few of them; or as many as the
      bits fill, all with it set; or a whole integer that is out of range. */
  lemma UlebRefuses(b: bytes, bits: nat, most: nat)
    requires bits >= 1 && 7 * (most - 1) < bits <= 7 * most
    ensures Uleb(b, bits) == Bad(UnexpectedEnd) <==> |b| < most && AllGoOn(b)
    ensures Uleb(b, bits) == Bad(RepresentationTooLong) <==> |b| >= most && AllGoOn(b[..most])
    ensures Uleb(b, bits) == Bad(IntegerTooLarge) <==> exists h: nat :: TooLarge(b, h, most, bits)
  {
    UnsignedIs(b, most, 1, 0, 1);
    UnsignedStops(b, most, 1, 0, 1);
    if Uleb(b, bits) == Bad(IntegerTooLarge) { assert TooLarge(b, Head(b), most, bits); }
    forall h: nat | TooLarge(b, h, most, bits) ensures h == Head(b) { WholeHead(b, h); }
  }

  ghost predicate OutOfRange(b: bytes, h: nat, most: nat, bits: nat)
    requires bits >= 1
  {
    0 < h <= |b| && h <= most && Whole(b[..h]) && !Within(SignedGroups(b[..h]), bits)
  }

  /** Of a signed one likewise. */
  lemma SlebRefuses(b: bytes, bits: nat, most: nat)
    requires bits >= 1 && 7 * (most - 1) < bits <= 7 * most
    ensures Sleb(b, bits) == Bad(UnexpectedEnd) <==> |b| < most && AllGoOn(b)
    ensures Sleb(b, bits) == Bad(RepresentationTooLong) <==> |b| >= most && AllGoOn(b[..most])
    ensures Sleb(b, bits) == Bad(IntegerTooLarge) <==> exists h: nat :: OutOfRange(b, h, most, bits)
  {
    SignedIs(b, most, 1, 0, 1);
    SignedStops(b, most, 1, 0, 1);
    if Sleb(b, bits) == Bad(IntegerTooLarge) { assert OutOfRange(b, Head(b), most, bits); }
    forall h: nat | OutOfRange(b, h, most, bits) ensures h == Head(b) { WholeHead(b, h); }
  }

  /** Every byte says that more follow. */
  predicate AllGoOn(b: bytes) { forall k :: 0 <= k < |b| ==> b[k] >= 128 }

  lemma GoOnTail(b: bytes, k: nat)
    requires b != [] && b[0] >= 128
    ensures AllGoOn(b) <==> AllGoOn(b[1..])
    ensures k < |b| ==> (AllGoOn(b[..k + 1]) <==> AllGoOn(b[1..][..k]))
  {
    assert b == [b[0]] + b[1..];
    if k < |b| { assert b[..k + 1] == [b[0]] + b[1..][..k]; }
  }

  lemma {:induction false} UnsignedStops(b: bytes, max: nat, n: nat, acc: nat, p: nat)
    requires 1 <= n <= max
    ensures Unsigned(b, max, n, acc, p) == Bad(UnexpectedEnd) <==> |b| + n <= max && AllGoOn(b)
    ensures Unsigned(b, max, n, acc, p) == Bad(RepresentationTooLong)
       <==> |b| + n > max && AllGoOn(b[..max - n + 1])
    ensures var r := Unsigned(b, max, n, acc, p); r.Ok? || r.error.UnexpectedEnd? || r.error.RepresentationTooLong?
    decreases |b|
  {
    if b != [] && b[0] >= 128 && n < max {
      UnsignedStops(b[1..], max, n + 1, acc + (b[0] - 128) * p, 128 * p);
      GoOnTail(b, max - n);
    }
  }

  lemma {:induction false} SignedStops(b: bytes, max: nat, n: nat, acc: nat, p: nat)
    requires 1 <= n <= max
    ensures Signed(b, max, n, acc, p) == Bad(UnexpectedEnd) <==> |b| + n <= max && AllGoOn(b)
    ensures Signed(b, max, n, acc, p) == Bad(RepresentationTooLong)
       <==> |b| + n > max && AllGoOn(b[..max - n + 1])
    ensures var r := Signed(b, max, n, acc, p); r.Ok? || r.error.UnexpectedEnd? || r.error.RepresentationTooLong?
    decreases |b|
  {
    if b != [] && b[0] >= 128 && n < max {
      SignedStops(b[1..], max, n + 1, acc + (b[0] - 128) * p, 128 * p);
      GoOnTail(b, max - n);
    }
  }

  // ----- encoding -----

  /** The shortest encoding of a number, in front of `tail`. */
  function PutU(v: nat, tail: bytes): (b: bytes)
    decreases v
  {
    if v < 128 then [v] + tail else [v % 128 + 128] + PutU(v / 128, tail)
  }

  /** The same for a signed number: `v / 128` rounds down, as an arithmetic shift does. */
  function PutS(v: int, tail: bytes): (b: bytes)
    decreases if v < 0 then -v else v
  {
    var low, high := v % 128, v / 128;
    if (high == 0 && low < 64) || (high == -1 && low >= 64) then [low] + tail
    else [low + 128] + PutS(high, tail)
  }

  /** Bytes `PutU` writes for a number. */
  function LengthU(v: nat): nat {
    if v < 128 then 1 else 1 + LengthU(v / 128)
  }

  lemma {:induction false} UnsignedReads(v: nat, tail: bytes, max: nat, n: nat, acc: nat, p: nat)
    requires n + LengthU(v) <= max + 1
    ensures Unsigned(PutU(v, tail), max, n, acc, p) == Ok(acc + v * p, tail)
    decreases v
  {
    var b := PutU(v, tail);
    if v < 128 {
      assert b[1..] == tail;
    } else {
      assert b[1..] == PutU(v / 128, tail);
      UnsignedReads(v / 128, tail, max, n + 1, acc + v % 128 * p, 128 * p);
      GroupStep(acc, v % 128, v / 128, p);
    }
  }

  lemma {:induction false} LengthBound(v: nat, n: nat)
    requires v < Pow128(n) && n >= 1
    ensures LengthU(v) <= n
    decreases n
  {
    if v >= 128 { LengthBound(v / 128, n - 1); }
  }

  lemma {:induction false} Sevens(n: nat)
    ensures Pow2(7 * n) == Pow128(n)
  {
    if n > 0 {
      Sevens(n - 1);
      var k := 7 * (n - 1);
      assert Pow2(k + 2) == 4 * Pow2(k) && Pow2(k + 4) == 4 * Pow2(k + 2) && Pow2(k + 6) == 4 * Pow2(k + 4);
    }
  }

  lemma {:induction false} Pow2Up(a: nat, b: nat)
    requires a <= b
    ensures Pow2(a) <= Pow2(b)
    decreases b
  {
    if a < b { Pow2Up(a, b - 1); }
  }

  /** 2 to the 6 + 7 * n is the half-range of `n + 1` groups. */
  lemma SixMore(n: nat)
    ensures Pow2(7 * n + 6) == 64 * Pow128(n)
  {
    Sevens(n);
    var k := 7 * n;
    assert Pow2(k + 2) == 4 * Pow2(k) && Pow2(k + 4) == 4 * Pow2(k + 2) && Pow2(k + 6) == 4 * Pow2(k + 4);
  }

  lemma Pow2Of32()
    ensures Pow2(32) == 0x1_0000_0000
  {
    Sevens(4);
    assert Pow2(30) == 4 * Pow2(28) && Pow2(32) == 4 * Pow2(30);
    assert Pow128(2) == 16384 && Pow128(4) == 128 * 128 * Pow128(2);
  }

  lemma U32RoundTrip(v: nat, tail: bytes)
    requires v < 0x1_0000_0000
    ensures U32(PutU(v, tail)) == Ok(v, tail)
  {
    Pow2Of32();
    Sevens(5);
    Pow2Up(32, 35);
    LengthBound(v, 5);
    UnsignedReads(v, tail, 5, 1, 0, 1);
  }

  lemma U64RoundTrip(v: nat, tail: bytes)
    requires v < Pow2(64)
    ensures U64(PutU(v, tail)) == Ok(v, tail)
  {
    Sevens(10);
    Pow2Up(64, 70);
    LengthBound(v, 10);
    UnsignedReads(v, tail, 10, 1, 0, 1);
  }

  function LengthS(v: int): nat
    decreases if v < 0 then -v else v
  {
    if -64 <= v < 64 then 1 else 1 + LengthS(v / 128)
  }

  lemma {:induction false} SignedReads(v: int, tail: bytes, max: nat, n: nat, acc: nat, p: nat)
    requires n + LengthS(v) <= max + 1
    ensures Signed(PutS(v, tail), max, n, acc, p) == Ok(acc + v * p, tail)
    decreases if v < 0 then -v else v
  {
    var b := PutS(v, tail);
    if -64 <= v < 64 {
      assert b[1..] == tail;
      if v < 0 { assert (v + 128) * p - 128 * p == v * p; }
    } else {
      assert b[1..] == PutS(v / 128, tail);
      SignedReads(v / 128, tail, max, n + 1, acc + v % 128 * p, 128 * p);
      SignedGroupStep(acc, v % 128, v / 128, p);
    }
  }

  lemma {:induction false} LengthSBound(v: int, n: nat)
    requires n >= 1 && -(64 * Pow128(n - 1)) <= v < 64 * Pow128(n - 1)
    ensures LengthS(v) <= n
    decreases n
  {
    if n == 1 {
      assert Pow128(0) == 1;
    } else if !(-64 <= v < 64) {
      LengthSBound(v / 128, n - 1);
    }
  }

  lemma SignedFits(v: int, bits: nat)
    requires (bits == 32 || bits == 33 || bits == 64) && Within(v, bits)
    ensures LengthS(v) <= MaxBytes(bits)
  {
    var n := MaxBytes(bits);
    SixMore(n - 1);
    Pow2Up(bits - 1, 7 * (n - 1) + 6);
    LengthSBound(v, n);
  }

  /** A signed number in range is read back, whatever follows it. */
  lemma SRoundTrip(v: int, bits: nat, tail: bytes)
    requires (bits == 32 || bits == 33 || bits == 64) && Within(v, bits)
    ensures Sleb(PutS(v, tail), bits) == Ok(v, tail)
  {
    SignedFits(v, bits);
    SignedReads(v, tail, MaxBytes(bits), 1, 0, 1);
  }

  // ----- no encoding is shorter -----

  lemma {:induction false} PutULength(v: nat, tail: bytes)
    ensures |PutU(v, tail)| == LengthU(v) + |tail|
    decreases v
  {
    if v >= 128 { PutULength(v / 128, tail); }
  }

  lemma {:induction false} PutSLength(v: int, tail: bytes)
    ensures |PutS(v, tail)| == LengthS(v) + |tail|
    decreases if v < 0 then -v else v
  {
    if !(-64 <= v < 64) { PutSLength(v / 128, tail); }
  }

  lemma {:induction false} GroupsBound(b: bytes)
    ensures Groups(b) < Pow128(|b|)
    decreases |b|
  {
    if b != [] { GroupsBound(b[1..]); }
  }

  lemma {:induction false} SignedGroupsBound(b: bytes)
    requires b != []
    ensures -(64 * Pow128(|b| - 1)) <= SignedGroups(b) < 64 * Pow128(|b| - 1)
    decreases |b|
  {
    if |b| == 1 {
      assert Groups(b) == b[0] % 128 + 128 * Groups([]) && b[1..] == [];
      assert Pow128(1) == 128 && Pow128(0) == 1;
    } else {
      SignedGroupsBound(b[1..]);
      assert SignedGroups(b) == b[0] % 128 + 128 * SignedGroups(b[1..]);
      assert Pow128(|b| - 1) == 128 * Pow128(|b| - 2);
    }
  }

  /** Whatever bytes are read as a number, `PutU` writes it in no more. */
  lemma PutUIsShortest(b: bytes, bits: nat)
    requires Uleb(b, bits).Ok?
    ensures var r := Uleb(b, bits); |PutU(r.value, r.rest)| <= |b|
  {
    UnsignedIs(b, MaxBytes(bits), 1, 0, 1);
    var h, r := Head(b), Uleb(b, bits);
    GroupsBound(b[..h]);
    LengthBound(r.value, h);
    PutULength(r.value, r.rest);
  }

  /** Nor `PutS`. */
  lemma PutSIsShortest(b: bytes, bits: nat)
    requires bits >= 1 && Sleb(b, bits).Ok?
    ensures var r := Sleb(b, bits); |PutS(r.value, r.rest)| <= |b|
  {
    SignedIs(b, MaxBytes(bits), 1, 0, 1);
    var h, r := Head(b), Sleb(b, bits);
    SignedGroupsBound(b[..h]);
    LengthSBound(r.value, h);
    PutSLength(r.value, r.rest);
  }
}
