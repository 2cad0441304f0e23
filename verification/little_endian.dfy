/** Little-endian integers as byte sequences. */
module LittleEndian {
  type byte = x: int | 0 <= x < 256

  type bytes = seq<byte>

  /** v >> (8 * i) */
  function Shift(v: nat, i: nat): nat
    decreases i
  {
    if i == 0 then v else Shift(v / 256, i - 1)
  }

  function ByteAt(v: nat, i: nat): byte {
    Shift(v, i) % 256
  }

  function LE(v: nat, n: nat): (b: bytes)
    ensures |b| == n
  {
    seq(n, i requires 0 <= i < n => ByteAt(v, i))
  }

  function FromLE(b: bytes): nat {
    if b == [] then 0 else b[0] + 256 * FromLE(b[1..])
  }

  function Pow256(n: nat): (p: nat)
    ensures p > 0
  {
    if n == 0 then 1 else 256 * Pow256(n - 1)
  }

  lemma {:induction false} RoundTrip(v: nat, n: nat)
    requires v < Pow256(n)
    ensures FromLE(LE(v, n)) == v
    decreases n
  {
    if n > 0 {
      RoundTrip(v / 256, n - 1);
      assert forall i :: 0 <= i < n - 1 ==> ByteAt(v, i + 1) == ByteAt(v / 256, i);
      assert LE(v, n)[1..] == LE(v / 256, n - 1);
      assert LE(v, n)[0] == ByteAt(v, 0);
    }
  }

  lemma {:induction false} FromLEBound(b: bytes)
    ensures FromLE(b) < Pow256(|b|)
  {
    if b != [] {
      FromLEBound(b[1..]);
    }
  }

  lemma Assoc(a: bytes, b: bytes, c: bytes)
    ensures a + b + c == a + (b + c)
  {
  }

  lemma TakeOfConcat(a: bytes, b: bytes, n: nat)
    requires n <= |b|
    ensures (a + b)[..|a| + n] == a + b[..n]
  {
  }

  /** Every byte string is the encoding of its value. */
  lemma LittleAgain(b: bytes)
    ensures LE(FromLE(b), |b|) == b
  {
    forall i | 0 <= i < |b| ensures ByteAt(FromLE(b), i) == b[i] {
      LittleByte(b, i);
    }
  }

  lemma {:induction false} LittleByte(b: bytes, i: nat)
    requires i < |b|
    ensures ByteAt(FromLE(b), i) == b[i]
    decreases |b|
  {
    if i > 0 { LittleByte(b[1..], i - 1); }
  }
}
