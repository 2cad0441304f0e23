/**
 * The frame around an entry of the code cache: magic, format, length, digest
 * and payload. The digest is any function to 32 bytes. It is not taken to be
 * injective, which no such function is; where it matters the result is either
 * the right beam or two beams with one digest.
 */
module CodeCacheFrame {
  import opened LittleEndian

  /** "WASMJIT" and a zero */
  const MAGIC: bytes := [87, 65, 83, 77, 74, 73, 84, 0]
  const FORMAT: bytes := [0, 1]
  const HEADER := 46
  const TWO_32 := 0x1_0000_0000

  type Digest = d: bytes | |d| == 32 witness seq(32, _ => 0)

  type Hash = bytes -> Digest

  datatype Option<T> = None | Some(value: T)

  function Big(n: nat, k: nat): (b: bytes)
    ensures |b| == k
  {
    seq(k, i requires 0 <= i < k => ByteAt(n, k - 1 - i))
  }

  function FromBig(b: bytes): nat {
    if b == [] then 0 else 256 * FromBig(b[..|b| - 1]) + b[|b| - 1]
  }

  lemma ByteDown(n: nat, i: nat)
    ensures ByteAt(n, i) == if i == 0 then n % 256 else ByteAt(n / 256, i - 1)
  {
  }

  lemma BigEnds(n: nat, k: nat)
    requires k > 0
    ensures Big(n, k) == Big(n / 256, k - 1) + [n % 256]
  {
    forall i | 0 <= i < k ensures Big(n, k)[i] == (Big(n / 256, k - 1) + [n % 256])[i] {
      ByteDown(n, k - 1 - i);
    }
  }

  lemma {:induction false} BigInverts(n: nat, b: bytes)
    requires n < Pow256(|b|)
    ensures FromBig(b) == n <==> b == Big(n, |b|)
  {
    if b != [] {
      var init := b[..|b| - 1];
      BigInverts(n / 256, init);
      assert b == init + [b[|b| - 1]];
      BigEnds(n, |b|);
    }
  }

  lemma {:induction false} FromBigFits(b: bytes)
    ensures FromBig(b) < Pow256(|b|)
  {
    if b != [] { FromBigFits(b[..|b| - 1]); }
  }

  /** The length field keeps the low 32 bits. */
  function LengthField(n: nat): (b: bytes)
    ensures |b| == 4
  {
    Big(n % TWO_32, 4)
  }

  lemma LengthFits(n: nat, b: bytes)
    requires n < TWO_32 && |b| == 4
    ensures FromBig(b) < TWO_32 && (FromBig(b) == n <==> b == LengthField(n))
  {
    FourBytes(|b|);
    FromBigFits(b);
    BigInverts(n, b);
  }

  lemma FourBytes(k: nat)
    requires k == 4
    ensures Pow256(k) == TWO_32
  {
    assert Pow256(k) == 256 * Pow256(k - 1);
    assert Pow256(k - 2) == 256 * Pow256(k - 3);
    assert Pow256(k - 3) == 256 * Pow256(k - 4);
  }

  /** `frame` */
  function Frame(h: Hash, beam: bytes): (f: bytes)
    ensures |f| == HEADER + |beam|
  {
    MAGIC + FORMAT + LengthField(|beam|) + h(beam) + beam
  }

  /** `unframe` */
  function Unframe(h: Hash, f: bytes): Option<bytes> {
    if |f| >= HEADER && f[..8] == MAGIC && f[8..10] == FORMAT && FromBig(f[10..14]) == |f| - HEADER
      && h(f[HEADER..]) == f[14..HEADER]
    then Some(f[HEADER..]) else None
  }

  lemma Slices(m: bytes, v: bytes, n: bytes, d: bytes, p: bytes)
    requires |m| == 8 && |v| == 2 && |n| == 4 && |d| == 32
    ensures var f := m + v + n + d + p;
      |f| == HEADER + |p| && f[..8] == m && f[8..10] == v && f[10..14] == n && f[14..HEADER] == d && f[HEADER..] == p
  {
  }

  lemma FrameParts(h: Hash, beam: bytes)
    ensures var f := Frame(h, beam);
      && f[..8] == MAGIC && f[8..10] == FORMAT && f[10..14] == LengthField(|beam|)
      && f[14..HEADER] == h(beam) && f[HEADER..] == beam
  {
    Slices(MAGIC, FORMAT, LengthField(|beam|), h(beam), beam);
  }

  /** `unframe` accepts exactly the images of `frame` for beams below 2^32 bytes. */
  lemma UnframeExact(h: Hash, f: bytes, beam: bytes)
    ensures Unframe(h, f) == Some(beam) <==> |beam| < TWO_32 && f == Frame(h, beam)
  {
    if Unframe(h, f) == Some(beam) { UnframedIsFrame(h, f, beam); }
    if |beam| < TWO_32 && f == Frame(h, beam) {
      FrameParts(h, beam);
      LengthFits(|beam|, f[10..14]);
    }
  }

  lemma UnframedIsFrame(h: Hash, f: bytes, beam: bytes)
    requires Unframe(h, f) == Some(beam)
    ensures |beam| < TWO_32 && f == Frame(h, beam)
  {
    var n := f[10..14];
    LengthFits(|beam| % TWO_32, n);
    assert |beam| < TWO_32;
    assert n == LengthField(|beam|);
    Parted(f);
  }

  lemma Parted(f: bytes)
    requires |f| >= HEADER
    ensures f == f[..8] + f[8..10] + f[10..14] + f[14..HEADER] + f[HEADER..]
  {
  }

  /** Beams of 2^32 bytes and more are written and never read back. */
  lemma FrameRoundTrip(h: Hash, beam: bytes)
    ensures Unframe(h, Frame(h, beam)) == if |beam| < TWO_32 then Some(beam) else None
  {
    UnframeExact(h, Frame(h, beam), beam);
    FrameParts(h, beam);
    LengthFits(0, Frame(h, beam)[10..14]);
  }

  // ----- damage -----

  /**
   * Damage since f was written that did not touch both the digest and the
   * payload, or that broke the first ten bytes, or that left less than a header.
   */
  predicate Damaged(f: bytes, g: bytes) {
    || g == f
    || |g| < HEADER
    || g[..8] != MAGIC
    || g[8..10] != FORMAT
    || (|f| >= HEADER && (g[14..HEADER] == f[14..HEADER] || g[HEADER..] == f[HEADER..]))
  }

  predicate Collide(h: Hash, a: bytes, b: bytes) {
    a != b && h(a) == h(b)
  }

  /** A torn write is such damage. */
  lemma TruncationIsDamage(f: bytes, n: nat)
    requires n <= |f|
    ensures Damaged(f, f[..n])
  {
    if n >= HEADER { assert f[..n][14..HEADER] == f[14..HEADER]; }
  }

  /** A damaged frame is a miss or the beam that was framed, unless the damage found a collision. */
  lemma DamageIsAMiss(h: Hash, beam: bytes, g: bytes)
    requires Damaged(Frame(h, beam), g) && Unframe(h, g).Some?
    ensures Unframe(h, g) == Some(beam) || Collide(h, beam, Unframe(h, g).value)
  {
    FrameParts(h, beam);
  }

  /** Losing or gaining bytes at the end is always a miss, whatever the digest does. */
  lemma LengthGuards(h: Hash, beam: bytes, g: bytes)
    requires |beam| < TWO_32 && |g| != HEADER + |beam| && |g| >= HEADER && g[10..14] == LengthField(|beam|)
    ensures Unframe(h, g) == None
  {
    LengthFits(|beam|, g[10..14]);
  }

  /**
   * Outside `Damaged` the claim fails: rewriting payload, length and digest
   * together turns any frame into any other.
   */
  lemma ForgingIsPossible(h: Hash, beam: bytes, other: bytes)
    requires beam != other && |other| < TWO_32 && h(beam) != h(other)
    ensures Unframe(h, Frame(h, other)) == Some(other) && !Damaged(Frame(h, beam), Frame(h, other))
  {
    FrameRoundTrip(h, other);
    FrameParts(h, beam);
    FrameParts(h, other);
  }
}
