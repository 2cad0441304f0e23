/**
 Bounded directory listing: batches of `fd_readdir` entries in the WASI layout,
 and a client that pages through them by cookie.
 */
module WasiReaddir {
  import opened LittleEndian

  const HEADER: nat := 24
  const UNKNOWN: byte := 0

  /** What fstatat on a name answers, when it is asked. */
  datatype Stat = NoStat | Stat(ty: byte, ino: nat)

  datatype Dirent = Dirent(name: bytes, dIno: nat, dType: byte, stat: Stat)

  datatype Failure = NoFailure | FailsAt(pos: nat, errno: int)

  /** A directory stream. `cookies[i]` is what telldir answers once entry `i` has been read. */
  datatype Stream = Stream(entries: seq<Dirent>, cookies: seq<nat>, failure: Failure)
  {
    ghost predicate Valid() {
      && |cookies| == |entries|
      && (forall i :: 0 <= i < |cookies| ==> 0 < cookies[i] < Pow256(8))
      && (forall i, j :: 0 <= i < j < |cookies| ==> cookies[i] != cookies[j])
      && (forall i :: 0 <= i < |entries| ==> EntryValid(entries[i]))
    }

    /** Where reading stops: the first failure, or the end. */
    function Stop(): nat {
      if failure.FailsAt? && failure.pos < |entries| then failure.pos else |entries|
    }

    predicate Fails() {
      failure.FailsAt? && failure.pos <= |entries|
    }
  }

  ghost predicate EntryValid(e: Dirent) {
    |e.name| < Pow256(4) && e.dIno < Pow256(8) && (e.stat.Stat? ==> e.stat.ino < Pow256(8))
  }

  function TypeOf(e: Dirent): byte {
    if e.dType == UNKNOWN && e.stat.Stat? then e.stat.ty else e.dType
  }

  function InoOf(e: Dirent): nat {
    if e.dType == UNKNOWN && e.stat.Stat? && e.stat.ino != 0 then e.stat.ino else e.dIno
  }

  /** The header and name of one entry, as a guest reads it. */
  function Encode(e: Dirent, next: nat): (b: bytes)
    ensures |b| == HEADER + |e.name|
  {
    HeaderOf(next, InoOf(e), |e.name|, TypeOf(e)) + e.name
  }

  function HeaderOf(next: nat, ino: nat, len: nat, ty: byte): (b: bytes)
    ensures |b| == HEADER
  {
    LE(next, 8) + LE(ino, 8) + LE(len, 4) + [ty, 0, 0, 0]
  }

  /** Everything from position `p` to where reading stops. */
  function Listing(d: Stream, p: nat): bytes
    requires |d.cookies| == |d.entries|
    decreases d.Stop() - p
  {
    if p >= d.Stop() then [] else Encode(d.entries[p], d.cookies[p]) + Listing(d, p + 1)
  }

  function Position(d: Stream, cookie: nat): nat {
    if cookie == 0 then 0 else Sought(d.cookies, cookie)
  }

  /** seekdir to a cookie of this stream; one it never emitted is taken to be the end. */
  function Sought(cookies: seq<nat>, cookie: nat): nat {
    if cookies == [] then 0 else if cookies[0] == cookie then 1 else 1 + Sought(cookies[1..], cookie)
  }

  datatype Batch = Batch(data: bytes) | BatchError(errno: int)

  function Take(b: bytes, n: nat): bytes {
    if |b| <= n then b else b[..n]
  }

  /** One batch, in one line: the listing, cut at the buffer's size. */
  function BatchAt(d: Stream, p: nat, buflen: nat): Batch
    requires |d.cookies| == |d.entries|
  {
    if Listing(d, p) == [] && d.Fails() then BatchError(d.failure.errno)
    else Batch(Take(Listing(d, p), buflen))
  }

  // ------------------------------------------------------------ the loop

  /** put_u64 and put_u32 */
  method Put(out: array<byte>, at: nat, v: nat, n: nat)
    requires at + n <= out.Length
    modifies out
    ensures out[..at + n] == old(out[..at]) + LE(v, n)
    ensures out[at + n..] == old(out[at + n..])
  {
    for i := 0 to n
      invariant out[..at] == old(out[..at]) && out[at + n..] == old(out[at + n..])
      invariant forall j :: 0 <= j < i ==> out[at + j] == LE(v, n)[j]
    {
      out[at + i] := ByteAt(v, i);
    }
  }

  /** memcpy of the first `n` bytes of `src` */
  method Copy(out: array<byte>, at: nat, src: bytes, n: nat)
    requires at + n <= out.Length && n <= |src|
    modifies out
    ensures out[..at + n] == old(out[..at]) + src[..n]
  {
    for i := 0 to n
      invariant out[..at] == old(out[..at])
      invariant forall j :: 0 <= j < i ==> out[at + j] == src[j]
    {
      out[at + i] := src[i];
    }
  }

  method PutHeader(out: array<byte>, at: nat, next: nat, ino: nat, len: nat, ty: byte)
    requires at + HEADER <= out.Length
    modifies out
    ensures out[..at + HEADER] == old(out[..at]) + HeaderOf(next, ino, len, ty)
  {
    ghost var before := out[..at];
    Put(out, at, next, 8);
    Put(out, at + 8, ino, 8);
    Assoc(before, LE(next, 8), LE(ino, 8));
    Put(out, at + 16, len, 4);
    Assoc(before, LE(next, 8) + LE(ino, 8), LE(len, 4));
    ghost var head := LE(next, 8) + LE(ino, 8) + LE(len, 4);
    assert out[..at + 20] == before + head;
    out[at + 20] := ty;
    out[at + 21], out[at + 22], out[at + 23] := 0, 0, 0;
    Tail(out, at, before, head, ty);
  }

  lemma Tail(out: array<byte>, at: nat, before: bytes, head: bytes, ty: byte)
    requires at + HEADER <= out.Length && |before| == at && |head| == 20
    requires out[..at + 20] == before + head
    requires out[at + 20] == ty && out[at + 21] == out[at + 22] == out[at + 23] == 0
    ensures out[..at + HEADER] == before + (head + [ty, 0, 0, 0])
  {
    assert out[..at + HEADER] == out[..at + 20] + [ty, 0, 0, 0];
    Assoc(before, head, [ty, 0, 0, 0]);
  }

  /** A whole entry. */
  method PutEntry(out: array<byte>, used: nat, e: Dirent, next: nat)
    requires used + HEADER + |e.name| <= out.Length
    modifies out
    ensures out[..used + HEADER + |e.name|] == old(out[..used]) + Encode(e, next)
  {
    ghost var before, head := out[..used], HeaderOf(next, InoOf(e), |e.name|, TypeOf(e));
    PutHeader(out, used, next, InoOf(e), |e.name|, TypeOf(e));
    Copy(out, used + HEADER, e.name, |e.name|);
    assert e.name[..|e.name|] == e.name;
    Assoc(before, head, e.name);
  }

  /** The entry that does not fit, as much of it as there is room for. */
  method PutTruncated(out: array<byte>, used: nat, e: Dirent, next: nat)
    requires used <= out.Length < used + HEADER + |e.name|
    modifies out
    ensures out[..out.Length] == old(out[..used]) + Encode(e, next)[..out.Length - used]
  {
    ghost var before, head := out[..used], HeaderOf(next, InoOf(e), |e.name|, TypeOf(e));
    var room := out.Length - used;
    var hdr := NewHeader(next, InoOf(e), |e.name|, TypeOf(e));
    if room < HEADER {
      Copy(out, used, hdr, room);
      CutHead(head, e.name, room);
    } else {
      Copy(out, used, hdr, HEADER);
      assert head[..HEADER] == head;
      Copy(out, used + HEADER, e.name, room - HEADER);
      Assoc(before, head, e.name[..room - HEADER]);
      TakeOfConcat(head, e.name, room - HEADER);
    }
  }

  /** The header built on its own first, as a buffer of its own. */
  method NewHeader(next: nat, ino: nat, len: nat, ty: byte) returns (hdr: bytes)
    ensures hdr == HeaderOf(next, ino, len, ty)
  {
    var buf := new byte[HEADER];
    PutHeader(buf, 0, next, ino, len, ty);
    hdr := buf[..HEADER];
    assert hdr == [] + HeaderOf(next, ino, len, ty);
  }

  lemma CutHead(head: bytes, name: bytes, n: nat)
    requires n <= |head|
    ensures (head + name)[..n] == head[..n]
  {
  }

  /** What the buffer holds, and what is still to come. */
  lemma ListingSplits(d: Stream, p: nat, got: bytes)
    requires |d.cookies| == |d.entries| && p < d.Stop()
    ensures got + Listing(d, p) == got + Encode(d.entries[p], d.cookies[p]) + Listing(d, p + 1)
  {
    Assoc(got, Encode(d.entries[p], d.cookies[p]), Listing(d, p + 1));
  }

  lemma CutThere(got: bytes, enc: bytes, rest: bytes, n: nat)
    requires |got| <= n <= |got| + |enc|
    ensures (got + enc + rest)[..n] == got + enc[..n - |got|]
  {
  }

  /** The loop of `readdir`: fill `out` from position `p`, and say how much of it is filled. */
  method Fill(d: Stream, p0: nat, out: array<byte>) returns (used: nat, failed: bool)
    requires d.Valid()
    modifies out
    ensures used <= out.Length
    ensures out[..used] == Take(Listing(d, p0), out.Length)
    ensures failed <==> |Listing(d, p0)| <= out.Length && d.Fails()
  {
    var p := p0;
    used := 0;
    ghost var total, got := Listing(d, p0), [];
    while p < d.Stop()
      invariant used <= out.Length && out[..used] == got
      invariant total == got + Listing(d, p)
      decreases d.Stop() - p
    {
      var e, next := d.entries[p], d.cookies[p];
      ListingSplits(d, p, got);
      if used + HEADER + |e.name| > out.Length {
        CutThere(got, Encode(e, next), Listing(d, p + 1), out.Length);
        if used < out.Length {
          PutTruncated(out, used, e, next);
          used := out.Length;
        }
        return used, false;
      }
      PutEntry(out, used, e, next);
      got := got + Encode(e, next);
      used, p := used + HEADER + |e.name|, p + 1;
    }
    failed := d.Fails();
  }

  /** One batch. Nothing past the buffer is written, and an error is answered only with nothing read. */
  method Readdir(d: Stream, cookie: nat, buflen: nat) returns (r: Batch)
    requires d.Valid()
    ensures r == BatchAt(d, Position(d, cookie), buflen)
    ensures r.Batch? ==> |r.data| <= buflen
  {
    var out := new byte[buflen];
    var used, failed := Fill(d, Position(d, cookie), out);
    if failed && used == 0 { return BatchError(d.failure.errno); }
    r := Batch(out[..used]);
  }
}
