/**
 A client of the bounded listing: it reads back the whole entries of each batch
 and resumes from the cookie of the last one.
 */
module WasiPaging {
  import opened LittleEndian
  import opened WasiReaddir

  /** An entry as a guest reads it back. */
  datatype Seen = Seen(next: nat, ino: nat, ty: byte, name: bytes)

  ghost predicate SeenValid(s: Seen) {
    s.next < Pow256(8) && s.ino < Pow256(8) && |s.name| < Pow256(4)
  }

  /** The entries from position `p` to where reading stops, as a guest should see them. */
  function Rest(d: Stream, p: nat): seq<Seen>
    requires |d.cookies| == |d.entries|
    decreases d.Stop() - p
  {
    if p >= d.Stop() then []
    else [Seen(d.cookies[p], InoOf(d.entries[p]), TypeOf(d.entries[p]), d.entries[p].name)] + Rest(d, p + 1)
  }

  function Size(s: Seen): nat { HEADER + |s.name| }

  function Wire(es: seq<Seen>): bytes {
    if es == [] then [] else WireOne(es[0]) + Wire(es[1..])
  }

  function WireOne(s: Seen): (b: bytes)
    ensures |b| == Size(s)
  {
    HeaderOf(s.next, s.ino, |s.name|, s.ty) + s.name
  }

  lemma {:induction false} ListingIsWire(d: Stream, p: nat)
    requires |d.cookies| == |d.entries|
    ensures Listing(d, p) == Wire(Rest(d, p))
    decreases d.Stop() - p
  {
    if p < d.Stop() {
      ListingIsWire(d, p + 1);
    }
  }

  /** The whole entries of a batch; a cut one at the end is left alone. */
  function Parse(b: bytes): seq<Seen>
    decreases |b|
  {
    if |b| < HEADER then []
    else
      var len := FromLE(b[16..20]);
      if |b| < HEADER + len then []
      else [Seen(FromLE(b[..8]), FromLE(b[8..16]), b[20], b[HEADER..HEADER + len])] + Parse(b[HEADER + len..])
  }

  /** How many whole entries a buffer of `n` bytes holds. */
  function Fits(es: seq<Seen>, n: nat): (k: nat)
    ensures k <= |es|
  {
    if es == [] || Size(es[0]) > n then 0 else 1 + Fits(es[1..], n - Size(es[0]))
  }

  lemma HeaderParts(next: nat, ino: nat, len: nat, ty: byte)
    requires next < Pow256(8) && ino < Pow256(8) && len < Pow256(4)
    ensures var h := HeaderOf(next, ino, len, ty);
      && FromLE(h[..8]) == next && FromLE(h[8..16]) == ino && FromLE(h[16..20]) == len && h[20] == ty
      && h[21] == h[22] == h[23] == 0
  {
    var h := HeaderOf(next, ino, len, ty);
    RoundTrip(next, 8);
    RoundTrip(ino, 8);
    RoundTrip(len, 4);
    assert h[..8] == LE(next, 8) && h[8..16] == LE(ino, 8) && h[16..20] == LE(len, 4);
  }

  lemma HeadOf(h: bytes, name: bytes, rest: bytes)
    requires |h| == HEADER
    ensures var b := h + name + rest;
      b[..HEADER] == h && b[HEADER..HEADER + |name|] == name && b[HEADER + |name|..] == rest
  {
  }

  /** An entry parses back to its fields, and what comes after it parses on its own. */
  lemma ParseOne(s: Seen, rest: bytes)
    requires SeenValid(s)
    ensures Parse(WireOne(s) + rest) == [s] + Parse(rest)
  {
    var b := WireOne(s) + rest;
    var h := HeaderOf(s.next, s.ino, |s.name|, s.ty);
    HeaderParts(s.next, s.ino, |s.name|, s.ty);
    HeadOf(h, s.name, rest);
    assert b[..8] == h[..8] && b[8..16] == h[8..16] && b[16..20] == h[16..20];
  }

  /** A cut entry does not parse. */
  lemma ParseCut(s: Seen, rest: bytes, n: nat)
    requires SeenValid(s) && n < Size(s)
    ensures Parse(Take(WireOne(s) + rest, n)) == []
  {
    if n >= HEADER {
      var b := Take(WireOne(s) + rest, n);
      var h := HeaderOf(s.next, s.ino, |s.name|, s.ty);
      HeaderParts(s.next, s.ino, |s.name|, s.ty);
      HeadOf(h, s.name, rest);
      assert b[16..20] == h[16..20];
    }
  }

  lemma TakeMore(a: bytes, b: bytes, n: nat)
    requires |a| <= n
    ensures Take(a + b, n) == a + Take(b, n - |a|)
  {
  }

  lemma ParseMore(s: Seen, rest: bytes, n: nat, tail: seq<Seen>)
    requires SeenValid(s) && Size(s) <= n && Parse(Take(rest, n - Size(s))) == tail
    ensures Parse(Take(WireOne(s) + rest, n)) == [s] + tail
  {
    TakeMore(WireOne(s), rest, n);
    ParseOne(s, Take(rest, n - Size(s)));
  }

  lemma OneMoreFits(es: seq<Seen>, k: nat)
    requires k < |es|
    ensures [es[0]] + es[1..][..k] == es[..1 + k]
  {
  }

  /** The whole entries of a batch are exactly the next entries that fit. */
  lemma {:induction false} ParseBatch(es: seq<Seen>, n: nat)
    requires forall s :: s in es ==> SeenValid(s)
    ensures Parse(Take(Wire(es), n)) == es[..Fits(es, n)]
    decreases |es|
  {
    if es != [] {
      var s, rest := es[0], Wire(es[1..]);
      if Size(s) > n {
        ParseCut(s, rest, n);
      } else {
        var m := n - Size(s);
        ParseBatch(es[1..], m);
        ParseMore(s, rest, n, es[1..][..Fits(es[1..], m)]);
        OneMoreFits(es, Fits(es[1..], m));
      }
    }
  }

  lemma {:induction false} AllFit(es: seq<Seen>, n: nat)
    ensures |Wire(es)| <= n ==> Fits(es, n) == |es|
    decreases |es|
  {
    if es != [] && Size(es[0]) <= n {
      AllFit(es[1..], n - Size(es[0]));
    }
  }

  lemma {:induction false} RestValid(d: Stream, p: nat)
    requires d.Valid()
    ensures forall s :: s in Rest(d, p) ==> SeenValid(s)
    decreases d.Stop() - p
  {
    if p < d.Stop() {
      assert EntryValid(d.entries[p]) && d.cookies[p] < Pow256(8);
      RestValid(d, p + 1);
    }
  }

  lemma {:induction false} RestAt(d: Stream, p: nat, k: nat)
    requires |d.cookies| == |d.entries| && k <= |Rest(d, p)| && p <= d.Stop()
    ensures p + k <= d.Stop()
    ensures Rest(d, p)[k..] == Rest(d, p + k)
    ensures k > 0 ==> Rest(d, p)[k - 1].next == d.cookies[p + k - 1]
    decreases k
  {
    if k > 0 {
      RestAt(d, p + 1, k - 1);
    }
  }

  /** A batch shorter than the buffer is everything up to the end, or up to a read error. */
  lemma ShortBatchIsLast(d: Stream, p: nat, buflen: nat)
    requires d.Valid() && BatchAt(d, p, buflen).Batch? && |BatchAt(d, p, buflen).data| < buflen
    ensures Parse(BatchAt(d, p, buflen).data) == Rest(d, p)
  {
    WholeEntries(d, p, buflen);
    ListingIsWire(d, p);
    AllFit(Rest(d, p), buflen);
  }

  /** What a client keeps of any batch: the next entries, as many as fit, and at least one if there
      is one and the buffer holds it. */
  lemma WholeEntries(d: Stream, p: nat, buflen: nat)
    requires d.Valid() && BatchAt(d, p, buflen).Batch?
    ensures Parse(BatchAt(d, p, buflen).data) == Rest(d, p)[..Fits(Rest(d, p), buflen)]
    ensures |Parse(BatchAt(d, p, buflen).data)| == Fits(Rest(d, p), buflen)
    ensures p < d.Stop() && HEADER + |d.entries[p].name| <= buflen ==> Parse(BatchAt(d, p, buflen).data) != []
  {
    ListingIsWire(d, p);
    RestValid(d, p);
    ParseBatch(Rest(d, p), buflen);
  }

  // ------------------------------------------------------------ resuming

  /** Page through a directory: ask, keep the whole entries, ask again from the last one's cookie,
      until a batch does not fill the buffer or holds no whole entry. */
  function Collect(d: Stream, cookie: nat, buflen: nat, rounds: nat): seq<Seen>
    requires |d.cookies| == |d.entries|
    decreases rounds
  {
    match BatchAt(d, Position(d, cookie), buflen)
    case BatchError(_) => []
    case Batch(b) =>
      var es := Parse(b);
      if |b| < buflen || es == [] || rounds == 0 then es
      else es + Collect(d, es[|es| - 1].next, buflen, rounds - 1)
  }

  lemma {:induction false} SoughtFinds(cookies: seq<nat>, i: nat)
    requires i < |cookies|
    requires forall a, b :: 0 <= a < b < |cookies| ==> cookies[a] != cookies[b]
    ensures Sought(cookies, cookies[i]) == i + 1
    decreases |cookies|
  {
    if i > 0 {
      SoughtFinds(cookies[1..], i - 1);
    }
  }

  /** The cookie of the last entry kept resumes exactly past it. */
  lemma ResumesPast(d: Stream, p: nat, k: nat)
    requires d.Valid() && p <= d.Stop() && 0 < k <= |Rest(d, p)|
    ensures p + k <= d.Stop()
    ensures Position(d, Rest(d, p)[k - 1].next) == p + k && Rest(d, p)[k..] == Rest(d, p + k)
  {
    RestAt(d, p, k);
    SoughtFinds(d.cookies, p + k - 1);
  }

  /** A full batch is followed by the next one, which starts exactly where it ended. */
  lemma NextPage(d: Stream, p: nat, cookie: nat, buflen: nat, rounds: nat)
    returns (first: seq<Seen>, next: nat)
    requires d.Valid() && p < d.Stop() && Position(d, cookie) == p && rounds > 0
    requires HEADER + |d.entries[p].name| <= buflen
    requires BatchAt(d, p, buflen).Batch? && |BatchAt(d, p, buflen).data| >= buflen
    ensures Collect(d, cookie, buflen, rounds) == first + Collect(d, next, buflen, rounds - 1)
    ensures p < Position(d, next) <= d.Stop() && Rest(d, p) == first + Rest(d, Position(d, next))
  {
    WholeEntries(d, p, buflen);
    var es := Parse(BatchAt(d, p, buflen).data);
    CollectUnrolls(d, cookie, buflen, rounds, es);
    first, next := es, es[|es| - 1].next;
    FirstAndRest(d, p, es, |es|);
  }

  lemma CollectUnrolls(d: Stream, cookie: nat, buflen: nat, rounds: nat, es: seq<Seen>)
    requires |d.cookies| == |d.entries| && rounds > 0 && es != []
    requires var b := BatchAt(d, Position(d, cookie), buflen);
      b.Batch? && |b.data| >= buflen && es == Parse(b.data)
    ensures Collect(d, cookie, buflen, rounds) == es + Collect(d, es[|es| - 1].next, buflen, rounds - 1)
  {
  }

  lemma FirstAndRest(d: Stream, p: nat, es: seq<Seen>, k: nat)
    requires d.Valid() && p <= d.Stop() && 0 < k <= |Rest(d, p)| && es == Rest(d, p)[..k]
    ensures p < Position(d, es[k - 1].next) <= d.Stop()
    ensures Rest(d, p) == es + Rest(d, Position(d, es[k - 1].next))
  {
    ResumesPast(d, p, k);
    assert es[k - 1] == Rest(d, p)[k - 1];
    assert Rest(d, p)[..k] + Rest(d, p)[k..] == Rest(d, p);
  }

  /** A batch that does not fill the buffer is the last. */
  lemma LastPage(d: Stream, p: nat, cookie: nat, buflen: nat, rounds: nat)
    requires d.Valid() && p <= d.Stop() && Position(d, cookie) == p && buflen > 0
    requires p == d.Stop() || BatchAt(d, p, buflen).BatchError? || |BatchAt(d, p, buflen).data| < buflen
    ensures Collect(d, cookie, buflen, rounds) == Rest(d, p)
  {
    if BatchAt(d, p, buflen).Batch? {
      ShortBatchIsLast(d, p, buflen);
    }
  }

  lemma AnyPage(d: Stream, p: nat, cookie: nat, buflen: nat, rounds: nat)
    returns (more: bool, first: seq<Seen>, next: nat)
    requires d.Valid() && p <= d.Stop() && Position(d, cookie) == p
    requires buflen > 0 && rounds >= d.Stop() - p
    requires p < d.Stop() ==> HEADER + |d.entries[p].name| <= buflen
    ensures !more ==> Collect(d, cookie, buflen, rounds) == Rest(d, p)
    ensures more ==>
      && rounds > 0 && Collect(d, cookie, buflen, rounds) == first + Collect(d, next, buflen, rounds - 1)
      && p < Position(d, next) <= d.Stop() && Rest(d, p) == first + Rest(d, Position(d, next))
  {
    more, first, next := false, [], 0;
    if p < d.Stop() && BatchAt(d, p, buflen).Batch? && |BatchAt(d, p, buflen).data| >= buflen {
      more := true;
      first, next := NextPage(d, p, cookie, buflen, rounds);
    } else {
      LastPage(d, p, cookie, buflen, rounds);
    }
  }

  /** The client sees every entry, once and in order, whenever the buffer holds a header and the
      longest name. */
  lemma {:induction false} PagingIsExact(d: Stream, cookie: nat, buflen: nat, rounds: nat)
    requires d.Valid() && Position(d, cookie) <= d.Stop()
    requires forall i :: 0 <= i < |d.entries| ==> HEADER + |d.entries[i].name| <= buflen
    requires buflen > 0 && rounds >= d.Stop() - Position(d, cookie)
    ensures Collect(d, cookie, buflen, rounds) == Rest(d, Position(d, cookie))
    decreases rounds
  {
    var p := Position(d, cookie);
    var more, first, next := AnyPage(d, p, cookie, buflen, rounds);
    if more {
      PagingIsExact(d, next, buflen, rounds - 1);
    }
  }

  /** From cookie 0, the whole directory, up to the end or a read error. */
  lemma WholeDirectory(d: Stream, buflen: nat)
    requires d.Valid() && buflen > 0
    requires forall i :: 0 <= i < |d.entries| ==> HEADER + |d.entries[i].name| <= buflen
    ensures Collect(d, 0, buflen, d.Stop()) == Rest(d, 0)
    ensures |Rest(d, 0)| == d.Stop()
  {
    PagingIsExact(d, 0, buflen, d.Stop());
    RestLength(d, 0);
  }

  lemma {:induction false} RestLength(d: Stream, p: nat)
    requires |d.cookies| == |d.entries| && p <= d.Stop()
    ensures |Rest(d, p)| == d.Stop() - p
    decreases d.Stop() - p
  {
    if p < d.Stop() {
      RestLength(d, p + 1);
    }
  }

  lemma {:induction false} RestIs(d: Stream, p: nat, i: nat)
    requires |d.cookies| == |d.entries| && p <= d.Stop() && i < |Rest(d, p)|
    ensures p + i < d.Stop()
    ensures var e := d.entries[p + i];
      Rest(d, p)[i] == Seen(d.cookies[p + i], InoOf(e), TypeOf(e), e.name)
    decreases i
  {
    if i > 0 { RestIs(d, p + 1, i - 1); }
  }

  /** What the client is told of each entry, in the entry's own fields: the name and the cookie behind it; the type
      the kernel reports, and the inode with it; where the kernel does not know the type, what a stat of the name
      says, if it can be asked, with its inode unless that is 0. */
  lemma ToldOfEntry(d: Stream, buflen: nat, i: nat)
    requires d.Valid() && buflen > 0 && i < d.Stop()
    requires forall j :: 0 <= j < |d.entries| ==> HEADER + |d.entries[j].name| <= buflen
    ensures |Collect(d, 0, buflen, d.Stop())| == d.Stop()
    ensures var told, e := Collect(d, 0, buflen, d.Stop())[i], d.entries[i];
      && told.name == e.name && told.next == d.cookies[i]
      && (e.dType != 0 ==> told.ty == e.dType && told.ino == e.dIno)
      && (e.dType == 0 && e.stat.Stat? ==>
            told.ty == e.stat.ty && told.ino == if e.stat.ino != 0 then e.stat.ino else e.dIno)
      && (e.dType == 0 && e.stat.NoStat? ==> told.ty == 0 && told.ino == e.dIno)
  {
    WholeDirectory(d, buflen);
    RestIs(d, 0, i);
  }

  /** A batch is an error exactly when there is nothing before the failure, and it is the failure's. */
  lemma ErrorExactly(d: Stream, cookie: nat, buflen: nat, errno: int)
    requires |d.cookies| == |d.entries|
    ensures BatchAt(d, Position(d, cookie), buflen) == BatchError(errno)
       <==> Position(d, cookie) >= d.Stop() && d.failure.FailsAt? && d.failure.pos <= |d.entries|
            && d.failure.errno == errno
  {
    var p := Position(d, cookie);
    if p < d.Stop() {
      assert |Listing(d, p)| >= |Encode(d.entries[p], d.cookies[p])| > 0;
    }
  }
}
