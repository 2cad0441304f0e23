/**
 * The life of an entry on disk: stores that write a temporary piece by piece
 * and publish it by renaming, crashes between any two steps, eviction, damage,
 * and lookups at any point.
 */
module CodeCacheStore {
  import opened CodeCacheFrame
  import opened Decimals
  import opened LittleEndian

  // ----- names in the directory -----

  function HexDigit(v: nat): byte
    requires v < 16
  {
    if v < 10 then 48 + v else 55 + v
  }

  function Hex(key: bytes): (s: bytes)
    ensures |s| == 2 * |key|
  {
    if key == [] then [] else [HexDigit(key[0] / 16), HexDigit(key[0] % 16)] + Hex(key[1..])
  }

  const BEAM: bytes := [46, 98, 101, 97, 109]
  const TMP: bytes := [46, 116, 109, 112]

  /** `path` */
  function EntryName(key: bytes): bytes { Hex(key) + BEAM }

  function TempName(n: nat): bytes { Decimal(n) + TMP }

  lemma {:induction false} HexIsInjective(a: bytes, b: bytes)
    requires Hex(a) == Hex(b)
    ensures a == b
  {
    if a != [] {
      assert Hex(a)[0] == Hex(b)[0] && Hex(a)[1] == Hex(b)[1];
      assert a[0] / 16 == b[0] / 16 && a[0] % 16 == b[0] % 16;
      assert Hex(a)[2..] == Hex(a[1..]) && Hex(b)[2..] == Hex(b[1..]);
      HexIsInjective(a[1..], b[1..]);
      assert a == [a[0]] + a[1..] && b == [b[0]] + b[1..];
    }
  }

  /** No two keys share a file. */
  lemma EntriesApart(a: bytes, b: bytes)
    ensures EntryName(a) == EntryName(b) ==> a == b
  {
    if EntryName(a) == EntryName(b) {
      assert Hex(a) == EntryName(a)[..|EntryName(a)| - 5] && Hex(b) == EntryName(b)[..|EntryName(b)| - 5];
      HexIsInjective(a, b);
    }
  }

  lemma TempsApart(m: nat, n: nat)
    ensures TempName(m) == TempName(n) ==> m == n
  {
    if TempName(m) == TempName(n) {
      assert Decimal(m) == TempName(m)[..|TempName(m)| - 4] && Decimal(n) == TempName(n)[..|TempName(n)| - 4];
      DecimalInverts(m);
      DecimalInverts(n);
    }
  }

  /** A temporary is never taken for an entry. */
  lemma TempIsNoEntry(n: nat, key: bytes)
    ensures TempName(n) != EntryName(key)
  {
    assert TempName(n)[|TempName(n)| - 1] == 112;
    assert EntryName(key)[|EntryName(key)| - 1] == 109;
  }

  // ----- the state -----

  /**
   * A regular file, or something else (a directory, a symlink). Of a file,
   * `wrote` is what was written into it and `now` is what it holds: they differ
   * by the damage it took.
   */
  datatype Node = File(wrote: bytes, now: bytes) | Other

  type Disk = map<bytes, Node>

  /** One call of `store/2`: it has written `done` bytes of its frame. */
  datatype Store = Store(key: bytes, beam: bytes, done: nat, closed: bool)

  /** `given` are the pairs `store/2` was called with; `left` are the temporaries of stores a crash cut off. */
  datatype State = State(disk: Disk, stores: map<nat, Store>, given: set<(bytes, bytes)>, left: set<nat>)

  datatype Action =
    | Begin(n: nat, key: bytes, beam: bytes)
    | Write(n: nat, count: nat)
    | Close(n: nat)
    | Publish(n: nat)
    | GiveUp(n: nat)
    | Crash
    | Evict(names: set<bytes>)
    | Damage(name: bytes, now: bytes)

  /** `lookup` once the directory may be used: `read` and `unframe` */
  function Lookup(h: Hash, disk: Disk, key: bytes): Option<bytes> {
    var name := EntryName(key);
    if name in disk && disk[name].File? then Unframe(h, disk[name].now) else None
  }

  predicate Enabled(h: Hash, s: State, a: Action) {
    match a
    case Begin(n, _, _) => n !in s.stores && (TempName(n) in s.disk ==> s.disk[TempName(n)].File?)
    case Write(n, count) =>
      n in s.stores && !s.stores[n].closed && s.stores[n].done + count <= |Frame(h, s.stores[n].beam)|
    case Close(n) => n in s.stores && !s.stores[n].closed && s.stores[n].done == |Frame(h, s.stores[n].beam)|
    case Publish(n) => n in s.stores && s.stores[n].closed && TempName(n) in s.disk
    case GiveUp(n) => n in s.stores
    case Damage(name, now) =>
      && name in s.disk && s.disk[name].File? && Damaged(s.disk[name].wrote, now)
      && forall n :: n in s.stores && !s.stores[n].closed ==> name != TempName(n)
    case _ => true
  }

  function Step(h: Hash, s: State, a: Action): State
    requires Enabled(h, s, a)
  {
    match a
    case Begin(n, key, beam) =>
      s.(disk := s.disk[TempName(n) := File([], [])], stores := s.stores[n := Store(key, beam, 0, false)],
         given := s.given + {(key, beam)}, left := s.left - {n})
    case Write(n, count) =>
      var st := s.stores[n];
      var upTo := Frame(h, st.beam)[..st.done + count];
      s.(disk := if TempName(n) in s.disk then s.disk[TempName(n) := File(upTo, upTo)] else s.disk,
         stores := s.stores[n := st.(done := st.done + count)])
    case Close(n) => s.(stores := s.stores[n := s.stores[n].(closed := true)])
    case Publish(n) =>
      s.(disk := (s.disk - {TempName(n)})[EntryName(s.stores[n].key) := s.disk[TempName(n)]], stores := s.stores - {n})
    case GiveUp(n) => s.(disk := s.disk - {TempName(n)}, stores := s.stores - {n})
    case Crash => s.(stores := map[], left := s.left + s.stores.Keys)
    case Evict(names) => s.(disk := s.disk - names)
    case Damage(name, now) => s.(disk := s.disk[name := s.disk[name].(now := now)])
  }

  // ----- the invariant -----

  predicate IsFrameOf(h: Hash, node: Node, beam: bytes) {
    node.File? ==> node.wrote == Frame(h, beam) && Damaged(node.wrote, node.now)
  }

  /** The temporary of a running store holds what the store has written, undamaged while it is being written. */
  predicate TempOk(h: Hash, s: State, n: nat) {
    n in s.stores ==>
      var st := s.stores[n];
      && st.done <= |Frame(h, st.beam)|
      && (st.key, st.beam) in s.given
      && (st.closed ==> st.done == |Frame(h, st.beam)|)
      && (TempName(n) in s.disk ==>
            && s.disk[TempName(n)].File?
            && s.disk[TempName(n)].wrote == Frame(h, st.beam)[..st.done]
            && if st.closed then Damaged(s.disk[TempName(n)].wrote, s.disk[TempName(n)].now)
               else s.disk[TempName(n)].now == s.disk[TempName(n)].wrote)
  }

  /** What stands at an entry is a whole frame of a beam given for that key, and damage. */
  ghost predicate EntryOk(h: Hash, s: State, key: bytes) {
    EntryName(key) in s.disk && s.disk[EntryName(key)].File? ==>
      exists beam :: (key, beam) in s.given && IsFrameOf(h, s.disk[EntryName(key)], beam)
  }

  predicate NoLeak(s: State, n: nat) {
    TempName(n) in s.disk && s.disk[TempName(n)].File? ==> n in s.stores || n in s.left
  }

  ghost predicate Good(h: Hash, s: State) {
    && (forall n: nat :: TempOk(h, s, n))
    && (forall key :: EntryOk(h, s, key))
    && (forall n: nat :: NoLeak(s, n))
  }

  lemma StepTemp(h: Hash, s: State, a: Action, n: nat)
    requires Enabled(h, s, a) && Good(h, s)
    ensures TempOk(h, Step(h, s, a), n)
  {
    assert TempOk(h, s, n);
    match a
    case Begin(m, _, _) => TempsApart(m, n);
    case Write(m, _) => TempsApart(m, n);
    case Publish(m) => TempsApart(m, n); TempIsNoEntry(n, s.stores[m].key);
    case GiveUp(m) => TempsApart(m, n);
    case _ =>
  }

  lemma StepEntry(h: Hash, s: State, a: Action, key: bytes)
    requires Enabled(h, s, a) && Good(h, s)
    ensures EntryOk(h, Step(h, s, a), key)
  {
    assert EntryOk(h, s, key);
    match a
    case Begin(m, _, _) => TempIsNoEntry(m, key);
    case Write(m, _) => TempIsNoEntry(m, key);
    case GiveUp(m) => TempIsNoEntry(m, key);
    case Publish(m) => PublishEntry(h, s, m, key);
    case _ =>
  }

  lemma PublishEntry(h: Hash, s: State, m: nat, key: bytes)
    requires Enabled(h, s, Publish(m)) && Good(h, s)
    ensures EntryOk(h, Step(h, s, Publish(m)), key)
  {
    assert TempOk(h, s, m) && EntryOk(h, s, key);
    var st := s.stores[m];
    TempIsNoEntry(m, key);
    EntriesApart(st.key, key);
    assert Frame(h, st.beam)[..|Frame(h, st.beam)|] == Frame(h, st.beam);
    assert IsFrameOf(h, s.disk[TempName(m)], st.beam);
  }

  lemma StepLeak(h: Hash, s: State, a: Action, n: nat)
    requires Enabled(h, s, a) && Good(h, s)
    ensures NoLeak(Step(h, s, a), n)
  {
    assert NoLeak(s, n);
    match a
    case Begin(m, _, _) => TempsApart(m, n);
    case Write(m, _) => TempsApart(m, n);
    case Publish(m) => TempsApart(m, n); TempIsNoEntry(n, s.stores[m].key);
    case GiveUp(m) => TempsApart(m, n);
    case _ =>
  }

  lemma StepGood(h: Hash, s: State, a: Action)
    requires Enabled(h, s, a) && Good(h, s)
    ensures Good(h, Step(h, s, a))
  {
    var t := Step(h, s, a);
    forall n: nat ensures TempOk(h, t, n) { StepTemp(h, s, a, n); }
    forall key ensures EntryOk(h, t, key) { StepEntry(h, s, a, key); }
    forall n: nat ensures NoLeak(t, n) { StepLeak(h, s, a, n); }
  }

  // ----- runs -----

  /** A directory as `secure` demands it: empty. */
  const INIT := State(map[], map[], {}, {})

  predicate Runs(h: Hash, s: State, run: seq<Action>)
    decreases |run|
  {
    run == [] || (Enabled(h, s, run[0]) && Runs(h, Step(h, s, run[0]), run[1..]))
  }

  function After(h: Hash, s: State, run: seq<Action>): State
    requires Runs(h, s, run)
    decreases |run|
  {
    if run == [] then s else After(h, Step(h, s, run[0]), run[1..])
  }

  lemma {:induction false} OneMore(h: Hash, s: State, run: seq<Action>, a: Action)
    requires Runs(h, s, run) && Enabled(h, After(h, s, run), a)
    ensures Runs(h, s, run + [a]) && After(h, s, run + [a]) == Step(h, After(h, s, run), a)
    decreases |run|
  {
    if run == [] {
      assert ([] + [a])[1..] == [];
      assert Runs(h, Step(h, s, a), []);
    } else {
      OneMore(h, Step(h, s, run[0]), run[1..], a);
      assert (run + [a])[1..] == run[1..] + [a];
    }
  }

  lemma {:induction false} RunGood(h: Hash, s: State, run: seq<Action>)
    requires Good(h, s) && Runs(h, s, run)
    ensures Good(h, After(h, s, run))
    decreases |run|
  {
    if run != [] {
      StepGood(h, s, run[0]);
      RunGood(h, Step(h, s, run[0]), run[1..]);
    }
  }

  /** What a run has been given is what its stores were called with, no more. */
  predicate StoredIn(run: seq<Action>, key: bytes, beam: bytes) {
    exists i :: 0 <= i < |run| && run[i].Begin? && run[i].key == key && run[i].beam == beam
  }

  lemma {:induction false} GivenIsStored(h: Hash, s: State, run: seq<Action>, key: bytes, beam: bytes)
    requires Runs(h, s, run)
    ensures (key, beam) in After(h, s, run).given <==> (key, beam) in s.given || StoredIn(run, key, beam)
    decreases |run|
  {
    if run != [] {
      GivenIsStored(h, Step(h, s, run[0]), run[1..], key, beam);
      assert StoredIn(run, key, beam) <==>
             (run[0].Begin? && run[0].key == key && run[0].beam == beam) || StoredIn(run[1..], key, beam) by {
        if StoredIn(run[1..], key, beam) {
          var i :| 0 <= i < |run[1..]| && run[1..][i].Begin? && run[1..][i].key == key && run[1..][i].beam == beam;
          assert run[i + 1] == run[1..][i];
        }
        if StoredIn(run, key, beam) {
          var i :| 0 <= i < |run| && run[i].Begin? && run[i].key == key && run[i].beam == beam;
          assert i > 0 ==> run[i] == run[1..][i - 1];
        }
      }
    }
  }

  /**
   * After any run, a lookup gives a beam only if that beam was stored under
   * that key, or one was whose digest the beam shares.
   */
  lemma EveryRun(h: Hash, run: seq<Action>, key: bytes)
    requires Runs(h, INIT, run)
    requires Lookup(h, After(h, INIT, run).disk, key).Some?
    ensures var s := After(h, INIT, run); var beam := Lookup(h, s.disk, key).value;
      StoredIn(run, key, beam) || exists other :: StoredIn(run, key, other) && Collide(h, other, beam)
  {
    RunGood(h, INIT, run);
    var s := After(h, INIT, run);
    assert EntryOk(h, s, key);
    var other :| (key, other) in s.given && IsFrameOf(h, s.disk[EntryName(key)], other);
    DamageIsAMiss(h, other, s.disk[EntryName(key)].now);
    GivenIsStored(h, INIT, run, key, other);
  }

  // ----- single steps -----

  /** Until it publishes, a store changes no lookup, and neither does a crash. */
  lemma HalfWrittenIsUnseen(h: Hash, s: State, a: Action, key: bytes)
    requires Enabled(h, s, a) && !a.Publish? && !a.Evict? && !a.Damage?
    ensures Lookup(h, Step(h, s, a).disk, key) == Lookup(h, s.disk, key)
  {
    match a
    case Begin(m, _, _) => TempIsNoEntry(m, key);
    case Write(m, _) => TempIsNoEntry(m, key);
    case GiveUp(m) => TempIsNoEntry(m, key);
    case _ =>
  }

  /**
   * Publishing changes the lookup of its own key alone: to the beam, if the
   * temporary took no damage and the beam is short enough.
   */
  lemma PublishShows(h: Hash, s: State, n: nat, key: bytes)
    requires Enabled(h, s, Publish(n)) && Good(h, s)
    ensures var st := s.stores[n]; var t := Step(h, s, Publish(n));
      && (key != st.key ==> Lookup(h, t.disk, key) == Lookup(h, s.disk, key))
      && s.disk[TempName(n)].File?
      && (s.disk[TempName(n)].now == s.disk[TempName(n)].wrote ==>
            Lookup(h, t.disk, st.key) == if |st.beam| < TWO_32 then Some(st.beam) else None)
  {
    var st := s.stores[n];
    assert TempOk(h, s, n);
    TempIsNoEntry(n, key);
    TempIsNoEntry(n, st.key);
    EntriesApart(st.key, key);
    assert Frame(h, st.beam)[..|Frame(h, st.beam)|] == Frame(h, st.beam);
    FrameRoundTrip(h, st.beam);
  }

  /** With no store running, every temporary on disk is one that a crash left. */
  lemma TempsAreSwept(h: Hash, run: seq<Action>, n: nat)
    requires Runs(h, INIT, run)
    ensures var s := After(h, INIT, run);
      s.stores == map[] && TempName(n) in s.disk && s.disk[TempName(n)].File? ==> n in s.left
    ensures (forall i :: 0 <= i < |run| ==> !run[i].Crash?) ==> After(h, INIT, run).left == {}
  {
    RunGood(h, INIT, run);
    assert NoLeak(After(h, INIT, run), n);
    if forall i :: 0 <= i < |run| ==> !run[i].Crash? { NothingLeft(h, INIT, run); }
  }

  lemma {:induction false} NothingLeft(h: Hash, s: State, run: seq<Action>)
    requires Runs(h, s, run) && s.left == {} && forall i :: 0 <= i < |run| ==> !run[i].Crash?
    ensures After(h, s, run).left == {}
    decreases |run|
  {
    if run != [] {
      assert !run[0].Crash?;
      assert forall i :: 0 <= i < |run[1..]| ==> run[1..][i] == run[i + 1];
      NothingLeft(h, Step(h, s, run[0]), run[1..]);
    }
  }
}
