/** `lookup` and `store` on the cache directory, one call at a time, and the run of the machine each call is. */
module CodeCache {
  import opened CodeCacheFrame
  import opened CodeCacheStore
  import opened LittleEndian

  /**
   * How the file calls of one `store` went: how many bytes `write_file` got to
   * the disk, whether the rename worked, and what eviction took away.
   */
  datatype Luck = Luck(wrote: nat, renamed: bool, evicted: set<bytes>)

  predicate Writes(h: Hash, beam: bytes, luck: Luck) { luck.wrote >= |Frame(h, beam)| }

  /** The directory after one call: the entry just written is never the one evicted. */
  function Stored(h: Hash, disk: Disk, key: bytes, beam: bytes, n: nat, luck: Luck): Disk {
    var bare := disk - {TempName(n)};
    if !Writes(h, beam, luck) then bare
    else if !luck.renamed then bare - (luck.evicted - {EntryName(key)})
    else bare[EntryName(key) := File(Frame(h, beam), Frame(h, beam))] - (luck.evicted - {EntryName(key)})
  }

  class Cache {
    var disk: Disk

    /** `lookup/1`: a beam is answered exactly when its frame is what the file of the key holds. */
    method Read(h: Hash, usable: bool, key: bytes) returns (r: Option<bytes>)
      ensures r == if usable then Lookup(h, disk, key) else None
      ensures forall beam: bytes :: r == Some(beam) <==>
        && usable && |beam| < TWO_32
        && EntryName(key) in disk && disk[EntryName(key)].File? && disk[EntryName(key)].now == Frame(h, beam)
    {
      if !usable { return None; }
      var name := EntryName(key);
      if name !in disk || !disk[name].File? { return None; }
      r := Unframe(h, disk[name].now);
      forall beam: bytes ensures r == Some(beam) <==> |beam| < TWO_32 && disk[name].now == Frame(h, beam) {
        UnframeExact(h, disk[name].now, beam);
      }
    }

    /** `store/2`; n is the fresh number of its temporary. */
    method Store(h: Hash, usable: bool, key: bytes, beam: bytes, n: nat, luck: Luck)
      modifies this
      ensures disk == if usable then Stored(h, old(disk), key, beam, n, luck) else old(disk)
    {
      if !usable { return; }
      var file, tmp := EntryName(key), TempName(n);
      TempIsNoEntry(n, key);
      var framed := Frame(h, beam);
      var reached := if luck.wrote < |framed| then framed[..luck.wrote] else framed;
      disk := disk[tmp := File(reached, reached)];
      if luck.wrote < |framed| {
        disk := disk - {tmp};
        return;
      }
      if luck.renamed {
        disk := (disk - {tmp})[file := disk[tmp]];
      } else {
        disk := disk - {tmp};
      }
      disk := disk - (luck.evicted - {file});
    }
  }

  /**
   * What one call leaves: its own key reads as the beam, no temporary stays,
   * and no other lookup changes but by eviction.
   */
  lemma StoredShows(h: Hash, disk: Disk, key: bytes, beam: bytes, n: nat, luck: Luck, other: bytes)
    ensures var after := Stored(h, disk, key, beam, n, luck);
      && TempName(n) !in after
      && (Writes(h, beam, luck) && luck.renamed ==>
            Lookup(h, after, key) == if |beam| < TWO_32 then Some(beam) else None)
      && (!(Writes(h, beam, luck) && luck.renamed) ==> Lookup(h, after, key) == Lookup(h, disk, key))
      && (other != key ==>
            Lookup(h, after, other) == Lookup(h, disk, other)
            || (EntryName(other) in luck.evicted && Lookup(h, after, other) == None))
  {
    TempIsNoEntry(n, key);
    TempIsNoEntry(n, other);
    EntriesApart(key, other);
    FrameRoundTrip(h, beam);
  }

  function RunOf(h: Hash, key: bytes, beam: bytes, n: nat, luck: Luck): seq<Action> {
    var done := if Writes(h, beam, luck) then |Frame(h, beam)| else luck.wrote;
    var gone := Evict(luck.evicted - {EntryName(key)});
    [Begin(n, key, beam), Write(n, done)] +
    if !Writes(h, beam, luck) then [GiveUp(n)]
    else if !luck.renamed then [GiveUp(n), gone]
    else [Close(n), Publish(n), gone]
  }

  /** One call is a run of the machine, so whatever holds of every run holds of every sequence of calls. */
  lemma StoreIsARun(h: Hash, s: State, key: bytes, beam: bytes, n: nat, luck: Luck)
    requires Enabled(h, s, Begin(n, key, beam))
    ensures Runs(h, s, RunOf(h, key, beam, n, luck))
    ensures After(h, s, RunOf(h, key, beam, n, luck)).disk == Stored(h, s.disk, key, beam, n, luck)
    ensures After(h, s, RunOf(h, key, beam, n, luck)).stores == s.stores
  {
    TempIsNoEntry(n, key);
    var done := if Writes(h, beam, luck) then |Frame(h, beam)| else luck.wrote;
    var run := [Begin(n, key, beam)];
    Written(h, s, key, beam, n, done);
    assert Frame(h, beam)[..|Frame(h, beam)|] == Frame(h, beam);
    run := run + [Write(n, done)];
    var t := After(h, s, run);
    if !Writes(h, beam, luck) || !luck.renamed {
      OneMore(h, s, run, GiveUp(n));
      run := run + [GiveUp(n)];
      Restored(s.stores, t.stores, n);
      assert After(h, s, run).disk == s.disk - {TempName(n)};
    } else {
      OneMore(h, s, run, Close(n));
      run := run + [Close(n)];
      OneMore(h, s, run, Publish(n));
      run := run + [Publish(n)];
      Restored(s.stores, t.stores[n := t.stores[n].(closed := true)], n);
      assert After(h, s, run).disk == (s.disk - {TempName(n)})[EntryName(key) := File(Frame(h, beam), Frame(h, beam))];
    }
    if Writes(h, beam, luck) {
      OneMore(h, s, run, Evict(luck.evicted - {EntryName(key)}));
      run := run + [Evict(luck.evicted - {EntryName(key)})];
    }
    assert run == RunOf(h, key, beam, n, luck);
  }

  lemma Restored(was: map<nat, CodeCacheStore.Store>, now: map<nat, CodeCacheStore.Store>, n: nat)
    requires n !in was && n in now && now == was[n := now[n]]
    ensures now - {n} == was
  {
  }

  lemma Written(h: Hash, s: State, key: bytes, beam: bytes, n: nat, done: nat)
    requires Enabled(h, s, Begin(n, key, beam)) && done <= |Frame(h, beam)|
    ensures var run := [Begin(n, key, beam)] + [Write(n, done)];
      && Runs(h, s, run)
      && var t := After(h, s, run);
         && t.stores == s.stores[n := CodeCacheStore.Store(key, beam, done, false)]
         && t.disk == s.disk[TempName(n) := File(Frame(h, beam)[..done], Frame(h, beam)[..done])]
  {
    OneMore(h, s, [], Begin(n, key, beam));
    assert [] + [Begin(n, key, beam)] == [Begin(n, key, beam)];
    OneMore(h, s, [Begin(n, key, beam)], Write(n, done));
  }
}
