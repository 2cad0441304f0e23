/**
 Descriptor numbers across a walk, whatever directory it runs in.

 A walk gives back every number it takes and closes nothing else, even when it
 was handed a number that no longer denotes what its caller opened. And what
 other threads do after a walk has ended cannot have changed it.
 */
module WasiNumbers {
  import opened WasiKernel
  import opened WasiWalk

  // ------------------------------------------------------------ conservation

  /** Every descriptor closed meanwhile was ours, and none was among `kept`. */
  ghost predicate OnlyOurs(kept: set<nat>, k: Kernel, k': Kernel) {
    && k.log <= k'.log
    && forall i :: |k.log| <= i < |k'.log| && k'.log[i].Dropped? ==> k'.log[i].ours && k'.log[i].fd !in kept
  }

  /** Nothing taken on failure, exactly the answered number on success. */
  ghost predicate Conserves(base: map<nat, Desc>, k: Kernel, k': Kernel, r: Walked) {
    && OnlyOurs(base.Keys, k, k')
    && (r.Failed? ==> k'.fds == base)
    && (r.Walked? ==> Held(base, k', r.fd, true))
  }

  lemma OnlyOursJoins(kept: set<nat>, a: Kernel, b: Kernel, c: Kernel)
    requires OnlyOurs(kept, a, b) && OnlyOurs(kept, b, c)
    ensures OnlyOurs(kept, a, c)
  {
  }

  lemma OpenAtConserves(w: World, k: Kernel, cur: nat, name: string, flags: Flags, depth: nat, d: nat)
    requires w.Valid()
    ensures var (k1, a) := OpenAt(w, k, cur, name, flags, depth);
      Conserves(k.fds, k, k1, if a.Opened? then Walked(a.fd, d) else Failed(a.e))
  {
  }

  lemma ReadLinkConserves(w: World, k: Kernel, cur: nat, name: string, depth: nat)
    ensures var (k1, _) := ReadLinkAt(w, k, cur, name, depth);
      k1.fds == k.fds && OnlyOurs(k.fds.Keys, k, k1)
  {
  }

  lemma {:induction false} StepConserves(w: World, k: Kernel, cur: nat, comp: string, flags: Flags,
                                         depth: nat, budget: nat, follow: bool)
    requires w.Valid()
    ensures var (k', r) := Step(w, k, cur, comp, flags, depth, budget, follow);
      Conserves(k.fds, k, k', r)
    decreases budget, 0, 0
  {
    if comp == "." {
      OpenAtConserves(w, k, cur, ".", DIRECTORY, depth, depth);
    } else if comp == ".." {
      if depth > 0 { OpenAtConserves(w, k, cur, "..", DIRECTORY, depth, depth - 1); }
    } else {
      OpenAtConserves(w, k, cur, comp, flags, depth, depth + 1);
      var (k1, a) := OpenAt(w, k, cur, comp, flags, depth);
      if a.OpenFailed? && follow && budget > 0 {
        ReadLinkConserves(w, k1, cur, comp, depth);
        var (k2, t) := ReadLinkAt(w, k1, cur, comp, depth);
        OnlyOursJoins(k.fds.Keys, k, k1, k2);
        if t.Text? {
          WalkFromConserves(w, k2, cur, t.text, flags, depth, budget - 1, true);
          var (k3, r) := WalkFrom(w, k2, cur, t.text, flags, depth, budget - 1, true);
          OnlyOursJoins(k.fds.Keys, k, k2, k3);
        }
      }
    }
  }

  lemma {:induction false} WalkFromConserves(w: World, k: Kernel, dirfd: nat, path: string, flags: Flags,
                                             depth: nat, budget: nat, follow: bool)
    requires w.Valid()
    ensures var (k', r) := WalkFrom(w, k, dirfd, path, flags, depth, budget, follow);
      Conserves(k.fds, k, k', r)
    decreases budget, 2, 0
  {
    if path != "" && |path| <= MAX_TEXT && path[0] != '/' {
      WalkRestConserves(w, k.fds, k, dirfd, false, Components(path), flags, depth, budget, follow);
    }
  }

  lemma {:induction false} WalkRestConserves(w: World, base: map<nat, Desc>, k: Kernel, cur: nat, owned: bool,
                                             comps: seq<string>, flags: Flags,
                                             depth: nat, budget: nat, follow: bool)
    requires w.Valid() && Held(base, k, cur, owned)
    ensures var (k', r) := WalkRest(w, k, cur, owned, comps, flags, depth, budget, follow);
      Conserves(base, k, k', r)
    decreases budget, 1, |comps|
  {
    if comps != [] {
      var last := |comps| == 1;
      var f := if last then flags else DIRECTORY;
      var fo := if last then follow else true;
      StepConserves(w, k, cur, comps[0], f, depth, budget, fo);
      var (k1, r) := Step(w, k, cur, comps[0], f, depth, budget, fo);
      var k2 := CloseIf(k1, owned, cur);
      CloseConserves(base, k, k1, r, cur, owned);
      if r.Walked? {
        WalkRestConserves(w, base, k2, r.fd, true, comps[1..], flags, r.depth, budget, follow);
        var (k3, _) := WalkRest(w, k2, r.fd, true, comps[1..], flags, r.depth, budget, follow);
        OnlyOursJoins(base.Keys, k, k2, k3);
      }
    }
  }

  lemma CloseConserves(base: map<nat, Desc>, k: Kernel, k1: Kernel, r: Walked, cur: nat, owned: bool)
    requires Held(base, k, cur, owned) && Conserves(k.fds, k, k1, r)
    ensures Conserves(base, k, CloseIf(k1, owned, cur), r)
  {
    if owned {
      assert base[cur := k.fds[cur]] - {cur} == base;
      if r.Walked? {
        assert CloseIf(k1, owned, cur).fds == base[r.fd := k1.fds[r.fd]];
      }
    }
  }

  ghost predicate ParentConserved(base: map<nat, Desc>, k: Kernel, k': Kernel, p: Parented) {
    && OnlyOurs(base.Keys, k, k')
    && (p.NoParent? ==> k'.fds == base)
    && (p.Parent? ==> Held(base, k', p.fd, p.owned))
  }

  lemma ParentConserves(w: World, k: Kernel, dirfd: nat, path: string)
    requires w.Valid()
    ensures var (k', p) := WalkParent(w, k, dirfd, path);
      ParentConserved(k.fds, k, k', p)
  {
    if path != "" && |path| <= MAX_TEXT && path[0] != '/' {
      var comps := Components(path);
      if |comps| > 1 {
        var init := comps[..|comps| - 1];
        WalkRestConserves(w, k.fds, k, dirfd, false, init, DIRECTORY, 0, MAX_SYMLINKS, true);
        var (k1, r) := WalkRest(w, k, dirfd, false, init, DIRECTORY, 0, MAX_SYMLINKS, true);
        if r.Walked? {
          assert (k.fds[r.fd := k1.fds[r.fd]]) - {r.fd} == k.fds;
        }
      }
    }
  }

  // ------------------------------------------------------------ what happens later does not matter

  /** The same world, but for what other threads do from `time` on. */
  ghost predicate SameUntil(w: World, v: World, time: nat) {
    && v == w.(others := v.others)
    && forall t: nat, s :: t < time ==> v.others(t, s) == w.others(t, s)
  }

  lemma OpenAtSame(w: World, v: World, time: nat, k: Kernel, cur: nat, name: string, flags: Flags, depth: nat)
    requires SameUntil(w, v, time)
    ensures OpenAt(w, k, cur, name, flags, depth).0.clock == k.clock + 1
    ensures k.clock < time ==> OpenAt(v, k, cur, name, flags, depth) == OpenAt(w, k, cur, name, flags, depth)
  {
  }

  lemma ReadLinkSame(w: World, v: World, time: nat, k: Kernel, cur: nat, name: string, depth: nat)
    requires SameUntil(w, v, time)
    ensures ReadLinkAt(w, k, cur, name, depth).0.clock == k.clock + 1
    ensures k.clock < time ==> ReadLinkAt(v, k, cur, name, depth) == ReadLinkAt(w, k, cur, name, depth)
  {
  }

  lemma {:induction false} StepSame(w: World, v: World, time: nat, k: Kernel, cur: nat, comp: string, flags: Flags,
                                    depth: nat, budget: nat, follow: bool)
    requires SameUntil(w, v, time)
    ensures var (k', r) := Step(w, k, cur, comp, flags, depth, budget, follow);
      k.clock <= k'.clock && (k'.clock <= time ==> Step(v, k, cur, comp, flags, depth, budget, follow) == (k', r))
    decreases budget, 0, 0
  {
    if comp == "." {
      OpenAtSame(w, v, time, k, cur, ".", DIRECTORY, depth);
    } else if comp == ".." {
      OpenAtSame(w, v, time, k, cur, "..", DIRECTORY, depth);
    } else {
      OpenAtSame(w, v, time, k, cur, comp, flags, depth);
      var (k1, a) := OpenAt(w, k, cur, comp, flags, depth);
      if a.OpenFailed? && follow && budget > 0 {
        ReadLinkSame(w, v, time, k1, cur, comp, depth);
        var (k2, t) := ReadLinkAt(w, k1, cur, comp, depth);
        if t.Text? {
          WalkFromSame(w, v, time, k2, cur, t.text, flags, depth, budget - 1, true);
        }
      }
    }
  }

  lemma {:induction false} WalkFromSame(w: World, v: World, time: nat, k: Kernel, dirfd: nat, path: string,
                                        flags: Flags, depth: nat, budget: nat, follow: bool)
    requires SameUntil(w, v, time)
    ensures var (k', r) := WalkFrom(w, k, dirfd, path, flags, depth, budget, follow);
      k.clock <= k'.clock && (k'.clock <= time ==> WalkFrom(v, k, dirfd, path, flags, depth, budget, follow) == (k', r))
    decreases budget, 2, 0
  {
    if path != "" && |path| <= MAX_TEXT && path[0] != '/' {
      WalkRestSame(w, v, time, k, dirfd, false, Components(path), flags, depth, budget, follow);
    }
  }

  lemma {:induction false} WalkRestSame(w: World, v: World, time: nat, k: Kernel, cur: nat, owned: bool,
                                        comps: seq<string>, flags: Flags, depth: nat, budget: nat, follow: bool)
    requires SameUntil(w, v, time)
    ensures var (k', r) := WalkRest(w, k, cur, owned, comps, flags, depth, budget, follow);
      && k.clock <= k'.clock
      && (k'.clock <= time ==> WalkRest(v, k, cur, owned, comps, flags, depth, budget, follow) == (k', r))
    decreases budget, 1, |comps|
  {
    if comps != [] {
      var last := |comps| == 1;
      var f := if last then flags else DIRECTORY;
      var fo := if last then follow else true;
      StepSame(w, v, time, k, cur, comps[0], f, depth, budget, fo);
      var (k1, r) := Step(w, k, cur, comps[0], f, depth, budget, fo);
      if r.Walked? {
        WalkRestSame(w, v, time, CloseIf(k1, owned, cur), r.fd, true, comps[1..], flags, r.depth, budget, follow);
      }
    }
  }

  /** A walk that has ended by `time` is the same in both worlds. */
  lemma WalkParentSame(w: World, v: World, time: nat, k: Kernel, dirfd: nat, path: string)
    requires SameUntil(w, v, time)
    ensures var (k', p) := WalkParent(w, k, dirfd, path);
      k.clock <= k'.clock && (k'.clock <= time ==> WalkParent(v, k, dirfd, path) == (k', p))
  {
    var comps := Components(path);
    if |comps| > 1 {
      WalkRestSame(w, v, time, k, dirfd, false, comps[..|comps| - 1], DIRECTORY, 0, MAX_SYMLINKS, true);
    }
  }
}
