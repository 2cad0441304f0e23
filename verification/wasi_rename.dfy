/**
 `path_op2`: rename and link, which name two places.

 Each place is resolved against its own preopen, and one call is made on the two,
 in their order.
 */
module WasiRename {
  import opened WasiActs
  import opened WasiFinal
  import opened WasiHops
  import opened WasiKernel
  import opened WasiNumbers
  import opened WasiResolve
  import opened WasiReuse
  import opened WasiWalk

  /** The call on the two parents, and the closing of what was opened to reach them. */
  function RenameThere(w: World, k: Kernel, p1: Parented, p2: Parented, known: bool): (Kernel, Outcome)
    requires p1.Parent? && p2.Parent?
  {
    var (k1, r) :=
      if known then
        var (k', f) := ActAtBoth(w, k, p1.fd, p1.name, p2.fd, p2.name);
        (k', OutcomeOf(f))
      else (k, BadArg);
    (CloseIf(CloseIf(k1, p1.owned, p1.fd), p2.owned, p2.fd), r)
  }

  /** What `path_op2` does between taking its copies of the two directories and closing them. */
  function RenameBetween(w: World, k: Kernel, b1: nat, path1: string, b2: nat, path2: string, known: bool)
    : (Kernel, Outcome)
  {
    var (k1, p1) := WalkParent(w, k, b1, path1);
    if p1.NoParent? then (k1, Refusal(p1.e))
    else
      var (k2, p2) := WalkParent(w, k1, b2, path2);
      if p2.NoParent? then (CloseIf(k2, p1.owned, p1.fd), Refusal(p2.e))
      else RenameThere(w, k2, p1, p2, known)
  }

  predicate Oversized2(path1: string, path2: string) { |path1| > MAX_TEXT || |path2| > MAX_TEXT }

  function PathOp2(w: World, k: Kernel, dir1: nat, path1: string, dir2: nat, path2: string, known: bool)
    : (Kernel, Outcome)
  {
    if Oversized2(path1, path2) then (k, Refusal(ENAMETOOLONG))
    else
      var (k1, d1) := Dup(w, k, dir1);
      if d1.OpenFailed? then (k1, Refusal(d1.e))
      else
        var (k2, d2) := Dup(w, k1, dir2);
        if d2.OpenFailed? then (Close(k2, d1.fd), Refusal(d2.e))
        else
          var (k3, r) := RenameBetween(w, k2, d1.fd, path1, d2.fd, path2, known);
          (Close(Close(k3, d1.fd), d2.fd), r)
  }

  // ------------------------------------------------------------ conservation

  lemma ThereConserves(w: World, base: map<nat, Desc>, mid: map<nat, Desc>, k: Kernel, p1: Parented, p2: Parented,
                       known: bool)
    requires p1.Parent? && p2.Parent?
    requires Held(base, Kernel(0, 0, mid, []), p1.fd, p1.owned) && Held(mid, k, p2.fd, p2.owned)
    ensures var (k', r) := RenameThere(w, k, p1, p2, known);
      k'.fds == base && OnlyOurs(base.Keys, k, k')
  {
    if p1.owned { assert base[p1.fd := mid[p1.fd]] - {p1.fd} == base; }
    if p2.owned { assert mid[p2.fd := k.fds[p2.fd]] - {p2.fd} == mid; }
    if p1.owned && p2.owned { assert k.fds - {p1.fd} == base[p2.fd := k.fds[p2.fd]]; }
  }

  /** Between the copies and their closing nothing is taken and nothing but its own is closed. */
  lemma BetweenConserves(w: World, k: Kernel, b1: nat, path1: string, b2: nat, path2: string, known: bool)
    requires w.Valid()
    ensures var (k', _) := RenameBetween(w, k, b1, path1, b2, path2, known);
      k'.fds == k.fds && OnlyOurs(k.fds.Keys, k, k')
  {
    ParentConserves(w, k, b1, path1);
    var (k1, p1) := WalkParent(w, k, b1, path1);
    if p1.Parent? {
      ParentConserves(w, k1, b2, path2);
      var (k2, p2) := WalkParent(w, k1, b2, path2);
      OnlyOursJoins(k.fds.Keys, k, k1, k2);
      if p2.NoParent? {
        CloseRestores(k.fds, k2, p1.fd, p1.owned);
        OnlyOursJoins(k.fds.Keys, k, k2, CloseIf(k2, p1.owned, p1.fd));
      } else {
        ThereConserves(w, k.fds, k1.fds, k2, p1, p2, known);
        OnlyOursJoins(k.fds.Keys, k, k2, RenameThere(w, k2, p1, p2, known).0);
      }
    }
  }

  lemma CopiesRestore(base: map<nat, Desc>, mid: map<nat, Desc>, k: Kernel, f1: nat, f2: nat)
    requires f1 !in base && f1 in mid && mid == base[f1 := mid[f1]]
    requires f2 !in mid && f2 in k.fds && k.fds == mid[f2 := k.fds[f2]]
    ensures Close(Close(k, f1), f2).fds == base && OnlyOurs(base.Keys, k, Close(Close(k, f1), f2))
  {
    assert k.fds - {f1} - {f2} == base;
  }

  /** Whatever other threads do, the open set is as it was on every way out, and nothing is closed but what was
      opened. */
  lemma PathOp2Conserves(w: World, k: Kernel, dir1: nat, path1: string, dir2: nat, path2: string, known: bool)
    requires w.Valid()
    ensures var (k', _) := PathOp2(w, k, dir1, path1, dir2, path2, known);
      k'.fds == k.fds && OnlyOurs(k.fds.Keys, k, k')
  {
    var (k1, d1) := Dup(w, k, dir1);
    if !Oversized2(path1, path2) && d1.Opened? {
      var (k2, d2) := Dup(w, k1, dir2);
      if d2.OpenFailed? {
        assert k1.fds - {d1.fd} == k.fds;
      } else {
        BetweenConserves(w, k2, d1.fd, path1, d2.fd, path2, known);
        var k3 := RenameBetween(w, k2, d1.fd, path1, d2.fd, path2, known).0;
        CopiesRestore(k.fds, k1.fds, k3, d1.fd, d2.fd);
        OnlyOursJoins(k.fds.Keys, k, k3, Close(Close(k3, d1.fd), d2.fd));
      }
    }
  }

  // ------------------------------------------------------------ containment

  /** Every event since is contained in one of two preopens, or is a call with one end in each, the first in the
      first. */
  ghost predicate Within(w: World, r1: Node, r2: Node, kept: set<nat>, k: Kernel, k': Kernel) {
    && k.log <= k'.log
    && forall i :: |k.log| <= i < |k'.log| ==> InEither(w, r1, r2, kept, k'.log[i])
  }

  ghost predicate InEither(w: World, r1: Node, r2: Node, kept: set<nat>, e: Event) {
    || Contained(w, r1, kept, e)
    || Contained(w, r2, kept, e)
    || (e.ActedBoth? && e.name1 != ".." && e.name2 != ".." && Under(w, r1, e.dir1) && Under(w, r2, e.dir2))
  }

  lemma WithinJoins(w: World, r1: Node, r2: Node, kept: set<nat>, a: Kernel, b: Kernel, c: Kernel)
    requires Within(w, r1, r2, kept, a, b) && Within(w, r1, r2, kept, b, c)
    ensures Within(w, r1, r2, kept, a, c)
  {
  }

  lemma ContainedWithin(w: World, r1: Node, r2: Node, root: Node, kept: set<nat>, kept': set<nat>,
                        k: Kernel, k': Kernel)
    requires root == r1 || root == r2
    requires ContainedSince(w, root, kept', k, k') && kept <= kept'
    ensures Within(w, r1, r2, kept, k, k')
  {
    forall i | |k.log| <= i < |k'.log|
      ensures Contained(w, root, kept, k'.log[i])
    {
      assert Contained(w, root, kept', k'.log[i]);
    }
  }

  /** One end, found inside its own preopen. */
  lemma LocateWithin(w: World, r1: Node, r2: Node, root: Node, kept: set<nat>, k: Kernel, base: nat, path: string)
    requires w.Valid() && base in k.fds && (k.fds[base].DirDesc? ==> k.fds[base].dir == root)
    requires (root == r1 || root == r2) && kept <= k.fds.Keys
    ensures var (k', p) := WalkParent(w, k, base, path);
      && Within(w, r1, r2, kept, k, k')
      && (p.NoParent? ==> k'.fds == k.fds)
      && (p.Parent? ==> p.name != ".." && Anchored(w, root, k.fds, k', p.fd, p.owned))
  {
    assert At(w, root, root, 0);
    WalkParentSound(w, root, k, base, path);
    var k' := WalkParent(w, k, base, path).0;
    SafeBelow(w, root, root, k.fds.Keys, k.fds.Keys, k, k');
    ContainedWithin(w, r1, r2, root, kept, k.fds.Keys, k, k');
  }

  lemma BothWithin(w: World, r1: Node, r2: Node, kept: set<nat>, base: map<nat, Desc>, k1: Kernel, k2: Kernel,
                   p1: Parented, p2: Parented)
    requires p1.Parent? && p2.Parent? && p1.name != ".." && p2.name != ".."
    requires Anchored(w, r1, base, k1, p1.fd, p1.owned) && Anchored(w, r2, k1.fds, k2, p2.fd, p2.owned)
    requires kept <= base.Keys
    ensures var k3 := ActAtBoth(w, k2, p1.fd, p1.name, p2.fd, p2.name).0;
      k3.fds == k2.fds && Within(w, r1, r2, kept, k2, k3)
    ensures p1.fd in k2.fds && k2.fds[p1.fd] == k1.fds[p1.fd]
    ensures (p1.owned ==> p1.fd !in kept) && (p2.owned ==> p2.fd !in kept && p2.fd != p1.fd)
  {
  }

  lemma CloseWithin(w: World, r1: Node, r2: Node, kept: set<nat>, k: Kernel, owned: bool, fd: nat)
    requires owned ==> fd in k.fds && fd !in kept
    ensures Within(w, r1, r2, kept, k, CloseIf(k, owned, fd))
  {
  }

  lemma ThereWithin(w: World, r1: Node, r2: Node, kept: set<nat>, base: map<nat, Desc>, k1: Kernel, k2: Kernel,
                    p1: Parented, p2: Parented, known: bool)
    requires p1.Parent? && p2.Parent? && p1.name != ".." && p2.name != ".."
    requires Anchored(w, r1, base, k1, p1.fd, p1.owned) && Anchored(w, r2, k1.fds, k2, p2.fd, p2.owned)
    requires kept <= base.Keys
    ensures Within(w, r1, r2, kept, k2, RenameThere(w, k2, p1, p2, known).0)
  {
    BothWithin(w, r1, r2, kept, base, k1, k2, p1, p2);
    var k3 := if known then ActAtBoth(w, k2, p1.fd, p1.name, p2.fd, p2.name).0 else k2;
    var k4 := CloseIf(k3, p1.owned, p1.fd);
    CloseWithin(w, r1, r2, kept, k3, p1.owned, p1.fd);
    CloseWithin(w, r1, r2, kept, k4, p2.owned, p2.fd);
    WithinJoins(w, r1, r2, kept, k2, k3, k4);
    WithinJoins(w, r1, r2, kept, k2, k4, CloseIf(k4, p2.owned, p2.fd));
  }

  lemma BetweenWithin(w: World, r1: Node, r2: Node, kept: set<nat>, k: Kernel, b1: nat, path1: string,
                      b2: nat, path2: string, known: bool)
    requires w.Valid() && kept <= k.fds.Keys
    requires b1 in k.fds && (k.fds[b1].DirDesc? ==> k.fds[b1].dir == r1)
    requires b2 in k.fds && (k.fds[b2].DirDesc? ==> k.fds[b2].dir == r2)
    ensures Within(w, r1, r2, kept, k, RenameBetween(w, k, b1, path1, b2, path2, known).0)
  {
    LocateWithin(w, r1, r2, r1, kept, k, b1, path1);
    var (k1, p1) := WalkParent(w, k, b1, path1);
    if p1.Parent? {
      LocateWithin(w, r1, r2, r2, kept, k1, b2, path2);
      var (k2, p2) := WalkParent(w, k1, b2, path2);
      WithinJoins(w, r1, r2, kept, k, k1, k2);
      if p2.NoParent? {
        CloseWithin(w, r1, r2, kept, k2, p1.owned, p1.fd);
        WithinJoins(w, r1, r2, kept, k, k2, CloseIf(k2, p1.owned, p1.fd));
      } else {
        ThereWithin(w, r1, r2, kept, k.fds, k1, k2, p1, p2, known);
        WithinJoins(w, r1, r2, kept, k, k2, RenameThere(w, k2, p1, p2, known).0);
      }
    }
  }

  /** Every name looked up is inside one of the two preopens, the first name acted on inside the first and the second
      inside the second, whatever other threads do. */
  lemma PathOp2Contained(w: World, r1: Node, r2: Node, k: Kernel, dir1: nat, path1: string, dir2: nat, path2: string,
                         known: bool)
    requires w.Valid()
    requires dir1 in k.fds && (k.fds[dir1].DirDesc? ==> k.fds[dir1].dir == r1)
    requires dir2 in k.fds && (k.fds[dir2].DirDesc? ==> k.fds[dir2].dir == r2)
    ensures Within(w, r1, r2, k.fds.Keys, k, PathOp2(w, k, dir1, path1, dir2, path2, known).0)
  {
    var kept := k.fds.Keys;
    var (k1, d1) := Dup(w, k, dir1);
    if !Oversized2(path1, path2) && d1.Opened? {
      var (k2, d2) := Dup(w, k1, dir2);
      if d2.OpenFailed? {
        CloseWithin(w, r1, r2, kept, k2, true, d1.fd);
      } else {
        BetweenWithin(w, r1, r2, kept, k2, d1.fd, path1, d2.fd, path2, known);
        BetweenConserves(w, k2, d1.fd, path1, d2.fd, path2, known);
        var k3 := RenameBetween(w, k2, d1.fd, path1, d2.fd, path2, known).0;
        CloseWithin(w, r1, r2, kept, k3, true, d1.fd);
        CloseWithin(w, r1, r2, kept, Close(k3, d1.fd), true, d2.fd);
        WithinJoins(w, r1, r2, kept, k, k3, Close(k3, d1.fd));
        WithinJoins(w, r1, r2, kept, k, Close(k3, d1.fd), Close(Close(k3, d1.fd), d2.fd));
      }
    }
  }

  // ------------------------------------------------------------ one call, its ends in order

  lemma ThereActs(w: World, k: Kernel, p1: Parented, p2: Parented, known: bool)
    requires p1.Parent? && p2.Parent?
    requires p1.fd in k.fds && k.fds[p1.fd].DirDesc? && p2.fd in k.fds && k.fds[p2.fd].DirDesc?
    ensures var (k', r) := RenameThere(w, k, p1, p2, known);
      var f := w.fault(k.clock);
      && (known ==> Answers(r, f))
      && (known ==> ActedOnce(k, k', ActedBoth(k.fds[p1.fd].dir, p1.name, k.fds[p2.fd].dir, p2.name, f)))
      && (!known ==> r == BadArg && ActedNever(k, k'))
  {
    var k1 := if known then ActAtBoth(w, k, p1.fd, p1.name, p2.fd, p2.name).0 else k;
    if known {
      OneMore(k.log, ActedBoth(k.fds[p1.fd].dir, p1.name, k.fds[p2.fd].dir, p2.name, w.fault(k.clock)));
    }
    CloseNever(k1, p1.owned, p1.fd);
    CloseNever(CloseIf(k1, p1.owned, p1.fd), p2.owned, p2.fd);
  }

  /** The second walk leaves the first parent where it was. */
  lemma FirstStays(w: World, k: Kernel, base: map<nat, Desc>, b2: nat, path2: string, fd: nat)
    requires w.Valid() && fd in k.fds
    ensures var (k', p) := WalkParent(w, k, b2, path2);
      p.Parent? ==> fd in k'.fds && k'.fds[fd] == k.fds[fd]
  {
    ParentConserves(w, k, b2, path2);
  }

  /** From k to k' two parents were looked for, and this was done. Both found, a known operation made one call, its
      first end the first path's last name in the directory that walk found, its second end the second's, and the
      answer is that call's. Otherwise nothing was acted on. */
  ghost predicate Renames(w: World, k: Kernel, b1: nat, path1: string, b2: nat, path2: string, known: bool,
                          k': Kernel, r: Outcome)
  {
    var (k1, p1) := WalkParent(w, k, b1, path1);
    var (k2, p2) := WalkParent(w, k1, b2, path2);
    && (p1.NoParent? ==> r == Refusal(p1.e) && ActedNever(k, k'))
    && (p1.Parent? && p2.NoParent? ==> r == Refusal(p2.e) && ActedNever(k, k'))
    && (p1.Parent? && p2.Parent? ==>
          && Components(path1) != [] && p1.fd in k1.fds && k1.fds[p1.fd].DirDesc?
          && Components(path2) != [] && p2.fd in k2.fds && k2.fds[p2.fd].DirDesc?
          && (!known ==> r == BadArg && ActedNever(k, k'))
          && (known ==>
                var f := w.fault(k2.clock);
                && Answers(r, f)
                && ActedOnce(k, k', ActedBoth(k1.fds[p1.fd].dir, LastName(path1),
                                              k2.fds[p2.fd].dir, LastName(path2), f))))
  }

  lemma BetweenActs(w: World, k: Kernel, b1: nat, path1: string, b2: nat, path2: string, known: bool)
    requires w.Valid() && b1 in k.fds && k.fds[b1].DirDesc? && b2 in k.fds && k.fds[b2].DirDesc?
    ensures var (k', r) := RenameBetween(w, k, b1, path1, b2, path2, known);
      Renames(w, k, b1, path1, b2, path2, known, k', r)
  {
    ParentLooks(w, k, b1, path1);
    FoundIn(w, k, b1, path1);
    ParentConserves(w, k, b1, path1);
    var (k1, p1) := WalkParent(w, k, b1, path1);
    LooksNever(k, k1);
    if p1.Parent? {
      ParentLooks(w, k1, b2, path2);
      FoundIn(w, k1, b2, path2);
      var (k2, p2) := WalkParent(w, k1, b2, path2);
      LooksNever(k1, k2);
      if p2.NoParent? {
        CloseNever(k2, p1.owned, p1.fd);
      } else {
        FirstStays(w, k1, k.fds, b2, path2, p1.fd);
        ThereActs(w, k2, p1, p2, known);
      }
    }
  }

  /** The whole operation, under any interference: that is what it does on its copies of the two directories, and it
      does nothing when there is no room for a copy, or a path is too long. */
  lemma PathOp2Acts(w: World, k: Kernel, dir1: nat, path1: string, dir2: nat, path2: string, known: bool)
    requires w.Valid() && dir1 in k.fds && k.fds[dir1].DirDesc? && dir2 in k.fds && k.fds[dir2].DirDesc?
    ensures var (k1, d1) := Dup(w, k, dir1);
      var (k2, d2) := Dup(w, k1, dir2);
      var (k', r) := PathOp2(w, k, dir1, path1, dir2, path2, known);
      && (|path1| >= 4096 || |path2| >= 4096 ==> r == Refusal(ENAMETOOLONG) && k' == k)
      && (|path1| < 4096 && |path2| < 4096 && d1.OpenFailed? ==> r == Refusal(d1.e) && ActedNever(k, k'))
      && (|path1| < 4096 && |path2| < 4096 && d1.Opened? && d2.OpenFailed? ==>
            r == Refusal(d2.e) && ActedNever(k, k'))
      && (|path1| < 4096 && |path2| < 4096 && d1.Opened? && d2.Opened? ==>
            k2.log == k.log && Renames(w, k2, d1.fd, path1, d2.fd, path2, known, k', r))
  {
    var (k1, d1) := Dup(w, k, dir1);
    if !Oversized2(path1, path2) && d1.Opened? {
      var (k2, d2) := Dup(w, k1, dir2);
      if d2.OpenFailed? {
        CloseNever(k2, true, d1.fd);
      } else {
        BetweenActs(w, k2, d1.fd, path1, d2.fd, path2, known);
        var k3 := RenameBetween(w, k2, d1.fd, path1, d2.fd, path2, known).0;
        CloseNever(k3, true, d1.fd);
        CloseNever(Close(k3, d1.fd), true, d2.fd);
      }
    }
  }

  /** One call, or none. */
  ghost predicate RenamedOnce(w: World, r1: Node, r2: Node, k: Kernel, path1: string, path2: string, known: bool,
                              k': Kernel, r: Outcome)
  {
    || (ActedNever(k, k') && (if known then r.Refusal? else r != Done))
    || (known && Components(path1) != [] && Components(path2) != []
        && exists d1, d2, f :: Under(w, r1, d1) && Under(w, r2, d2) && Answers(r, f)
             && ActedOnce(k, k', ActedBoth(d1, LastName(path1), d2, LastName(path2), f)))
  }

  lemma RenamesOnce(w: World, r1: Node, r2: Node, k: Kernel, b1: nat, path1: string, b2: nat, path2: string,
                    known: bool, k': Kernel, r: Outcome)
    requires w.Valid() && b1 in k.fds && k.fds[b1] == DirDesc(r1) && b2 in k.fds && k.fds[b2] == DirDesc(r2)
    requires Renames(w, k, b1, path1, b2, path2, known, k', r)
    ensures RenamedOnce(w, r1, r2, k, path1, path2, known, k', r)
  {
    LocateWithin(w, r1, r2, r1, {}, k, b1, path1);
    var (k1, p1) := WalkParent(w, k, b1, path1);
    if p1.Parent? {
      LocateWithin(w, r1, r2, r2, {}, k1, b2, path2);
      var (k2, p2) := WalkParent(w, k1, b2, path2);
      if p2.Parent? && known {
        var d1, d2 := k1.fds[p1.fd].dir, k2.fds[p2.fd].dir;
        assert Under(w, r1, d1) && Under(w, r2, d2);
        assert ActedOnce(k, k', ActedBoth(d1, LastName(path1), d2, LastName(path2), w.fault(k2.clock)));
      }
    }
  }

  /** Under any interference rename and link make one call, on the last name of the first path in a directory inside
      the first preopen and on the last name of the second path in one inside the second, in that order, and answer
      what it answered; or they make none, and are no success. */
  lemma PathOp2Once(w: World, r1: Node, r2: Node, k: Kernel, dir1: nat, path1: string, dir2: nat, path2: string,
                    known: bool)
    requires w.Valid() && dir1 in k.fds && k.fds[dir1] == DirDesc(r1) && dir2 in k.fds && k.fds[dir2] == DirDesc(r2)
    ensures var (k', r) := PathOp2(w, k, dir1, path1, dir2, path2, known);
      RenamedOnce(w, r1, r2, k, path1, path2, known, k', r)
  {
    PathOp2Acts(w, k, dir1, path1, dir2, path2, known);
    var (k1, d1) := Dup(w, k, dir1);
    var (k', r) := PathOp2(w, k, dir1, path1, dir2, path2, known);
    if !Oversized2(path1, path2) && d1.Opened? {
      var (k2, d2) := Dup(w, k1, dir2);
      if d2.Opened? { RenamesOnce(w, r1, r2, k2, d1.fd, path1, d2.fd, path2, known, k', r); }
    }
  }

  // ------------------------------------------------------------ on a file system nobody changes

  /** What is done, by where the two paths lead. */
  predicate Does2(k: Kernel, k': Kernel, r: Outcome, to1: Landing, to2: Landing, known: bool) {
    && (!to1.On? ==> to1.Off? && r == Refusal(to1.e) && ActedNever(k, k'))
    && (to1.On? && !to2.On? ==> to2.Off? && r == Refusal(to2.e) && ActedNever(k, k'))
    && (to1.On? && to2.On? && !known ==> r == BadArg && ActedNever(k, k'))
    && (to1.On? && to2.On? && known ==>
          r == Done && ActedOnce(k, k', ActedBoth(to1.dir, to1.name, to2.dir, to2.name, NoFault)))
  }

  lemma RenamesOnTree(w: World, r1: Node, r2: Node, k: Kernel, b1: nat, path1: string, b2: nat, path2: string,
                      known: bool, k': Kernel, r: Outcome)
    requires w.Valid() && Still(w)
    requires b1 in k.fds && k.fds[b1] == DirDesc(r1) && b2 in k.fds && k.fds[b2] == DirDesc(r2)
    requires Renames(w, k, b1, path1, b2, path2, known, k', r)
    ensures Does2(k, k', r, HopFrom(w, r1, r1, path1), HopFrom(w, r2, r2, path2), known)
  {
    WrittenLands(w, r1, k, b1, path1);
    FoundIn(w, k, b1, path1);
    ParentConserves(w, k, b1, path1);
    var (k1, p1) := WalkParent(w, k, b1, path1);
    if p1.Parent? {
      WrittenLands(w, r2, k1, b2, path2);
      FoundIn(w, k1, b2, path2);
      var (k2, p2) := WalkParent(w, k1, b2, path2);
      assert w.fault(k2.clock) == NoFault;
    }
  }

  /** On a file system nobody changes the two names acted on are where resolution of what stands before each comes
      to: the first path's in the first place, the second path's in the second. */
  lemma PathOp2OnTree(w: World, r1: Node, r2: Node, k: Kernel, dir1: nat, path1: string, dir2: nat, path2: string,
                      known: bool)
    requires w.Valid() && Still(w) && |path1| < 4096 && |path2| < 4096
    requires dir1 in k.fds && k.fds[dir1] == DirDesc(r1) && dir2 in k.fds && k.fds[dir2] == DirDesc(r2)
    ensures var (k', r) := PathOp2(w, k, dir1, path1, dir2, path2, known);
      Does2(k, k', r, HopFrom(w, r1, r1, path1), HopFrom(w, r2, r2, path2), known)
  {
    assert w.fault(k.clock) == NoFault && w.fault(k.clock + 1) == NoFault;
    PathOp2Acts(w, k, dir1, path1, dir2, path2, known);
    var (k1, d1) := Dup(w, k, dir1);
    var (k2, d2) := Dup(w, k1, dir2);
    var (k', r) := PathOp2(w, k, dir1, path1, dir2, path2, known);
    RenamesOnTree(w, r1, r2, k2, d1.fd, path1, d2.fd, path2, known, k', r);
  }
}
