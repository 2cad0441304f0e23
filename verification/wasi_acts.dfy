/**
 What the operations on names do, and what they answer.

 Finding the name only looks; then there is one call, on the name that was
 found, and its answer is the operation's.
 */
module WasiActs {
  import opened WasiAnchor
  import opened WasiChain
  import opened WasiFinal
  import opened WasiHops
  import opened WasiKernel
  import opened WasiNumbers
  import opened WasiResolve
  import opened WasiReuse
  import opened WasiWalk

  predicate IsAct(e: Event) { e.Acted? || e.ActedBoth? }

  /** The calls on names, in the order they were made. */
  function Acts(log: seq<Event>): seq<Event> {
    if log == [] then []
    else Acts(log[..|log| - 1]) + if IsAct(log[|log| - 1]) then [log[|log| - 1]] else []
  }

  lemma OneMore(log: seq<Event>, e: Event)
    ensures Acts(log + [e]) == Acts(log) + if IsAct(e) then [e] else []
  {
    assert (log + [e])[..|log|] == log;
  }

  // ------------------------------------------------------------ finding a name only looks

  /** Since k no call has acted on a name. */
  ghost predicate OnlyLooks(k: Kernel, k': Kernel) {
    k.log <= k'.log && forall i :: |k.log| <= i < |k'.log| ==> !IsAct(k'.log[i])
  }

  lemma {:induction false} NoActs(log: seq<Event>, more: seq<Event>)
    requires forall e :: e in more ==> !IsAct(e)
    ensures Acts(log + more) == Acts(log)
    decreases |more|
  {
    if more == [] {
      assert log + more == log;
    } else {
      var init := more[..|more| - 1];
      NoActs(log, init);
      OneMore(log + init, more[|more| - 1]);
      assert log + init + [more[|more| - 1]] == log + more;
    }
  }

  lemma LooksNever(k: Kernel, k': Kernel)
    requires OnlyLooks(k, k')
    ensures Acts(k'.log) == Acts(k.log)
  {
    var more := k'.log[|k.log|..];
    assert k.log + more == k'.log;
    forall e | e in more ensures !IsAct(e) {
      var i :| 0 <= i < |more| && more[i] == e;
      assert k'.log[|k.log| + i] == e;
    }
    NoActs(k.log, more);
  }

  lemma LooksJoin(a: Kernel, b: Kernel, c: Kernel)
    requires OnlyLooks(a, b) && OnlyLooks(b, c)
    ensures OnlyLooks(a, c)
  {
  }

  lemma CloseLooks(k: Kernel, k1: Kernel, owned: bool, fd: nat)
    requires OnlyLooks(k, k1)
    ensures OnlyLooks(k, CloseIf(k1, owned, fd))
  {
  }

  lemma OpenLooks(w: World, k: Kernel, cur: nat, name: string, flags: Flags, depth: nat)
    ensures OnlyLooks(k, OpenAt(w, k, cur, name, flags, depth).0)
  {
  }

  lemma {:induction false} StepLooks(w: World, k: Kernel, cur: nat, comp: string, flags: Flags,
                                     depth: nat, budget: nat, follow: bool)
    ensures OnlyLooks(k, Step(w, k, cur, comp, flags, depth, budget, follow).0)
    decreases budget, 0, 0
  {
    if comp == "." {
      OpenLooks(w, k, cur, ".", DIRECTORY, depth);
    } else if comp == ".." {
      OpenLooks(w, k, cur, "..", DIRECTORY, depth);
    } else {
      OpenLooks(w, k, cur, comp, flags, depth);
      var (k1, a) := OpenAt(w, k, cur, comp, flags, depth);
      if a.OpenFailed? && follow && budget > 0 {
        var (k2, t) := ReadLinkAt(w, k1, cur, comp, depth);
        assert OnlyLooks(k, k2);
        if t.Text? {
          WalkFromLooks(w, k2, cur, t.text, flags, depth, budget - 1, true);
          LooksJoin(k, k2, WalkFrom(w, k2, cur, t.text, flags, depth, budget - 1, true).0);
        }
      }
    }
  }

  lemma {:induction false} WalkFromLooks(w: World, k: Kernel, dirfd: nat, path: string, flags: Flags,
                                         depth: nat, budget: nat, follow: bool)
    ensures OnlyLooks(k, WalkFrom(w, k, dirfd, path, flags, depth, budget, follow).0)
    decreases budget, 2, 0
  {
    if path != "" && |path| <= MAX_TEXT && path[0] != '/' {
      WalkRestLooks(w, k, dirfd, false, Components(path), flags, depth, budget, follow);
    }
  }

  lemma {:induction false} WalkRestLooks(w: World, k: Kernel, cur: nat, owned: bool, comps: seq<string>,
                                         flags: Flags, depth: nat, budget: nat, follow: bool)
    ensures OnlyLooks(k, WalkRest(w, k, cur, owned, comps, flags, depth, budget, follow).0)
    decreases budget, 1, |comps|
  {
    if comps != [] {
      var last := |comps| == 1;
      var f := if last then flags else DIRECTORY;
      var fo := if last then follow else true;
      StepLooks(w, k, cur, comps[0], f, depth, budget, fo);
      var (k1, r) := Step(w, k, cur, comps[0], f, depth, budget, fo);
      var k2 := CloseIf(k1, owned, cur);
      CloseLooks(k, k1, owned, cur);
      if r.Walked? {
        WalkRestLooks(w, k2, r.fd, true, comps[1..], flags, r.depth, budget, follow);
        LooksJoin(k, k2, WalkRest(w, k2, r.fd, true, comps[1..], flags, r.depth, budget, follow).0);
      }
    }
  }

  lemma ParentLooks(w: World, k: Kernel, dirfd: nat, path: string)
    ensures OnlyLooks(k, WalkParent(w, k, dirfd, path).0)
  {
    var comps := Components(path);
    if |comps| > 1 {
      var init := comps[..|comps| - 1];
      WalkRestLooks(w, k, dirfd, false, init, DIRECTORY, 0, MAX_SYMLINKS, true);
    }
  }

  lemma TurnLooks(w: World, k: Kernel, pfd: nat, owned: bool, name: string)
    ensures OnlyLooks(k, TakeTurn(w, k, pfd, owned, name).0)
  {
    var (k1, t) := ReadLinkAt(w, k, pfd, name, 0);
    assert OnlyLooks(k, k1);
    if t.Text? {
      ParentLooks(w, k1, pfd, t.text);
      var k2 := WalkParent(w, k1, pfd, t.text).0;
      LooksJoin(k, k1, k2);
      CloseLooks(k, k2, owned, pfd);
    }
  }

  lemma {:induction false} ChaseLooks(w: World, k: Kernel, pfd: nat, owned: bool, name: string, budget: nat)
    ensures OnlyLooks(k, Chase(w, k, pfd, owned, name, budget).0)
    decreases budget
  {
    if budget > 0 {
      TurnLooks(w, k, pfd, owned, name);
      ChaseStep(w, k, pfd, owned, name, budget);
      var (k1, turn) := TakeTurn(w, k, pfd, owned, name);
      if turn.Hop? {
        ChaseLooks(w, k1, turn.p.fd, turn.p.owned, turn.p.name, budget - 1);
        LooksJoin(k, k1, Chase(w, k1, turn.p.fd, turn.p.owned, turn.p.name, budget - 1).0);
      }
    }
  }

  lemma LocatingLooks(w: World, k: Kernel, base: nat, path: string, op: Op)
    ensures OnlyLooks(k, Locating(w, k, base, path, op).0)
  {
    ParentLooks(w, k, base, path);
    var (k1, p) := WalkParent(w, k, base, path);
    if p.Parent? {
      ChaseLooks(w, k1, p.fd, p.owned, p.name, MAX_SYMLINKS);
      LooksJoin(k, k1, Chase(w, k1, p.fd, p.owned, p.name, MAX_SYMLINKS).0);
    }
  }

  // ------------------------------------------------------------ the parent is a directory, the name the last

  lemma {:induction false} StepOnDirectory(w: World, k: Kernel, cur: nat, comp: string, depth: nat, budget: nat)
    requires w.Valid()
    ensures var (k', r) := Step(w, k, cur, comp, DIRECTORY, depth, budget, true);
      r.Walked? ==> r.fd in k'.fds && k'.fds[r.fd].DirDesc?
    decreases budget, 0, 0
  {
    if comp != "." && comp != ".." {
      var (k1, a) := OpenAt(w, k, cur, comp, DIRECTORY, depth);
      if a.OpenFailed? && budget > 0 {
        var (k2, t) := ReadLinkAt(w, k1, cur, comp, depth);
        if t.Text? && t.text != "" && |t.text| <= MAX_TEXT && t.text[0] != '/' {
          RestOnDirectory(w, k2, cur, false, Components(t.text), depth, budget - 1);
        }
      }
    }
  }

  /** A walk that asks for directories ends in one. */
  lemma {:induction false} RestOnDirectory(w: World, k: Kernel, cur: nat, owned: bool, comps: seq<string>,
                                           depth: nat, budget: nat)
    requires w.Valid() && (owned ==> cur in k.fds && k.fds[cur].DirDesc?)
    ensures var (k', r) := WalkRest(w, k, cur, owned, comps, DIRECTORY, depth, budget, true);
      r.Walked? ==> r.fd in k'.fds && k'.fds[r.fd].DirDesc?
    decreases budget, 1, |comps|
  {
    if comps != [] {
      StepOnDirectory(w, k, cur, comps[0], depth, budget);
      StepConserves(w, k, cur, comps[0], DIRECTORY, depth, budget, true);
      var (k1, r) := Step(w, k, cur, comps[0], DIRECTORY, depth, budget, true);
      if r.Walked? {
        RestOnDirectory(w, CloseIf(k1, owned, cur), r.fd, true, comps[1..], r.depth, budget);
      }
    }
  }

  /** The last name of a path that names something. */
  function LastName(path: string): string
    requires Components(path) != []
  {
    Components(path)[|Components(path)| - 1]
  }

  lemma ParentOnDirectory(w: World, k: Kernel, base: nat, comps: seq<string>)
    requires w.Valid() && base in k.fds && k.fds[base].DirDesc? && comps != []
    ensures var (k', p) := ParentOf(w, k, base, false, comps, 0);
      p.Parent? ==> p.name == comps[|comps| - 1] && p.fd in k'.fds && k'.fds[p.fd].DirDesc?
  {
    if |comps| > 1 {
      var init := comps[..|comps| - 1];
      RestOnDirectory(w, k, base, false, init, 0, MAX_SYMLINKS);
      var (k1, r) := WalkRest(w, k, base, false, init, DIRECTORY, 0, MAX_SYMLINKS, true);
      assert r.Walked? ==> r.fd in k1.fds && k1.fds[r.fd].DirDesc?;
    }
  }

  /** A parent that is found is a directory, and the name is the path's last, whatever else happens. */
  lemma FoundIn(w: World, k: Kernel, base: nat, path: string)
    requires w.Valid() && base in k.fds && k.fds[base].DirDesc?
    ensures var (k', p) := WalkParent(w, k, base, path);
      p.Parent? ==>
        Components(path) != [] && p.name == LastName(path) && p.fd in k'.fds && k'.fds[p.fd].DirDesc?
  {
    if Proper(path) {
      RelativePathNames(path);
      ParentOnDirectory(w, k, base, Components(path));
    }
  }

  // ------------------------------------------------------------ one name

  lemma CloseNever(k: Kernel, owned: bool, fd: nat)
    ensures Acts(CloseIf(k, owned, fd).log) == Acts(k.log)
  {
    OneMore(k.log, Dropped(fd, fd in k.fds));
  }

  /** What there is to answer: what the call did, or why there was none. */
  predicate Answers(r: Outcome, f: Fault) {
    && (r == Done <==> f.NoFault?)
    && (f.Fault? ==> r == Refusal(f.e))
  }

  /** One call on a name, with this answer, is all that was done to names since. */
  predicate ActedOnce(k: Kernel, k': Kernel, e: Event) {
    Acts(k'.log) == Acts(k.log) + [e]
  }

  predicate ActedNever(k: Kernel, k': Kernel) {
    Acts(k'.log) == Acts(k.log)
  }

  lemma ActLooks(w: World, k: Kernel, fd: nat, name: string)
    requires fd in k.fds && k.fds[fd].DirDesc?
    ensures var (k', f) := ActAt(w, k, fd, name);
      ActedOnce(k, k', Acted(k.fds[fd].dir, name, f))
  {
    OneMore(k.log, Acted(k.fds[fd].dir, name, w.fault(k.clock)));
  }

  /** Where the name has been found: one call there if the operation is known, none if it is not. */
  lemma ActingActs(w: World, k: Kernel, base: nat, path: string, op: Op)
    ensures var (k1, p) := Locating(w, k, base, path, op);
      var (k', r) := Acting(w, k, base, path, op);
      && (p.NoParent? ==> r == Refusal(p.e) && ActedNever(k, k'))
      && (p.Parent? && !op.known ==> r == BadArg && ActedNever(k, k'))
      && (p.Parent? && op.known && p.fd in k1.fds && k1.fds[p.fd].DirDesc? ==>
            var f := w.fault(k1.clock);
            Answers(r, f) && ActedOnce(k, k', Acted(k1.fds[p.fd].dir, p.name, f)))
      && (p.Parent? && op.known && !Live(w, k1, p.fd) ==> r == Refusal(EBADF) && ActedNever(k, k'))
  {
    LocatingLooks(w, k, base, path, op);
    var (k1, p) := Locating(w, k, base, path, op);
    LooksNever(k, k1);
    if p.Parent? {
      var k2 := if op.known then ActAt(w, k1, p.fd, p.name).0 else k1;
      CloseNever(k2, p.owned, p.fd);
      if op.known && p.fd in k1.fds && k1.fds[p.fd].DirDesc? { ActLooks(w, k1, p.fd, p.name); }
    }
  }

  /** The whole of `path_op` on its copy of the directory. */
  lemma CopyActs(w: World, k: Kernel, dir: nat, path: string, op: Op)
    requires !Oversized(path, op) && Dup(w, k, dir).1.Opened?
    ensures var (k1, d) := Dup(w, k, dir);
      var (k2, r) := Acting(w, k1, d.fd, path, op);
      && PathOp(w, k, dir, path, op) == (Close(k2, d.fd), r)
      && Acts(Close(k2, d.fd).log) == Acts(k2.log) && k1.log == k.log
  {
    var (k1, d) := Dup(w, k, dir);
    CloseNever(Acting(w, k1, d.fd, path, op).0, true, d.fd);
  }

  lemma ActingOnce(w: World, root: Node, k: Kernel, base: nat, path: string, op: Op)
    requires w.Valid() && base in k.fds && k.fds[base] == DirDesc(root) && !op.follow
    ensures var (k', r) := Acting(w, k, base, path, op);
      || (ActedNever(k, k') && (if op.known then r.Refusal? else r != Done))
      || (op.known && Components(path) != []
          && exists d, f :: Under(w, root, d) && ActedOnce(k, k', Acted(d, LastName(path), f)) && Answers(r, f))
  {
    assert At(w, root, root, 0);
    ActingActs(w, k, base, path, op);
    FoundIn(w, k, base, path);
    WalkParentSound(w, root, k, base, path);
    var (k1, p) := WalkParent(w, k, base, path);
    if p.Parent? && op.known {
      var d, f := k1.fds[p.fd].dir, w.fault(k1.clock);
      assert Under(w, root, d) && ActedOnce(k, Acting(w, k, base, path, op).0, Acted(d, LastName(path), f));
    }
  }

  /** Under any interference an operation that takes the name as written makes one call on the path's last name, in
      a directory inside the preopen, and answers what that call answered; or it makes none, and is no success. */
  lemma PathOpOnce(w: World, root: Node, k: Kernel, dir: nat, path: string, op: Op)
    requires w.Valid() && dir in k.fds && k.fds[dir] == DirDesc(root) && !op.follow
    ensures var (k', r) := PathOp(w, k, dir, path, op);
      || (ActedNever(k, k') && (if op.known then r.Refusal? else r != Done))
      || (op.known && Components(path) != []
          && exists d, f :: Under(w, root, d) && ActedOnce(k, k', Acted(d, LastName(path), f)) && Answers(r, f))
  {
    var (k1, d) := Dup(w, k, dir);
    if d.Opened? && !Oversized(path, op) {
      CopyActs(w, k, dir, path, op);
      ActingOnce(w, root, k1, d.fd, path, op);
    }
  }

  // ------------------------------------------------------------ on a file system nobody changes

  /** What an operation does, by where its path leads: to a name, to a refusal, or to a closed number. */
  predicate Does(k: Kernel, k': Kernel, r: Outcome, to: Landing, known: bool) {
    && (to.Off? ==> r == Refusal(to.e) && ActedNever(k, k'))
    && (!to.Off? && !known ==> r == BadArg && ActedNever(k, k'))
    && (to.Nowhere? && known ==> r == Refusal(EBADF) && ActedNever(k, k'))
    && (to.On? && known ==> r == Done && ActedOnce(k, k', Acted(to.dir, to.name, NoFault)))
  }

  ghost predicate Lands(w: World, k: Kernel, p: Parented, to: Landing) {
    && Landed(k, p) == to
    && (p.NoParent? <==> to.Off?)
    && (to.Nowhere? ==> !Live(w, k, p.fd))
    && (to.On? ==> p.name == to.name)
  }

  lemma WrittenLands(w: World, root: Node, k: Kernel, base: nat, path: string)
    requires w.Valid() && Still(w) && base in k.fds && k.fds[base] == DirDesc(root)
    ensures var (k1, p) := WalkParent(w, k, base, path);
      Lands(w, k1, p, HopFrom(w, root, root, path))
  {
    assert At(w, root, root, 0);
    if Proper(path) { ParentLands(w, root, k, base, 0, path); }
    LandsOnNames(w, k, base, path);
    ReachedSomewhere(w, root, root, path);
  }

  lemma LandsBy(w: World, k: Kernel, p: Parented, to: Landing, loses: bool)
    requires w.Alone() && Landed(k, p) == to && (loses <==> to.Nowhere?)
    requires p.Parent? ==> (p.fd in k.fds <==> !loses)
    ensures Lands(w, k, p, to)
  {
  }

  lemma FollowedLands(w: World, root: Node, k: Kernel, base: nat, path: string)
    requires w.Valid() && Still(w) && base in k.fds && k.fds[base] == DirDesc(root) && w.Alone()
    ensures var (k1, p) := ResolveFinal(w, k, base, path);
      Lands(w, k1, p, AnswerOf(w, root, path))
  {
    ResolveFinalLands(w, root, k, base, path);
    ResolveFinalAnchor(w, root, k, base, path);
    LosesOnTree(w, root, k, base, path);
    var (k1, p) := ResolveFinal(w, k, base, path);
    LandsBy(w, k1, p, AnswerOf(w, root, path), LosesAnchor(Texts(w, k, base, path), MAX_SYMLINKS));
  }

  /** On a file system nobody changes `path_op` does on the tree what its path says: it acts once, on the name and in
      the directory that resolution of what stands before it comes to (or, of an operation that follows, on the name
      `resolve_final` answers), or it does nothing and says why. */
  lemma PathOpOnTree(w: World, root: Node, k: Kernel, dir: nat, path: string, op: Op)
    requires w.Valid() && Still(w) && dir in k.fds && k.fds[dir] == DirDesc(root) && (op.follow ==> w.Alone())
    requires |path| < 4096 && op.argSize < 4096
    ensures var (k', r) := PathOp(w, k, dir, path, op);
      Does(k, k', r, if op.follow then AnswerOf(w, root, path) else HopFrom(w, root, root, path), op.known)
  {
    assert !Oversized(path, op);
    assert w.fault(k.clock) == NoFault;
    var (k1, d) := Dup(w, k, dir);
    CopyActs(w, k, dir, path, op);
    if op.follow { FollowedLands(w, root, k1, d.fd, path); } else { WrittenLands(w, root, k1, d.fd, path); }
    ActingActs(w, k1, d.fd, path, op);
    var k2 := Locating(w, k1, d.fd, path, op).0;
    assert w.fault(k2.clock) == NoFault;
  }

  /** A path or an argument that does not fit a buffer of 4096 with its NUL is refused before anything is opened, and
      a directory there is no copy of is the next thing to be refused for. */
  lemma PathOpRefuses(w: World, k: Kernel, dir: nat, path: string, op: Op)
    ensures var (k', r) := PathOp(w, k, dir, path, op);
      var (k1, d) := Dup(w, k, dir);
      && (|path| >= 4096 || op.argSize >= 4096 ==> r == Refusal(ENAMETOOLONG) && k' == k)
      && (|path| < 4096 && op.argSize < 4096 && d.OpenFailed? ==> r == Refusal(d.e) && k' == k1)
  {
  }
}
