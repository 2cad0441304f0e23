/**
 The whole chain of links at the end of a path: what `resolve_final` answers
 against where pathname resolution goes, and exactly where they part.
 */
module WasiChain {
  import opened WasiFinal
  import opened WasiGoal
  import opened WasiHops
  import opened WasiKernel
  import opened WasiResolve
  import opened WasiWalk

  // ------------------------------------------------------------ what the code answers, on the tree

  /** Where a hop of the loop goes: counting depth from the link's own directory. */
  ghost function Going(w: World, root: Node, dir: Node, text: string): Landing {
    if AsksUp(w, root, dir, text) then Off(REFUSED) else HopFrom(w, root, dir, text)
  }

  /** The loop from a name in a directory, with `budget` reads of a link left; `owned` says whether it is one the
      walk opened and so closes. */
  ghost function Answered(w: World, root: Node, dir: Node, owned: bool, name: string, budget: nat): Landing
    decreases budget
  {
    if budget == 0 then Off(ELOOP)
    else if !IsLink(w, dir, name) then On(dir, name)
    else
      var text := TextOf(w, dir, name);
      match Going(w, root, dir, text)
      case On(d, n) =>
        if owned && Single(text) && budget > 1 then Nowhere
        else Answered(w, root, d, |Components(text)| > 1, n, budget - 1)
      case to => to
  }

  ghost function AnswerOf(w: World, root: Node, path: string): Landing {
    match HopFrom(w, root, root, path)
    case On(d, n) => Answered(w, root, d, |Components(path)| > 1, n, MAX_SYMLINKS)
    case to => to
  }

  lemma HopLands(w: World, root: Node, k: Kernel, pfd: nat, text: string)
    requires w.Valid() && Still(w) && pfd in k.fds && k.fds[pfd].DirDesc? && Under(w, root, k.fds[pfd].dir)
    ensures var (k', p) := WalkParent(w, k, pfd, text);
      var dir := k.fds[pfd].dir;
      Landed(k', p) == Going(w, root, dir, text)
  {
    var dir := k.fds[pfd].dir;
    var d: nat :| At(w, root, dir, d);
    if Proper(text) {
      assert At(w, dir, dir, 0);
      ParentLands(w, dir, k, pfd, 0, text);
    }
    HopFromHere(w, root, dir, d, text);
  }

  lemma TurnLands(w: World, root: Node, base: map<nat, Desc>, k: Kernel, pfd: nat, owned: bool, name: string)
    requires w.Valid() && Still(w) && name != ".." && Anchored(w, root, base, k, pfd, owned) && k.fds[pfd].DirDesc?
    ensures var dir := k.fds[pfd].dir;
      var (k', turn) := TakeTurn(w, k, pfd, owned, name);
      && (!IsLink(w, dir, name) ==> turn.Stop? && Landed(k', turn.p) == On(dir, name))
      && (IsLink(w, dir, name) ==>
            var text := TextOf(w, dir, name);
            var to := Going(w, root, dir, text);
            && (turn.Stop? ==> Landed(k', turn.p) == to && !to.On?)
            && (turn.Hop? ==> turn.text == text && to.On? && turn.p.name == to.name)
            && (turn.Hop? && !Lost(base, k', turn.p.fd, turn.p.owned) ==> Landed(k', turn.p) == to))
  {
    var dir := k.fds[pfd].dir;
    assert w.table(k.clock) == w.table(0) && w.fault(k.clock) == NoFault;
    if IsLink(w, dir, name) {
      var (k1, t) := ReadLinkAt(w, k, pfd, name, 0);
      HopLands(w, root, k1, pfd, t.text);
      HopSound(w, root, base, k1, pfd, owned, t.text);
      LandsOnNames(w, k1, pfd, t.text);
    }
  }

  /** A parent that is found is found on a directory. */
  lemma LandsOnNames(w: World, k: Kernel, pfd: nat, text: string)
    requires w.Valid() && Still(w) && pfd in k.fds && k.fds[pfd].DirDesc?
    ensures var (k', p) := WalkParent(w, k, pfd, text);
      && (p.Parent? ==> Landed(k', p).On? && Landed(k', p).name == p.name)
      && (p.NoParent? ==> Landed(k', p).Off?)
  {
    var comps := Components(text);
    if Proper(text) && |comps| > 1 {
      var dir := k.fds[pfd].dir;
      assert At(w, dir, dir, 0);
      var q := Request(dir, DIRECTORY, true);
      var init := comps[..|comps| - 1];
      var n := WalkRestResolves(w, q, k.fds, k, pfd, false, init, DIRECTORY, 0, MAX_SYMLINKS, true, 0, []);
      var (k1, r) := WalkRest(w, k, pfd, false, init, DIRECTORY, 0, MAX_SYMLINKS, true);
      assert WalkParent(w, k, pfd, text) == ParentOf(w, k, pfd, false, comps, 0);
      assert r.Walked? ==> r.fd in k1.fds && k1.fds[r.fd].DirDesc?;
    }
  }

  /** A turn of the loop on the tree, in the same steps. */
  lemma AnsweredTurns(w: World, root: Node, dir: Node, owned: bool, name: string, budget: nat)
    requires budget > 0
    ensures Answered(w, root, dir, owned, name, budget) ==
      if !IsLink(w, dir, name) then On(dir, name)
      else
        var text := TextOf(w, dir, name);
        var to := Going(w, root, dir, text);
        if !to.On? then to
        else if owned && Single(text) && budget > 1 then Nowhere
        else Answered(w, root, to.dir, |Components(text)| > 1, to.name, budget - 1)
  {
  }

  /** From a number that has been closed the loop lands nowhere, unless it has no reads left. */
  lemma HopChaseLands(w: World, root: Node, base: map<nat, Desc>, k: Kernel, p: Parented, budget: nat)
    requires w.Valid() && w.Alone() && p.Parent? && p.name != ".."
    ensures Lost(base, k, p.fd, p.owned) ==>
      var (k', p') := Chase(w, k, p.fd, p.owned, p.name, budget);
      Landed(k', p') == if budget == 0 then Off(ELOOP) else Nowhere
  {
    if Lost(base, k, p.fd, p.owned) && budget > 0 {
      ChaseLost(w, root, base, k, p.fd, p.name, budget);
    }
  }

  lemma StopLands(w: World, root: Node, base: map<nat, Desc>, k: Kernel, pfd: nat, owned: bool, name: string,
                  budget: nat)
    requires w.Valid() && Still(w) && budget > 0
    requires name != ".." && Anchored(w, root, base, k, pfd, owned) && k.fds[pfd].DirDesc?
    requires TakeTurn(w, k, pfd, owned, name).1.Stop?
    ensures var (k', p) := Chase(w, k, pfd, owned, name, budget);
      Landed(k', p) == Answered(w, root, k.fds[pfd].dir, owned, name, budget)
  {
    TurnLands(w, root, base, k, pfd, owned, name);
    AnsweredTurns(w, root, k.fds[pfd].dir, owned, name, budget);
  }

  lemma HopGoesOn(w: World, root: Node, base: map<nat, Desc>, k: Kernel, pfd: nat, owned: bool, name: string,
                  budget: nat)
    requires w.Valid() && Still(w) && w.Alone() && budget > 0
    requires name != ".." && Anchored(w, root, base, k, pfd, owned) && k.fds[pfd].DirDesc?
    requires TakeTurn(w, k, pfd, owned, name).1.Hop?
    requires var (k1, turn) := TakeTurn(w, k, pfd, owned, name);
      var (k', p') := Chase(w, k1, turn.p.fd, turn.p.owned, turn.p.name, budget - 1);
      Lost(base, k1, turn.p.fd, turn.p.owned)
      || (turn.p.fd in k1.fds && k1.fds[turn.p.fd].DirDesc?
          && Landed(k', p') == Answered(w, root, k1.fds[turn.p.fd].dir, turn.p.owned, turn.p.name, budget - 1))
    ensures var (k', p) := Chase(w, k, pfd, owned, name, budget);
      Landed(k', p) == Answered(w, root, k.fds[pfd].dir, owned, name, budget)
  {
    TurnLands(w, root, base, k, pfd, owned, name);
    TurnSound(w, root, base, k, pfd, owned, name);
    ChaseStep(w, k, pfd, owned, name, budget);
    AnsweredTurns(w, root, k.fds[pfd].dir, owned, name, budget);
    var (k1, turn) := TakeTurn(w, k, pfd, owned, name);
    HopChaseLands(w, root, base, k1, turn.p, budget - 1);
  }

  lemma {:induction false} ChaseLands(w: World, root: Node, base: map<nat, Desc>, k: Kernel, pfd: nat, owned: bool,
                                      name: string, budget: nat)
    requires w.Valid() && Still(w) && w.Alone()
    requires name != ".." && Anchored(w, root, base, k, pfd, owned) && k.fds[pfd].DirDesc?
    ensures var (k', p) := Chase(w, k, pfd, owned, name, budget);
      Landed(k', p) == Answered(w, root, k.fds[pfd].dir, owned, name, budget)
    decreases budget
  {
    if budget > 0 {
      var (k1, turn) := TakeTurn(w, k, pfd, owned, name);
      if turn.Stop? {
        StopLands(w, root, base, k, pfd, owned, name, budget);
      } else {
        TurnSound(w, root, base, k, pfd, owned, name);
        TurnLands(w, root, base, k, pfd, owned, name);
        if !Lost(base, k1, turn.p.fd, turn.p.owned) {
          ChaseLands(w, root, base, k1, turn.p.fd, turn.p.owned, turn.p.name, budget - 1);
        }
        HopGoesOn(w, root, base, k, pfd, owned, name, budget);
      }
    }
  }

  /** With no other thread about, on a file system nobody changes, that is what `resolve_final` answers. */
  lemma ResolveFinalLands(w: World, root: Node, k: Kernel, base: nat, path: string)
    requires w.Valid() && Still(w) && w.Alone() && base in k.fds && k.fds[base] == DirDesc(root)
    ensures var (k', p) := ResolveFinal(w, k, base, path);
      Landed(k', p) == AnswerOf(w, root, path)
  {
    assert At(w, root, root, 0);
    var (k1, p) := WalkParent(w, k, base, path);
    if Proper(path) {
      ParentLands(w, root, k, base, 0, path);
    }
    LandsOnNames(w, k, base, path);
    WalkParentSound(w, root, k, base, path);
    if p.Parent? {
      ChaseLands(w, root, k.fds, k1, p.fd, p.owned, p.name, MAX_SYMLINKS);
    }
  }

  // ------------------------------------------------------------ where the two part

  /**
   What happens first on the chain that resolution and the code make different things of: a text asks for `..` in
   its own directory, a text nests deeper than resolution allows this far down the chain, a text ends in `..`, a
   directory is closed and read through again, or the name after eight links is no link.
   */
  datatype Defect = Clean | Climbs | Nests | EndsUp | Closes | Long

  ghost function FirstDefect(w: World, root: Node, dir: Node, owned: bool, name: string, budget: nat): Defect
    requires budget <= MAX_SYMLINKS
    decreases budget
  {
    if !IsLink(w, dir, name) then (if budget == 0 then Long else Clean)
    else if budget == 0 then Clean
    else
      var text := TextOf(w, dir, name);
      if AsksUp(w, root, dir, text) then Climbs
      else match Reached(w, root, dir, text)
        case On(d, n) =>
          if TooDeep(w, root, dir, text, MAX_SYMLINKS - budget + 1) then Nests
          else if n == ".." then EndsUp
          else if owned && Single(text) && budget > 1 then Closes
          else FirstDefect(w, root, d, |Components(text)| > 1, n, budget - 1)
        case to =>
          if TooDeep(w, root, dir, text, MAX_SYMLINKS - budget + 1) && to != Off(ELOOP) then Nests else Clean
  }

  ghost function DefectOf(w: World, root: Node, path: string): Defect {
    match Reached(w, root, root, path)
    case On(d, n) =>
      if n == ".." then EndsUp else FirstDefect(w, root, d, |Components(path)| > 1, n, MAX_SYMLINKS)
    case _ => Clean
  }

  /** Where resolution goes from a name of the chain, so many links down. */
  ghost function GoalAt(w: World, q: Request, dir: Node, name: string, budget: nat): Landing
    requires budget <= MAX_SYMLINKS
  {
    LandingOf(q.root, Goal(w, q, At_(DirDesc(dir), [Item(name, MAX_SYMLINKS - budget)])))
  }

  lemma GoalUnrolls(w: World, q: Request, dir: Node, d: nat, name: string, budget: nat)
    requires w.Valid() && Still(w) && At(w, q.root, dir, d) && q.follow && !(q.flags.create && q.flags.exclusive)
    requires 0 < budget <= MAX_SYMLINKS && IsLink(w, dir, name)
    ensures var text := TextOf(w, dir, name);
      GoalAt(w, q, dir, name, budget) ==
        if TooDeep(w, q.root, dir, text, MAX_SYMLINKS - budget + 1) then Off(ELOOP)
        else match Reached(w, q.root, dir, text)
          case On(to, n) => GoalAt(w, q, to, n, budget - 1)
          case to => to
  {
    var text, level := TextOf(w, dir, name), MAX_SYMLINKS - budget;
    NameGoal(w, q, dir, name, level);
    if Proper(text) {
      assert Items(Components(text), level + 1) + [] == Items(Components(text), level + 1);
      TextGoal(w, q, dir, d, text, level + 1);
      ReachedSomewhere(w, q.root, dir, text);
    } else {
      GoalHere(w, q, Splice(DirDesc(dir), text, level + 1, []));
    }
  }

  lemma ReachedSomewhere(w: World, root: Node, dir: Node, text: string)
    ensures !Reached(w, root, dir, text).Nowhere?
  {
  }

  /** Answer and destination by what happens first on the chain. */
  ghost predicate Parts(defect: Defect, answer: Landing, goal: Landing) {
    match defect
    case Clean => answer == goal
    case Climbs => answer == Off(REFUSED)
    case Nests => goal == Off(ELOOP)
    case EndsUp => answer == Off(REFUSED) && (goal == Off(REFUSED) || (goal.On? && goal.name == ".."))
    case Closes => answer == Nowhere
    case Long => answer == Off(ELOOP) && (goal == Off(REFUSED) || goal.On?)
  }

  lemma UpGoal(w: World, q: Request, dir: Node, budget: nat)
    requires w.Valid() && budget <= MAX_SYMLINKS
    ensures GoalAt(w, q, dir, "..", budget) == if dir == q.root then Off(REFUSED) else On(dir, "..")
  {
    GoalHere(w, q, At_(DirDesc(dir), [Item("..", MAX_SYMLINKS - budget)]));
  }

  /** At a link the chain goes on from where its text lands. */
  lemma TurnParts(w: World, q: Request, dir: Node, d: nat, owned: bool, name: string, budget: nat)
    requires w.Valid() && Still(w) && At(w, q.root, dir, d) && q.follow && !(q.flags.create && q.flags.exclusive)
    requires 0 < budget <= MAX_SYMLINKS && IsLink(w, dir, name)
    requires var text := TextOf(w, dir, name);
      match Reached(w, q.root, dir, text)
      case On(to, n) =>
        && (n == ".." ==> GoalAt(w, q, to, n, budget - 1) == if to == q.root then Off(REFUSED) else On(to, ".."))
        && (n != ".." ==> Parts(FirstDefect(w, q.root, to, |Components(text)| > 1, n, budget - 1),
                                Answered(w, q.root, to, |Components(text)| > 1, n, budget - 1),
                                GoalAt(w, q, to, n, budget - 1)))
      case _ => true
    ensures Parts(FirstDefect(w, q.root, dir, owned, name, budget), Answered(w, q.root, dir, owned, name, budget),
                  GoalAt(w, q, dir, name, budget))
  {
    var text := TextOf(w, dir, name);
    GoalUnrolls(w, q, dir, d, name, budget);
    ReachedSomewhere(w, q.root, dir, text);
    var to := Reached(w, q.root, dir, text);
    if AsksUp(w, q.root, dir, text) {
      assert FirstDefect(w, q.root, dir, owned, name, budget) == Climbs;
    } else if to.On? {
      if to.name == ".." { assert Going(w, q.root, dir, text) == Off(REFUSED); }
    } else {
      assert Answered(w, q.root, dir, owned, name, budget) == to;
    }
  }

  /** The chain ends at a name that is no link, or at a ninth link. */
  lemma EndParts(w: World, q: Request, dir: Node, owned: bool, name: string, budget: nat)
    requires w.Valid() && q.follow && !(q.flags.create && q.flags.exclusive)
    requires budget <= MAX_SYMLINKS && name != ".." && (budget == 0 || !IsLink(w, dir, name))
    ensures Parts(FirstDefect(w, q.root, dir, owned, name, budget), Answered(w, q.root, dir, owned, name, budget),
                  GoalAt(w, q, dir, name, budget))
  {
    NameGoal(w, q, dir, name, MAX_SYMLINKS - budget);
  }

  lemma {:induction false} ChainParts(w: World, q: Request, dir: Node, owned: bool, name: string, budget: nat)
    requires w.Valid() && Still(w) && Under(w, q.root, dir) && q.follow && !(q.flags.create && q.flags.exclusive)
    requires budget <= MAX_SYMLINKS && name != ".."
    ensures Parts(FirstDefect(w, q.root, dir, owned, name, budget), Answered(w, q.root, dir, owned, name, budget),
                  GoalAt(w, q, dir, name, budget))
    decreases budget
  {
    if IsLink(w, dir, name) && budget > 0 {
      var text := TextOf(w, dir, name);
      var d: nat :| At(w, q.root, dir, d);
      var to := Reached(w, q.root, dir, text);
      if to.On? {
        ReachedInside(w, q.root, dir, d, text);
        UpGoal(w, q, to.dir, budget - 1);
        if to.name != ".." { ChainParts(w, q, to.dir, |Components(text)| > 1, to.name, budget - 1); }
      }
      TurnParts(w, q, dir, d, owned, name, budget);
    } else {
      EndParts(w, q, dir, owned, name, budget);
    }
  }

  /** The path itself nests no deeper than it does by itself. */
  lemma PathNests(w: World, root: Node, path: string)
    requires w.Valid() && Still(w) && TooDeep(w, root, root, path, 0)
    ensures Reached(w, root, root, path) == Off(ELOOP)
  {
    var r, s := Request(root, DIRECTORY, true), ParentSpot(root, path);
    var n: nat :| BlockedWithin(w, r, s, 0, n);
    BlockedRuns(w, r, s, n);
    EndingIs(w, r, s, n);
  }

  lemma {:induction false} BlockedRuns(w: World, r: Request, s: Spot, n: nat)
    requires r == Request(r.root, DIRECTORY, true) && BlockedWithin(w, r, s, 0, n)
    ensures Run(w, r, s, n) == Refused(ELOOP)
    decreases n
  {
    OneStep(w, r, s, Next(w, r, s), n - 1);
    if Blocked(w, r.root, s, 0) {
      HaltedStays(w, r, Refused(ELOOP), n - 1);
    } else {
      BlockedRuns(w, r, Next(w, r, s), n - 1);
    }
  }

  lemma PathParts(w: World, q: Request, path: string)
    requires w.Valid() && Still(w) && q.follow && !(q.flags.create && q.flags.exclusive)
    ensures Parts(DefectOf(w, q.root, path), AnswerOf(w, q.root, path), Destination(w, q, path))
  {
    assert At(w, q.root, q.root, 0);
    ReachedSomewhere(w, q.root, q.root, path);
    if Proper(path) {
      TextGoal(w, q, q.root, 0, path, 0);
      if TooDeep(w, q.root, q.root, path, 0) { PathNests(w, q.root, path); }
      var to := Reached(w, q.root, q.root, path);
      if to.On? {
        ReachedInside(w, q.root, q.root, 0, path);
        UpGoal(w, q, to.dir, MAX_SYMLINKS);
        if to.name != ".." { ChainParts(w, q, to.dir, |Components(path)| > 1, to.name, MAX_SYMLINKS); }
      }
    } else {
      GoalHere(w, q, Begin(q.root, path));
    }
  }

  /**
   With no other thread about, on a file system nobody changes, `resolve_final` against the resolution that
   follows the last name. Where resolution comes to a name, the operation comes to it too if and only if no text
   on the way climbs out of its own directory, none ends in `..` (the path included), no directory is closed and
   read through again, and there are at most seven links. Where resolution is refused, the operation is refused
   alike exactly in the cases listed.
   */
  lemma ResolveFinalAgrees(w: World, k: Kernel, base: nat, path: string, q: Request)
    requires w.Valid() && Still(w) && w.Alone() && base in k.fds && k.fds[base] == DirDesc(q.root)
    requires q.follow && !(q.flags.create && q.flags.exclusive)
    ensures var (k', p) := ResolveFinal(w, k, base, path);
      var to, defect := Destination(w, q, path), DefectOf(w, q.root, path);
      && (to.On? ==> (Landed(k', p) == to <==> defect == Clean))
      && (to.Off? ==> (Landed(k', p) == to <==>
            || defect == Clean
            || ((defect == Climbs || defect == EndsUp) && to == Off(REFUSED))
            || (defect == Nests && AnswerOf(w, q.root, path) == Off(ELOOP))))
      && Parts(defect, Landed(k', p), to)
  {
    ResolveFinalLands(w, q.root, k, base, path);
    PathParts(w, q, path);
    DestinationMeans(w, q, path);
  }
}
