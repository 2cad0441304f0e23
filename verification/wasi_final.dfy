/**
 Following the final name of a path: `resolve_final`.

 The chain of links at the end of a path is followed here rather than by the
 kernel, so that a later call can act on the name without following it again.
 */
module WasiFinal {
  import opened WasiKernel
  import opened WasiResolve
  import opened WasiWalk

  function ResolveFinal(w: World, k: Kernel, base: nat, path: string): (Kernel, Parented) {
    var (k1, p) := WalkParent(w, k, base, path);
    if p.NoParent? then (k1, p) else Chase(w, k1, p.fd, p.owned, p.name, MAX_SYMLINKS)
  }

  /** One turn of the loop: it ends with an answer, or goes through one link's text. */
  datatype Turn = Stop(p: Parented) | Hop(text: string, p: Parented)

  function TakeTurn(w: World, k: Kernel, pfd: nat, owned: bool, name: string): (r: (Kernel, Turn))
    ensures r.1.Hop? ==> r.1.p.Parent?
  {
    var (k1, t) := ReadLinkAt(w, k, pfd, name, 0);
    if t.ReadFailed? then (k1, Stop(Parent(pfd, owned, name)))
    else if t.text != "" && t.text[0] == '/' then (CloseIf(k1, owned, pfd), Stop(NoParent(REFUSED)))
    else
      var (k2, p) := WalkParent(w, k1, pfd, t.text);
      (CloseIf(k2, owned, pfd), if p.NoParent? then Stop(p) else Hop(t.text, p))
  }

  /** The loop, with `budget` reads of a link left. */
  function Chase(w: World, k: Kernel, pfd: nat, owned: bool, name: string, budget: nat): (Kernel, Parented)
    decreases budget
  {
    if budget == 0 then (CloseIf(k, owned, pfd), NoParent(ELOOP))
    else match TakeTurn(w, k, pfd, owned, name)
      case (k', Stop(p)) => (k', p)
      case (k', Hop(_, p)) => Chase(w, k', p.fd, p.owned, p.name, budget - 1)
  }

  /** The texts of the links `Chase` goes through. */
  function Followed(w: World, k: Kernel, pfd: nat, owned: bool, name: string, budget: nat): seq<string>
    decreases budget
  {
    if budget == 0 then []
    else match TakeTurn(w, k, pfd, owned, name)
      case (_, Stop(_)) => []
      case (k', Hop(text, p)) => [text] + Followed(w, k', p.fd, p.owned, p.name, budget - 1)
  }

  // ------------------------------------------------------------ containment and conservation

  /** `Safe` without the count: every name looked up is in the subtree, and `..` stays in it. */
  ghost predicate Contained(w: World, root: Node, kept: set<nat>, e: Event) {
    match e
    case Looked(dir, name, _, _) => Under(w, root, dir) && (name == ".." ==> Under(w, root, w.parent(dir)))
    case Acted(dir, name, _) => name != ".." && Under(w, root, dir)
    case ActedBoth(d1, n1, d2, n2, _) => n1 != ".." && n2 != ".." && Under(w, root, d1) && Under(w, root, d2)
    case Dropped(fd, ours) => ours && fd !in kept
  }

  ghost predicate ContainedSince(w: World, root: Node, kept: set<nat>, k: Kernel, k': Kernel) {
    && k.log <= k'.log
    && forall i :: |k.log| <= i < |k'.log| ==> Contained(w, root, kept, k'.log[i])
  }

  /** What is safe below a directory inside the root's subtree is contained in that subtree. */
  lemma SafeBelow(w: World, root: Node, mid: Node, kept: set<nat>, kept': set<nat>, k: Kernel, k': Kernel)
    requires Under(w, root, mid) && SafeSince(w, mid, kept', k, k') && kept <= kept'
    ensures ContainedSince(w, root, kept, k, k')
  {
    var d: nat :| At(w, root, mid, d);
    forall i | |k.log| <= i < |k'.log|
      ensures Contained(w, root, kept, k'.log[i])
    {
      assert Safe(w, mid, kept', k'.log[i]);
      match k'.log[i]
      case Looked(dir, name, depth, _) =>
        AtAdds(w, root, mid, dir, d, depth);
        if name == ".." {
          AtAdds(w, root, mid, w.parent(dir), d, depth - 1);
        }
      case Acted(dir, name, _) =>
        UnderJoins(w, root, mid, dir);
      case ActedBoth(d1, _, d2, _, _) =>
        UnderJoins(w, root, mid, d1);
        UnderJoins(w, root, mid, d2);
      case Dropped(_, _) =>
    }
  }

  lemma UnderJoins(w: World, root: Node, mid: Node, n: Node)
    requires Under(w, root, mid) && Under(w, mid, n)
    ensures Under(w, root, n)
  {
    var d: nat :| At(w, root, mid, d);
    var e: nat :| At(w, mid, n, e);
    AtAdds(w, root, mid, n, d, e);
  }

  /** A directory held open inside the subtree. */
  ghost predicate Anchored(w: World, root: Node, base: map<nat, Desc>, k: Kernel, pfd: nat, owned: bool) {
    && Since(base, k, pfd, owned)
    && (k.fds[pfd].DirDesc? ==> Under(w, root, k.fds[pfd].dir))
  }

  /** A number that has been closed. */
  ghost predicate Lost(base: map<nat, Desc>, k: Kernel, pfd: nat, owned: bool) {
    !owned && pfd !in k.fds && k.fds == base
  }

  /** Contained and conserving; an answered number that is closed denotes nothing, and only if no other
      thread could have taken it. */
  ghost predicate FinalSound(w: World, root: Node, base: map<nat, Desc>, k: Kernel, k': Kernel, p: Parented) {
    && ContainedSince(w, root, base.Keys, k, k')
    && (p.NoParent? ==> k'.fds == base)
    && (p.Parent? ==>
          && p.name != ".."
          && (Anchored(w, root, base, k', p.fd, p.owned) || (w.Alone() && Lost(base, k', p.fd, p.owned))))
  }

  /** What one hop leaves, a closed number included. */
  ghost predicate HopHolds(w: World, root: Node, base: map<nat, Desc>, k: Kernel, k': Kernel, p: Parented) {
    && ContainedSince(w, root, base.Keys, k, k')
    && (p.NoParent? ==> k'.fds == base)
    && (p.Parent? ==>
          && p.name != ".."
          && (Anchored(w, root, base, k', p.fd, p.owned) || Lost(base, k', p.fd, p.owned)))
  }

  /** One hop: the link's directory is closed if it was ours, and the new one is anchored,
      unless it is the very descriptor that was just closed. */
  lemma HopSound(w: World, root: Node, base: map<nat, Desc>, k: Kernel, pfd: nat, owned: bool, text: string)
    requires w.Valid() && Anchored(w, root, base, k, pfd, owned)
    ensures var (k2, p) := WalkParent(w, k, pfd, text);
      var k3 := CloseIf(k2, owned, pfd);
      && HopHolds(w, root, base, k, k3, p)
      && (p.Parent? ==>
            && (p.owned <==> |Components(text)| > 1)
            && (Lost(base, k3, p.fd, p.owned) <==> owned && !p.owned)
            && (!Lost(base, k3, p.fd, p.owned) ==> k3.fds[p.fd] == k2.fds[p.fd]))
  {
    var mid := if k.fds[pfd].DirDesc? then k.fds[pfd].dir else root;
    assert At(w, root, root, 0);
    WalkParentSound(w, mid, k, pfd, text);
    var (k2, p) := WalkParent(w, k, pfd, text);
    SafeBelow(w, root, mid, base.Keys, k.fds.Keys, k, k2);
    if owned {
      assert base[pfd := k.fds[pfd]] - {pfd} == base;
      if p.Parent? && p.owned {
        assert CloseIf(k2, owned, pfd).fds == base[p.fd := k2.fds[p.fd]];
      }
    }
    if p.Parent? && k2.fds[p.fd].DirDesc? {
      UnderJoins(w, root, mid, k2.fds[p.fd].dir);
    }
  }

  lemma ReadLinkContained(w: World, root: Node, base: map<nat, Desc>, k: Kernel, pfd: nat, owned: bool, name: string)
    requires name != ".." && Anchored(w, root, base, k, pfd, owned)
    ensures var (k1, _) := ReadLinkAt(w, k, pfd, name, 0);
      k1.fds == k.fds && ContainedSince(w, root, base.Keys, k, k1)
  {
  }

  lemma TurnSound(w: World, root: Node, base: map<nat, Desc>, k: Kernel, pfd: nat, owned: bool, name: string)
    requires w.Valid() && name != ".." && Anchored(w, root, base, k, pfd, owned)
    ensures var (k', turn) := TakeTurn(w, k, pfd, owned, name);
      && HopHolds(w, root, base, k, k', turn.p)
      && (turn.Stop? && turn.p.Parent? ==> Anchored(w, root, base, k', turn.p.fd, turn.p.owned))
      && (turn.Hop? ==>
            && |Components(turn.text)| > 0
            && (turn.p.owned <==> |Components(turn.text)| > 1)
            && (Lost(base, k', turn.p.fd, turn.p.owned) <==> owned && !turn.p.owned))
  {
    ReadLinkContained(w, root, base, k, pfd, owned, name);
    var (k1, t) := ReadLinkAt(w, k, pfd, name, 0);
    if owned {
      assert base[pfd := k.fds[pfd]] - {pfd} == base;
    }
    if t.Text? && !(t.text != "" && t.text[0] == '/') {
      HopSound(w, root, base, k1, pfd, owned, t.text);
      if WalkParent(w, k1, pfd, t.text).1.Parent? {
        ParentNames(w, k1, pfd, t.text);
      }
    }
  }

  predicate Single(text: string) { |Components(text)| == 1 }

  /**
   Some link followed, after which the loop reads another, was a bare name read in a directory the
   walk had opened: the text before it had more than one component. `texts` are the path and the
   texts followed; `budget` is how often the loop may read a link.
   */
  predicate LosesAnchor(texts: seq<string>, budget: nat)
    decreases |texts|
  {
    && |texts| >= 2 && budget > 1
    && ((|Components(texts[0])| > 1 && Single(texts[1])) || LosesAnchor(texts[1..], budget - 1))
  }

  /** No closed number is used, or none can have been taken. */
  ghost predicate Clear(w: World, texts: seq<string>, budget: nat) {
    w.Alone() || !LosesAnchor(texts, budget)
  }

  /** Reading a link through a closed number fails when nobody has taken it, and the loop answers what it has. */
  lemma ChaseLost(w: World, root: Node, base: map<nat, Desc>, k: Kernel, pfd: nat, name: string, budget: nat)
    requires w.Alone() && name != ".." && Lost(base, k, pfd, false)
    ensures var (k', p) := Chase(w, k, pfd, false, name, budget);
      && FinalSound(w, root, base, k, k', p)
      && (p.Parent? ==> p.fd !in k'.fds)
      && (p.Parent? <==> budget > 0)
      && Followed(w, k, pfd, false, name, budget) == []
  {
    if budget > 0 {
      assert !Live(w, k, pfd);
      assert TakeTurn(w, k, pfd, false, name) == (Looking(w, k, pfd, name, 0, Read), Stop(Parent(pfd, false, name)));
    }
  }

  lemma ChaseOver(w: World, root: Node, base: map<nat, Desc>, k: Kernel, pfd: nat, owned: bool, name: string)
    requires Anchored(w, root, base, k, pfd, owned) || Lost(base, k, pfd, owned)
    ensures var (k', p) := Chase(w, k, pfd, owned, name, 0);
      FinalSound(w, root, base, k, k', p)
  {
    if owned {
      assert base[pfd := k.fds[pfd]] - {pfd} == base;
    }
  }

  lemma FollowedTail(w: World, k: Kernel, pfd: nat, owned: bool, name: string, budget: nat, prev: string)
    requires budget > 0 && TakeTurn(w, k, pfd, owned, name).1.Hop?
    ensures var (k1, turn) := TakeTurn(w, k, pfd, owned, name);
      var tail := [turn.text] + Followed(w, k1, turn.p.fd, turn.p.owned, turn.p.name, budget - 1);
      && Followed(w, k, pfd, owned, name, budget) == tail
      && (LosesAnchor([prev] + tail, budget) <==>
            budget > 1 && ((|Components(prev)| > 1 && Single(turn.text)) || LosesAnchor(tail, budget - 1)))
  {
    var (k1, turn) := TakeTurn(w, k, pfd, owned, name);
    var tail := [turn.text] + Followed(w, k1, turn.p.fd, turn.p.owned, turn.p.name, budget - 1);
    assert ([prev] + tail)[1..] == tail;
  }

  lemma ChaseStep(w: World, k: Kernel, pfd: nat, owned: bool, name: string, budget: nat)
    requires budget > 0
    ensures var (k1, turn) := TakeTurn(w, k, pfd, owned, name);
      Chase(w, k, pfd, owned, name, budget)
        == if turn.Stop? then (k1, turn.p) else Chase(w, k1, turn.p.fd, turn.p.owned, turn.p.name, budget - 1)
  {
  }

  /** The loop is contained and conserving, unless it reads a link through a number it has closed and
      that another thread may have taken. */
  lemma {:induction false} ChaseSound(w: World, root: Node, base: map<nat, Desc>, k: Kernel,
                                      pfd: nat, owned: bool, name: string, budget: nat, prev: string)
    requires w.Valid() && name != ".." && Anchored(w, root, base, k, pfd, owned)
    requires owned <==> |Components(prev)| > 1
    requires Clear(w, [prev] + Followed(w, k, pfd, owned, name, budget), budget)
    ensures var (k', p) := Chase(w, k, pfd, owned, name, budget);
      FinalSound(w, root, base, k, k', p)
    decreases budget, 1
  {
    if budget == 0 {
      ChaseOver(w, root, base, k, pfd, owned, name);
    } else if TakeTurn(w, k, pfd, owned, name).1.Hop? {
      ChaseThroughHop(w, root, base, k, pfd, owned, name, budget, prev);
    } else {
      TurnSound(w, root, base, k, pfd, owned, name);
      var (k1, turn) := TakeTurn(w, k, pfd, owned, name);
      TurnThenRest(w, root, base, k, pfd, owned, name, budget, k1, turn);
    }
  }

  lemma {:induction false} ChaseThroughHop(w: World, root: Node, base: map<nat, Desc>, k: Kernel,
                                           pfd: nat, owned: bool, name: string, budget: nat, prev: string)
    requires w.Valid() && name != ".." && Anchored(w, root, base, k, pfd, owned)
    requires owned <==> |Components(prev)| > 1
    requires Clear(w, [prev] + Followed(w, k, pfd, owned, name, budget), budget)
    requires budget > 0 && TakeTurn(w, k, pfd, owned, name).1.Hop?
    ensures var (k', p) := Chase(w, k, pfd, owned, name, budget);
      FinalSound(w, root, base, k, k', p)
    decreases budget, 0
  {
    TurnSound(w, root, base, k, pfd, owned, name);
    var (k1, turn) := TakeTurn(w, k, pfd, owned, name);
    FollowedTail(w, k, pfd, owned, name, budget, prev);
    ChaseOn(w, root, base, k1, turn.p, budget - 1, turn.text);
    TurnThenRest(w, root, base, k, pfd, owned, name, budget, k1, turn);
  }

  /** A turn and then the rest of the loop. */
  lemma TurnThenRest(w: World, root: Node, base: map<nat, Desc>, k: Kernel, pfd: nat, owned: bool, name: string,
                     budget: nat, k1: Kernel, turn: Turn)
    requires budget > 0 && TakeTurn(w, k, pfd, owned, name) == (k1, turn) && HopHolds(w, root, base, k, k1, turn.p)
    requires turn.Stop? && turn.p.Parent? ==> Anchored(w, root, base, k1, turn.p.fd, turn.p.owned)
    requires turn.Hop? ==>
      var (k2, p) := Chase(w, k1, turn.p.fd, turn.p.owned, turn.p.name, budget - 1);
      FinalSound(w, root, base, k1, k2, p)
    ensures var (k', p) := Chase(w, k, pfd, owned, name, budget);
      FinalSound(w, root, base, k, k', p)
  {
    ChaseStep(w, k, pfd, owned, name, budget);
    if turn.Hop? {
      var (k2, p) := Chase(w, k1, turn.p.fd, turn.p.owned, turn.p.name, budget - 1);
      FinalJoins(w, root, base, k, k1, k2, p);
    }
  }

  /** The loop from what a hop left, a number that has been closed included. */
  lemma {:induction false} ChaseOn(w: World, root: Node, base: map<nat, Desc>, k: Kernel, p: Parented,
                                   budget: nat, text: string)
    requires w.Valid() && p.Parent? && p.name != ".." && (p.owned <==> |Components(text)| > 1)
    requires Anchored(w, root, base, k, p.fd, p.owned) || Lost(base, k, p.fd, p.owned)
    requires Lost(base, k, p.fd, p.owned) && budget > 0 ==> w.Alone()
    requires Clear(w, [text] + Followed(w, k, p.fd, p.owned, p.name, budget), budget)
    ensures var (k', p') := Chase(w, k, p.fd, p.owned, p.name, budget);
      FinalSound(w, root, base, k, k', p')
    decreases budget, 2
  {
    if budget == 0 {
      ChaseOver(w, root, base, k, p.fd, p.owned, p.name);
    } else if Lost(base, k, p.fd, p.owned) {
      ChaseLost(w, root, base, k, p.fd, p.name, budget);
    } else {
      ChaseSound(w, root, base, k, p.fd, p.owned, p.name, budget, text);
    }
  }

  lemma FinalJoins(w: World, root: Node, base: map<nat, Desc>, k: Kernel, k1: Kernel, k2: Kernel, p: Parented)
    requires ContainedSince(w, root, base.Keys, k, k1) && FinalSound(w, root, base, k1, k2, p)
    ensures FinalSound(w, root, base, k, k2, p)
  {
    ContainedJoins(w, root, base.Keys, k, k1, k2);
  }

  lemma ContainedJoins(w: World, root: Node, kept: set<nat>, a: Kernel, b: Kernel, c: Kernel)
    requires ContainedSince(w, root, kept, a, b) && ContainedSince(w, root, kept, b, c)
    ensures ContainedSince(w, root, kept, a, c)
  {
  }

  /** The path asked for, then the text of each link followed. */
  function Texts(w: World, k: Kernel, base: nat, path: string): seq<string> {
    var (k1, p) := WalkParent(w, k, base, path);
    [path] + if p.Parent? then Followed(w, k1, p.fd, p.owned, p.name, MAX_SYMLINKS) else []
  }

  /** Every call `resolve_final` makes is contained, and it neither leaks nor closes anybody's
      descriptor, under any interference, if no closed number is used that another thread may take. */
  lemma ResolveFinalSound(w: World, root: Node, k: Kernel, base: nat, path: string)
    requires w.Valid() && base in k.fds && (k.fds[base].DirDesc? ==> k.fds[base].dir == root)
    requires Clear(w, Texts(w, k, base, path), MAX_SYMLINKS)
    ensures var (k', p) := ResolveFinal(w, k, base, path);
      FinalSound(w, root, k.fds, k, k', p)
  {
    assert At(w, root, root, 0);
    WalkParentSound(w, root, k, base, path);
    var (k1, p) := WalkParent(w, k, base, path);
    SafeBelow(w, root, root, k.fds.Keys, k.fds.Keys, k, k1);
    if p.Parent? {
      ChaseSound(w, root, k.fds, k1, p.fd, p.owned, p.name, MAX_SYMLINKS, path);
      var (k2, _) := Chase(w, k1, p.fd, p.owned, p.name, MAX_SYMLINKS);
      ContainedJoins(w, root, k.fds.Keys, k, k1, k2);
    }
  }

  // ------------------------------------------------------------ a bound on the work

  lemma {:induction false} ChaseBounded(w: World, n: nat, k: Kernel, pfd: nat, owned: bool, name: string, budget: nat)
    requires TextsWithin(w, n)
    ensures Chase(w, k, pfd, owned, name, budget).0.calls <= k.calls + budget * (1 + MaxCalls(n, MAX_SYMLINKS))
    decreases budget
  {
    var c := 1 + MaxCalls(n, MAX_SYMLINKS);
    if budget > 0 {
      TurnBounded(w, n, k, pfd, owned, name);
      var (k1, turn) := TakeTurn(w, k, pfd, owned, name);
      assert budget * c == c + (budget - 1) * c;
      if turn.Hop? {
        ChaseBounded(w, n, k1, turn.p.fd, turn.p.owned, turn.p.name, budget - 1);
      } else {
        MulMonotone(0, budget - 1, c);
      }
    }
  }

  lemma TurnBounded(w: World, n: nat, k: Kernel, pfd: nat, owned: bool, name: string)
    requires TextsWithin(w, n)
    ensures TakeTurn(w, k, pfd, owned, name).0.calls <= k.calls + 1 + MaxCalls(n, MAX_SYMLINKS)
  {
    var (k1, t) := ReadLinkAt(w, k, pfd, name, 0);
    if t.Text? {
      WalkParentBounded(w, n, k1, pfd, t.text);
    }
  }

  /** `resolve_final` ends on every file system, within nine walks and eight reads of a link. */
  lemma ResolveFinalBounded(w: World, n: nat, k: Kernel, base: nat, path: string)
    requires TextsWithin(w, n) && |Components(path)| <= n
    ensures ResolveFinal(w, k, base, path).0.calls <= k.calls + 9 * MaxCalls(n, MAX_SYMLINKS) + MAX_SYMLINKS
  {
    WalkParentBounded(w, n, k, base, path);
    var (k1, p) := WalkParent(w, k, base, path);
    if p.Parent? {
      ChaseBounded(w, n, k1, p.fd, p.owned, p.name, MAX_SYMLINKS);
    }
  }

  // ------------------------------------------------------------ when the answer can be used

  lemma {:induction false} ChaseAnchor(w: World, root: Node, base: map<nat, Desc>, k: Kernel,
                                       pfd: nat, owned: bool, name: string, budget: nat, prev: string)
    requires w.Valid() && w.Alone() && name != ".." && Anchored(w, root, base, k, pfd, owned)
    requires owned <==> |Components(prev)| > 1
    ensures var (k', p) := Chase(w, k, pfd, owned, name, budget);
      var loses := LosesAnchor([prev] + Followed(w, k, pfd, owned, name, budget), budget);
      (p.Parent? ==> (p.fd in k'.fds <==> !loses)) && (loses ==> p.Parent?)
    decreases budget
  {
    if budget > 0 {
      TurnSound(w, root, base, k, pfd, owned, name);
      var (k1, turn) := TakeTurn(w, k, pfd, owned, name);
      if turn.Hop? {
        var p := turn.p;
        FollowedTail(w, k, pfd, owned, name, budget, prev);
        if Lost(base, k1, p.fd, p.owned) {
          ChaseLost(w, root, base, k1, p.fd, p.name, budget - 1);
        } else {
          ChaseAnchor(w, root, base, k1, p.fd, p.owned, p.name, budget - 1, turn.text);
        }
      }
    }
  }

  /** A parent is only ever found of a path that names something. */
  lemma ParentNames(w: World, k: Kernel, dirfd: nat, path: string)
    requires WalkParent(w, k, dirfd, path).1.Parent?
    ensures |Components(path)| > 0
  {
    RelativePathNames(path);
  }

  /** With no other thread, the descriptor answered is open exactly when no link followed was a bare
      name read from a directory this walk opened: that directory is closed, and answered, by line 454. */
  lemma ResolveFinalAnchor(w: World, root: Node, k: Kernel, base: nat, path: string)
    requires w.Valid() && w.Alone() && base in k.fds && (k.fds[base].DirDesc? ==> k.fds[base].dir == root)
    ensures var (k', p) := ResolveFinal(w, k, base, path);
      var loses := LosesAnchor(Texts(w, k, base, path), MAX_SYMLINKS);
      (p.Parent? ==> (p.fd in k'.fds <==> !loses)) && (loses ==> p.Parent?)
  {
    assert At(w, root, root, 0);
    WalkParentSound(w, root, k, base, path);
    var (k1, p) := WalkParent(w, k, base, path);
    if p.Parent? {
      ChaseAnchor(w, root, k.fds, k1, p.fd, p.owned, p.name, MAX_SYMLINKS, path);
    }
  }

  lemma {:induction false} ChaseEndsOffLinks(w: World, k: Kernel, pfd: nat, owned: bool, name: string, budget: nat)
    requires Still(w)
    ensures var (k', p) := Chase(w, k, pfd, owned, name, budget);
      p.Parent? && p.fd in k'.fds && k'.fds[p.fd].DirDesc? ==> !IsLink(w, k'.fds[p.fd].dir, p.name)
    decreases budget
  {
    if budget > 0 {
      assert w.table(k.clock) == w.table(0) && w.fault(k.clock) == NoFault;
      var (k1, turn) := TakeTurn(w, k, pfd, owned, name);
      if turn.Hop? {
        ChaseEndsOffLinks(w, k1, turn.p.fd, turn.p.owned, turn.p.name, budget - 1);
      }
    }
  }

  /** On a file system nobody changes, the name answered is never itself a link in the directory
      answered. */
  lemma ResolveFinalEndsOffLinks(w: World, k: Kernel, base: nat, path: string)
    requires Still(w)
    ensures var (k', p) := ResolveFinal(w, k, base, path);
      p.Parent? && p.fd in k'.fds && k'.fds[p.fd].DirDesc? ==> !IsLink(w, k'.fds[p.fd].dir, p.name)
  {
    var (k1, p) := WalkParent(w, k, base, path);
    if p.Parent? {
      ChaseEndsOffLinks(w, k1, p.fd, p.owned, p.name, MAX_SYMLINKS);
    }
  }
}
