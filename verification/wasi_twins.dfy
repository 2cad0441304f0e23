/**
 The same walk beside different threads.

 What other threads open and close decides the numbers a walk is handed, and
 nothing else: as long as every number it uses is one of its own, it opens the
 same directories, follows the same links and fails the same way.
 */
module WasiTwins {
  import opened WasiFinal
  import opened WasiKernel
  import opened WasiNumbers
  import opened WasiWalk

  ghost predicate SameButOthers(w: World, v: World) {
    v == w.(others := v.others)
  }

  /** Two numbers, each one of ours in its own process, that denote the same thing at the same time. */
  predicate Twin(k: Kernel, fd: nat, l: Kernel, gd: nat) {
    k.clock == l.clock && fd in k.fds && gd in l.fds && k.fds[fd] == l.fds[gd]
  }

  predicate SameWalked(k: Kernel, r: Walked, l: Kernel, s: Walked) {
    && k.clock == l.clock
    && (r.Failed? ==> s == r)
    && (r.Walked? ==> s.Walked? && s.depth == r.depth && Twin(k, r.fd, l, s.fd))
  }

  predicate SameParent(k: Kernel, p: Parented, l: Kernel, o: Parented) {
    && k.clock == l.clock
    && (p.NoParent? ==> o == p)
    && (p.Parent? ==> o.Parent? && o.owned == p.owned && o.name == p.name && Twin(k, p.fd, l, o.fd))
  }

  lemma OpenAtTwins(w: World, v: World, k: Kernel, cur: nat, l: Kernel, gd: nat, name: string, flags: Flags,
                    depth: nat)
    requires SameButOthers(w, v) && Twin(k, cur, l, gd)
    ensures var (k1, a) := OpenAt(w, k, cur, name, flags, depth);
      var (l1, b) := OpenAt(v, l, gd, name, flags, depth);
      && k1.clock == l1.clock
      && (a.OpenFailed? ==> b == a && Twin(k1, cur, l1, gd))
      && (a.Opened? ==> b.Opened? && Twin(k1, a.fd, l1, b.fd))
  {
  }

  lemma ReadLinkTwins(w: World, v: World, k: Kernel, cur: nat, l: Kernel, gd: nat, name: string, depth: nat)
    requires SameButOthers(w, v) && Twin(k, cur, l, gd)
    ensures var (k1, t) := ReadLinkAt(w, k, cur, name, depth);
      var (l1, u) := ReadLinkAt(v, l, gd, name, depth);
      u == t && Twin(k1, cur, l1, gd)
  {
  }

  lemma {:induction false} StepTwins(w: World, v: World, k: Kernel, cur: nat, l: Kernel, gd: nat, comp: string,
                                     flags: Flags, depth: nat, budget: nat, follow: bool)
    requires w.Valid() && v.Valid() && SameButOthers(w, v) && Twin(k, cur, l, gd)
    ensures var (k', r) := Step(w, k, cur, comp, flags, depth, budget, follow);
      var (l', s) := Step(v, l, gd, comp, flags, depth, budget, follow);
      SameWalked(k', r, l', s)
    decreases budget, 0, 0
  {
    if comp == "." {
      OpenAtTwins(w, v, k, cur, l, gd, ".", DIRECTORY, depth);
    } else if comp == ".." {
      OpenAtTwins(w, v, k, cur, l, gd, "..", DIRECTORY, depth);
    } else {
      OpenAtTwins(w, v, k, cur, l, gd, comp, flags, depth);
      var (k1, a) := OpenAt(w, k, cur, comp, flags, depth);
      var (l1, _) := OpenAt(v, l, gd, comp, flags, depth);
      if a.OpenFailed? && follow && budget > 0 {
        ReadLinkTwins(w, v, k1, cur, l1, gd, comp, depth);
        var (k2, t) := ReadLinkAt(w, k1, cur, comp, depth);
        var (l2, _) := ReadLinkAt(v, l1, gd, comp, depth);
        if t.Text? {
          WalkFromTwins(w, v, k2, cur, l2, gd, t.text, flags, depth, budget - 1, true);
        }
      }
    }
  }

  lemma {:induction false} WalkFromTwins(w: World, v: World, k: Kernel, cur: nat, l: Kernel, gd: nat, path: string,
                                         flags: Flags, depth: nat, budget: nat, follow: bool)
    requires w.Valid() && v.Valid() && SameButOthers(w, v) && Twin(k, cur, l, gd)
    ensures var (k', r) := WalkFrom(w, k, cur, path, flags, depth, budget, follow);
      var (l', s) := WalkFrom(v, l, gd, path, flags, depth, budget, follow);
      SameWalked(k', r, l', s)
    decreases budget, 2, 0
  {
    if path != "" && |path| <= MAX_TEXT && path[0] != '/' {
      WalkRestTwins(w, v, k, cur, l, gd, false, Components(path), flags, depth, budget, follow);
    }
  }

  /** What a step opened is not what it started from, so closing that leaves twins. */
  lemma CloseTwins(w: World, v: World, k: Kernel, cur: nat, l: Kernel, gd: nat, owned: bool, comp: string,
                   flags: Flags, depth: nat, budget: nat, follow: bool)
    requires w.Valid() && v.Valid() && cur in k.fds && gd in l.fds
    requires var (k1, r) := Step(w, k, cur, comp, flags, depth, budget, follow);
      var (l1, s) := Step(v, l, gd, comp, flags, depth, budget, follow);
      SameWalked(k1, r, l1, s)
    ensures var (k1, r) := Step(w, k, cur, comp, flags, depth, budget, follow);
      var (l1, s) := Step(v, l, gd, comp, flags, depth, budget, follow);
      SameWalked(CloseIf(k1, owned, cur), r, CloseIf(l1, owned, gd), s)
  {
    StepConserves(w, k, cur, comp, flags, depth, budget, follow);
    StepConserves(v, l, gd, comp, flags, depth, budget, follow);
  }

  lemma {:induction false} WalkRestTwins(w: World, v: World, k: Kernel, cur: nat, l: Kernel, gd: nat, owned: bool,
                                         comps: seq<string>, flags: Flags, depth: nat, budget: nat, follow: bool)
    requires w.Valid() && v.Valid() && SameButOthers(w, v) && Twin(k, cur, l, gd)
    ensures var (k', r) := WalkRest(w, k, cur, owned, comps, flags, depth, budget, follow);
      var (l', s) := WalkRest(v, l, gd, owned, comps, flags, depth, budget, follow);
      SameWalked(k', r, l', s)
    decreases budget, 1, |comps|
  {
    if comps != [] {
      var last := |comps| == 1;
      var f := if last then flags else DIRECTORY;
      var fo := if last then follow else true;
      StepTwins(w, v, k, cur, l, gd, comps[0], f, depth, budget, fo);
      CloseTwins(w, v, k, cur, l, gd, owned, comps[0], f, depth, budget, fo);
      WalkRestTurn(w, k, cur, owned, comps, flags, depth, budget, follow);
      WalkRestTurn(v, l, gd, owned, comps, flags, depth, budget, follow);
      var (k1, r) := Step(w, k, cur, comps[0], f, depth, budget, fo);
      var (l1, s) := Step(v, l, gd, comps[0], f, depth, budget, fo);
      if r.Walked? && !last {
        WalkRestTwins(w, v, CloseIf(k1, owned, cur), r.fd, CloseIf(l1, owned, gd), s.fd, true, comps[1..], flags,
                      r.depth, budget, follow);
      }
    }
  }

  lemma ParentOfTwins(w: World, v: World, k: Kernel, cur: nat, l: Kernel, gd: nat, comps: seq<string>)
    requires w.Valid() && v.Valid() && SameButOthers(w, v) && Twin(k, cur, l, gd)
    ensures var (k', p) := ParentOf(w, k, cur, false, comps, 0);
      var (l', o) := ParentOf(v, l, gd, false, comps, 0);
      SameParent(k', p, l', o)
  {
    if |comps| > 1 {
      var init := comps[..|comps| - 1];
      WalkRestTwins(w, v, k, cur, l, gd, false, init, DIRECTORY, 0, MAX_SYMLINKS, true);
      var (k1, r) := WalkRest(w, k, cur, false, init, DIRECTORY, 0, MAX_SYMLINKS, true);
      var (l1, s) := WalkRest(v, l, gd, false, init, DIRECTORY, 0, MAX_SYMLINKS, true);
      assert SameWalked(k1, r, l1, s);
    }
  }

  lemma ParentTwins(w: World, v: World, k: Kernel, cur: nat, l: Kernel, gd: nat, path: string)
    requires w.Valid() && v.Valid() && SameButOthers(w, v) && Twin(k, cur, l, gd)
    ensures var (k', p) := WalkParent(w, k, cur, path);
      var (l', o) := WalkParent(v, l, gd, path);
      SameParent(k', p, l', o)
  {
    ParentOfTwins(w, v, k, cur, l, gd, Components(path));
  }

  /** A turn of the loop ends or goes on alike; a number it goes on with is the twin's, unless it has been closed. */
  lemma TurnTwins(w: World, v: World, k: Kernel, pfd: nat, l: Kernel, gd: nat, owned: bool, name: string)
    requires w.Valid() && v.Valid() && SameButOthers(w, v) && Twin(k, pfd, l, gd)
    ensures var (k', turn) := TakeTurn(w, k, pfd, owned, name);
      var (l', other) := TakeTurn(v, l, gd, owned, name);
      && (turn.Stop? ==> other.Stop?)
      && (turn.Hop? ==>
            && other.Hop? && other.text == turn.text
            && other.p.owned == turn.p.owned && other.p.name == turn.p.name
            && |Components(turn.text)| > 0 && (turn.p.owned <==> |Components(turn.text)| > 1)
            && ((owned && !turn.p.owned) || Twin(k', turn.p.fd, l', other.p.fd)))
  {
    ReadLinkTwins(w, v, k, pfd, l, gd, name, 0);
    var (k1, t) := ReadLinkAt(w, k, pfd, name, 0);
    var (l1, _) := ReadLinkAt(v, l, gd, name, 0);
    if t.Text? && !(t.text != "" && t.text[0] == '/') {
      ParentTwins(w, v, k1, pfd, l1, gd, t.text);
      ParentConserves(w, k1, pfd, t.text);
      ParentConserves(v, l1, gd, t.text);
      if WalkParent(w, k1, pfd, t.text).1.Parent? { ParentNames(w, k1, pfd, t.text); }
    }
  }

  lemma {:induction false} FollowedTwins(w: World, v: World, k: Kernel, pfd: nat, l: Kernel, gd: nat, owned: bool,
                                         name: string, budget: nat, prev: string)
    requires w.Valid() && v.Valid() && SameButOthers(w, v) && Twin(k, pfd, l, gd)
    requires owned <==> |Components(prev)| > 1
    ensures LosesAnchor([prev] + Followed(w, k, pfd, owned, name, budget), budget)
         == LosesAnchor([prev] + Followed(v, l, gd, owned, name, budget), budget)
    decreases budget
  {
    if budget > 0 {
      TurnTwins(w, v, k, pfd, l, gd, owned, name);
      var (k1, turn) := TakeTurn(w, k, pfd, owned, name);
      var (l1, other) := TakeTurn(v, l, gd, owned, name);
      if turn.Hop? {
        FollowedTail(w, k, pfd, owned, name, budget, prev);
        FollowedTail(v, l, gd, owned, name, budget, prev);
        if !(owned && !turn.p.owned) {
          FollowedTwins(w, v, k1, turn.p.fd, l1, other.p.fd, turn.p.owned, turn.p.name, budget - 1, turn.text);
        }
      }
    }
  }

  /** Whether the anchor is lost does not depend on any other thread: until it is, only our own numbers are used. */
  lemma LosesAlike(w: World, v: World, k: Kernel, base: nat, l: Kernel, gd: nat, path: string)
    requires w.Valid() && v.Valid() && SameButOthers(w, v) && Twin(k, base, l, gd)
    ensures LosesAnchor(Texts(w, k, base, path), MAX_SYMLINKS) == LosesAnchor(Texts(v, l, gd, path), MAX_SYMLINKS)
  {
    ParentTwins(w, v, k, base, l, gd, path);
    var (k1, p) := WalkParent(w, k, base, path);
    var (l1, o) := WalkParent(v, l, gd, path);
    if p.Parent? {
      FollowedTwins(w, v, k1, p.fd, l1, o.fd, p.owned, p.name, MAX_SYMLINKS, path);
    }
  }
}
