/**
 Whose error a walk answers.

 What the host says of a name reaches the guest as the host said it, and a
 refusal by the walk is never the host's: under any interference.
 */
module WasiErrors {
  import opened WasiKernel
  import opened WasiWalk

  /** Errors of openat that may mean a link, after which the walk looks further. */
  predicate Soft(e: Errno) { e in {ELOOP, ENOTDIR, ENXIO} }

  /** What a walk can answer of itself, whatever the host said. */
  predicate Own(e: Errno) { e in {EINVAL, ENAMETOOLONG, REFUSED, ELOOP} }

  predicate Hard(e: Event) { e.Looked? && e.answer.Said? && !Soft(e.answer.e) }

  /** A hard error of the host ends the walk with that error, and any error the walk answers that is not its own,
      and does not come of a descriptor that is closed or no directory, is the last thing the host said. */
  ghost predicate Tells(k: Kernel, k': Kernel, r: Walked) {
    && k.log <= k'.log
    && (forall i :: |k.log| <= i < |k'.log| && Hard(k'.log[i]) ==> r == Failed(k'.log[i].answer.e))
    && (r.Failed? && !Own(r.e) && !Soft(r.e) && r.e != EBADF ==>
          exists i :: |k.log| <= i < |k'.log| && Hard(k'.log[i]) && k'.log[i].answer.e == r.e)
  }

  /** Nothing hard was said. */
  ghost predicate Quiet(k: Kernel, k': Kernel) {
    k.log <= k'.log && forall i :: |k.log| <= i < |k'.log| ==> !Hard(k'.log[i])
  }

  lemma OpenTells(w: World, k: Kernel, cur: nat, name: string, flags: Flags, depth: nat)
    ensures var (k1, a) := OpenAt(w, k, cur, name, flags, depth);
      && Tells(k, k1, if a.Opened? then Walked(a.fd, depth) else Failed(a.e))
      && (a.Opened? || Soft(a.e) ==> Quiet(k, k1))
  {
    var (k1, a) := OpenAt(w, k, cur, name, flags, depth);
    if a.OpenFailed? && k1.log != k.log { assert k1.log[|k.log|].answer == Said(a.e); }
  }

  lemma QuietJoins(k: Kernel, k1: Kernel, k2: Kernel, r: Walked)
    requires Quiet(k, k1) && Tells(k1, k2, r)
    ensures Tells(k, k2, r)
  {
  }

  lemma OpenedIsQuiet(k: Kernel, k1: Kernel, r: Walked)
    requires Tells(k, k1, r) && r.Walked?
    ensures Quiet(k, k1)
  {
  }

  lemma {:induction false} StepTells(w: World, k: Kernel, cur: nat, comp: string, flags: Flags,
                                     depth: nat, budget: nat, follow: bool)
    ensures var (k', r) := Step(w, k, cur, comp, flags, depth, budget, follow);
      Tells(k, k', r)
    decreases budget, 0, 0
  {
    if comp == "." {
      OpenTells(w, k, cur, ".", DIRECTORY, depth);
    } else if comp == ".." {
      OpenTells(w, k, cur, "..", DIRECTORY, depth);
    } else {
      OpenTells(w, k, cur, comp, flags, depth);
      var (k1, a) := OpenAt(w, k, cur, comp, flags, depth);
      if a.OpenFailed? && Soft(a.e) && follow && budget > 0 {
        var (k2, t) := ReadLinkAt(w, k1, cur, comp, depth);
        assert Quiet(k, k2);
        if t.Text? {
          WalkFromTells(w, k2, cur, t.text, flags, depth, budget - 1, true);
          var (k3, r) := WalkFrom(w, k2, cur, t.text, flags, depth, budget - 1, true);
          QuietJoins(k, k2, k3, r);
        }
      }
    }
  }

  /** So of a whole text, at any nesting of links. */
  lemma {:induction false} WalkFromTells(w: World, k: Kernel, dirfd: nat, path: string, flags: Flags,
                                         depth: nat, budget: nat, follow: bool)
    ensures var (k', r) := WalkFrom(w, k, dirfd, path, flags, depth, budget, follow);
      Tells(k, k', r)
    decreases budget, 2, 0
  {
    if path != "" && |path| <= MAX_TEXT && path[0] != '/' {
      WalkRestTells(w, k, dirfd, false, Components(path), flags, depth, budget, follow);
    }
  }

  lemma CloseTells(k: Kernel, k1: Kernel, r: Walked, owned: bool, cur: nat)
    requires Tells(k, k1, r)
    ensures Tells(k, CloseIf(k1, owned, cur), r)
  {
    var k2 := CloseIf(k1, owned, cur);
    assert forall i :: |k.log| <= i < |k1.log| ==> k2.log[i] == k1.log[i];
  }

  lemma {:induction false} WalkRestTells(w: World, k: Kernel, cur: nat, owned: bool, comps: seq<string>,
                                         flags: Flags, depth: nat, budget: nat, follow: bool)
    ensures var (k', r) := WalkRest(w, k, cur, owned, comps, flags, depth, budget, follow);
      Tells(k, k', r)
    decreases budget, 1, |comps|
  {
    if comps != [] {
      var last := |comps| == 1;
      var f := if last then flags else DIRECTORY;
      var fo := if last then follow else true;
      StepTells(w, k, cur, comps[0], f, depth, budget, fo);
      var (k1, r) := Step(w, k, cur, comps[0], f, depth, budget, fo);
      var k2 := CloseIf(k1, owned, cur);
      CloseTells(k, k1, r, owned, cur);
      if r.Walked? {
        OpenedIsQuiet(k, k2, r);
        WalkRestTells(w, k2, r.fd, true, comps[1..], flags, r.depth, budget, follow);
        var (k3, r3) := WalkRest(w, k2, r.fd, true, comps[1..], flags, r.depth, budget, follow);
        QuietJoins(k, k2, k3, r3);
      }
    }
  }

  function AsWalked(p: Parented): Walked {
    if p.NoParent? then Failed(p.e) else Walked(p.fd, 0)
  }

  /** And so of the walk that stops at a parent. */
  lemma WalkParentTells(w: World, k: Kernel, dirfd: nat, path: string)
    ensures var (k', p) := WalkParent(w, k, dirfd, path);
      Tells(k, k', AsWalked(p))
  {
    var comps := Components(path);
    if path != "" && |path| <= MAX_TEXT && path[0] != '/' && |comps| > 1 {
      var init := comps[..|comps| - 1];
      WalkRestTells(w, k, dirfd, false, init, DIRECTORY, 0, MAX_SYMLINKS, true);
      var (k1, r) := WalkRest(w, k, dirfd, false, init, DIRECTORY, 0, MAX_SYMLINKS, true);
      if r.Walked? {
        CloseTells(k, k1, r, true, r.fd);
        OpenedIsQuiet(k, k1, r);
        OpenedIsQuiet(k, CloseIf(k1, true, r.fd), r);
      }
    }
  }
}
