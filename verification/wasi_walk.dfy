/**
 The capability path walk of the WASI file NIF, one component at a time.

 `Step` and `WalkFrom` are the walk as a function of the kernel state: mutually
 recursive, with a depth counter, a symlink budget that limits nesting, and
 descriptors that a walk either borrows from its caller or owns.
 */
module WasiWalk {
  import opened WasiKernel

  /** How deep links may nest inside links. */
  const MAX_SYMLINKS: nat := 8

  const DIRECTORY: Flags := Flags(true, false, false)

  datatype Walked = Walked(fd: nat, depth: nat) | Failed(e: Errno)

  function Step(w: World, k: Kernel, cur: nat, comp: string, flags: Flags,
                depth: nat, budget: nat, follow: bool): (r: (Kernel, Walked))
    decreases budget, 0, 0
  {
    if comp == "." then
      var (k1, a) := OpenAt(w, k, cur, ".", DIRECTORY, depth);
      (k1, if a.Opened? then Walked(a.fd, depth) else Failed(a.e))
    else if comp == ".." then
      if depth == 0 then (k, Failed(REFUSED))
      else
        var (k1, a) := OpenAt(w, k, cur, "..", DIRECTORY, depth);
        (k1, if a.Opened? then Walked(a.fd, depth - 1) else Failed(a.e))
    else
      var (k1, a) := OpenAt(w, k, cur, comp, flags, depth);
      if a.Opened? then (k1, Walked(a.fd, depth + 1))
      else if a.e != ELOOP && a.e != ENOTDIR && a.e != ENXIO then (k1, Failed(a.e))
      else if !follow || budget == 0 then (k1, Failed(ELOOP))
      else
        var (k2, t) := ReadLinkAt(w, k1, cur, comp, depth);
        if t.ReadFailed? then (k2, Failed(a.e))
        else if t.text != "" && t.text[0] == '/' then (k2, Failed(REFUSED))
        else WalkFrom(w, k2, cur, t.text, flags, depth, budget - 1, true)
  }

  function WalkFrom(w: World, k: Kernel, dirfd: nat, path: string, flags: Flags,
                    depth: nat, budget: nat, follow: bool): (r: (Kernel, Walked))
    decreases budget, 2, 0
  {
    if path == "" then (k, Failed(EINVAL))
    else if |path| > MAX_TEXT then (k, Failed(ENAMETOOLONG))
    else if path[0] == '/' then (k, Failed(REFUSED))
    else WalkRest(w, k, dirfd, false, Components(path), flags, depth, budget, follow)
  }

  /** The loop of `WalkFrom`, with `comps` still to walk. */
  function WalkRest(w: World, k: Kernel, cur: nat, owned: bool, comps: seq<string>, flags: Flags,
                    depth: nat, budget: nat, follow: bool): (r: (Kernel, Walked))
    decreases budget, 1, |comps|
  {
    if comps == [] then
      (k, if owned then Walked(cur, depth) else Failed(EINVAL))
    else
      var last := |comps| == 1;
      var (k1, r) := Step(w, k, cur, comps[0], if last then flags else DIRECTORY,
                          depth, budget, if last then follow else true);
      var k2 := CloseIf(k1, owned, cur);
      if r.Failed? then (k2, r)
      else WalkRest(w, k2, r.fd, true, comps[1..], flags, r.depth, budget, follow)
  }

  lemma NoneLeft(w: World, k: Kernel, r: Walked, flags: Flags, budget: nat, follow: bool)
    requires r.Walked?
    ensures WalkRest(w, k, r.fd, true, [], flags, r.depth, budget, follow) == (k, r)
  {
  }

  /** One turn of that loop: the last component has the flags asked for, the others are directories. */
  lemma WalkRestTurn(w: World, k: Kernel, cur: nat, owned: bool, comps: seq<string>, flags: Flags,
                     depth: nat, budget: nat, follow: bool)
    requires comps != []
    ensures var last := |comps| == 1;
      var (k1, r) := Step(w, k, cur, comps[0], if last then flags else DIRECTORY,
                          depth, budget, if last then follow else true);
      var k2 := CloseIf(k1, owned, cur);
      WalkRest(w, k, cur, owned, comps, flags, depth, budget, follow)
        == if r.Failed? || last then (k2, r)
           else WalkRest(w, k2, r.fd, true, comps[1..], flags, r.depth, budget, follow)
  {
    if |comps| == 1 {
      assert comps[1..] == [];
      var (k1, r) := Step(w, k, cur, comps[0], flags, depth, budget, follow);
      if r.Walked? { NoneLeft(w, CloseIf(k1, owned, cur), r, flags, budget, follow); }
    }
  }

  function WalkOpen(w: World, k: Kernel, dirfd: nat, path: string, flags: Flags, follow: bool)
    : (Kernel, Walked)
  {
    WalkFrom(w, k, dirfd, path, flags, 0, MAX_SYMLINKS, follow)
  }

  // ------------------------------------------------------------ containment and conservation

  /** A descriptor `depth` levels below the root; a file by way of the directory naming it. */
  ghost predicate Placed(w: World, root: Node, desc: Desc, depth: nat) {
    match desc
    case DirDesc(d) => At(w, root, d, depth)
    case FileDesc(_, via) => depth > 0 && At(w, root, via, depth - 1)
  }

  /** Where a walk may stand: at a known depth, or on a file, where every call fails. */
  ghost predicate Standing(w: World, root: Node, k: Kernel, fd: nat, depth: nat) {
    fd in k.fds && (k.fds[fd].DirDesc? ==> At(w, root, k.fds[fd].dir, depth))
  }

  /** Naming happens inside the root's subtree, at the depth the walk believes, and never climbs
      from the root; and no descriptor is closed that the caller had open or another thread holds. */
  ghost predicate Safe(w: World, root: Node, kept: set<nat>, e: Event) {
    match e
    case Looked(dir, name, depth, _) => At(w, root, dir, depth) && (name == ".." ==> depth > 0)
    case Acted(dir, name, _) => name != ".." && Under(w, root, dir)
    case ActedBoth(d1, n1, d2, n2, _) => n1 != ".." && n2 != ".." && Under(w, root, d1) && Under(w, root, d2)
    case Dropped(fd, ours) => ours && fd !in kept
  }

  ghost predicate SafeSince(w: World, root: Node, kept: set<nat>, k: Kernel, k': Kernel) {
    && k.log <= k'.log
    && forall i :: |k.log| <= i < |k'.log| ==> Safe(w, root, kept, k'.log[i])
  }

  /** From `base` descriptors: nothing changes on failure, one placed descriptor is added on success. */
  ghost predicate Sound(w: World, root: Node, base: map<nat, Desc>, k: Kernel, k': Kernel, r: Walked) {
    && SafeSince(w, root, base.Keys, k, k')
    && (r.Failed? ==> k'.fds == base)
    && (r.Walked? ==>
          && r.fd !in base
          && r.fd in k'.fds
          && k'.fds == base[r.fd := k'.fds[r.fd]]
          && Placed(w, root, k'.fds[r.fd], r.depth))
  }

  lemma OpenAtSound(w: World, root: Node, k: Kernel, cur: nat, name: string, flags: Flags, depth: nat)
    requires w.Valid() && Standing(w, root, k, cur, depth)
    requires name == ".." ==> depth > 0
    ensures var (k1, a) := OpenAt(w, k, cur, name, flags, depth);
      var d := if name == "." then depth else if name == ".." then depth - 1 else depth + 1;
      Sound(w, root, k.fds, k, k1, if a.Opened? then Walked(a.fd, d) else Failed(a.e))
  {
  }

  lemma ReadLinkAtSound(w: World, root: Node, k: Kernel, cur: nat, name: string, depth: nat)
    requires Standing(w, root, k, cur, depth)
    requires name != ".."
    ensures var (k1, _) := ReadLinkAt(w, k, cur, name, depth);
      k1.fds == k.fds && SafeSince(w, root, k.fds.Keys, k, k1)
  {
  }

  lemma SafeSinceJoins(w: World, root: Node, kept: set<nat>, a: Kernel, b: Kernel, c: Kernel)
    requires SafeSince(w, root, kept, a, b) && SafeSince(w, root, kept, b, c)
    ensures SafeSince(w, root, kept, a, c)
  {
  }

  lemma {:induction false} StepSound(w: World, root: Node, k: Kernel, cur: nat, comp: string, flags: Flags,
                                     depth: nat, budget: nat, follow: bool)
    requires w.Valid() && Standing(w, root, k, cur, depth)
    ensures var (k', r) := Step(w, k, cur, comp, flags, depth, budget, follow);
      Sound(w, root, k.fds, k, k', r)
    decreases budget, 0, 0
  {
    if comp == "." {
      OpenAtSound(w, root, k, cur, ".", DIRECTORY, depth);
    } else if comp == ".." {
      if depth > 0 {
        OpenAtSound(w, root, k, cur, "..", DIRECTORY, depth);
      }
    } else {
      OpenAtSound(w, root, k, cur, comp, flags, depth);
      var (k1, a) := OpenAt(w, k, cur, comp, flags, depth);
      if a.OpenFailed? && follow && budget > 0 {
        ReadLinkAtSound(w, root, k1, cur, comp, depth);
        var (k2, t) := ReadLinkAt(w, k1, cur, comp, depth);
        SafeSinceJoins(w, root, k.fds.Keys, k, k1, k2);
        if t.Text? {
          WalkFromSound(w, root, k2, cur, t.text, flags, depth, budget - 1, true);
          var (k3, r) := WalkFrom(w, k2, cur, t.text, flags, depth, budget - 1, true);
          SafeSinceJoins(w, root, k.fds.Keys, k, k2, k3);
        }
      }
    }
  }

  lemma {:induction false} WalkFromSound(w: World, root: Node, k: Kernel, dirfd: nat, path: string, flags: Flags,
                                         depth: nat, budget: nat, follow: bool)
    requires w.Valid() && Standing(w, root, k, dirfd, depth)
    ensures var (k', r) := WalkFrom(w, k, dirfd, path, flags, depth, budget, follow);
      Sound(w, root, k.fds, k, k', r)
    decreases budget, 2, 0
  {
    if path != "" && |path| <= MAX_TEXT && path[0] != '/' {
      WalkRestSound(w, root, k.fds, k, dirfd, false, Components(path), flags, depth, budget, follow);
    }
  }

  /** What a walk holds beyond what it started from: the directory it is in, if it opened it. */
  ghost predicate Held(base: map<nat, Desc>, k: Kernel, cur: nat, owned: bool) {
    if owned then cur in k.fds && cur !in base && k.fds == base[cur := k.fds[cur]] else k.fds == base
  }

  /** What a walk started from, given where it stands now. */
  ghost predicate Since(base: map<nat, Desc>, k: Kernel, cur: nat, owned: bool) {
    cur in k.fds && Held(base, k, cur, owned)
  }

  lemma {:induction false} WalkRestSound(w: World, root: Node, base: map<nat, Desc>, k: Kernel, cur: nat, owned: bool,
                                         comps: seq<string>, flags: Flags,
                                         depth: nat, budget: nat, follow: bool)
    requires w.Valid() && Standing(w, root, k, cur, depth) && Since(base, k, cur, owned)
    requires owned ==> Placed(w, root, k.fds[cur], depth)
    ensures var (k', r) := WalkRest(w, k, cur, owned, comps, flags, depth, budget, follow);
      Sound(w, root, base, k, k', r)
    decreases budget, 1, |comps|
  {
    if comps != [] {
      var last := |comps| == 1;
      var f := if last then flags else DIRECTORY;
      var fo := if last then follow else true;
      StepSound(w, root, k, cur, comps[0], f, depth, budget, fo);
      var (k1, r) := Step(w, k, cur, comps[0], f, depth, budget, fo);
      var k2 := CloseIf(k1, owned, cur);
      StepThenClose(w, root, base, k, k1, r, cur, owned);
      if r.Walked? {
        WalkRestSound(w, root, base, k2, r.fd, true, comps[1..], flags, r.depth, budget, follow);
        var (k3, _) := WalkRest(w, k2, r.fd, true, comps[1..], flags, r.depth, budget, follow);
        SafeSinceJoins(w, root, base.Keys, k, k2, k3);
      }
    }
  }

  lemma StepThenClose(w: World, root: Node, base: map<nat, Desc>, k: Kernel, k1: Kernel, r: Walked,
                      cur: nat, owned: bool)
    requires Since(base, k, cur, owned) && Sound(w, root, k.fds, k, k1, r)
    ensures Sound(w, root, base, k, CloseIf(k1, owned, cur), r)
  {
    var k2 := CloseIf(k1, owned, cur);
    if owned {
      assert base[cur := k.fds[cur]] - {cur} == base;
      if r.Walked? {
        assert k2.fds == base[r.fd := k1.fds[r.fd]];
      }
    }
  }

  /** The walk a guest path starts: contained at every call, exact in depth, and leaking nothing. */
  lemma WalkOpenSound(w: World, root: Node, k: Kernel, dirfd: nat, path: string, flags: Flags, follow: bool)
    requires w.Valid() && dirfd in k.fds && (k.fds[dirfd].DirDesc? ==> k.fds[dirfd].dir == root)
    ensures var (k', r) := WalkOpen(w, k, dirfd, path, flags, follow);
      Sound(w, root, k.fds, k, k', r) && k'.fds[dirfd] == k.fds[dirfd]
  {
    WalkFromSound(w, root, k, dirfd, path, flags, 0, MAX_SYMLINKS, follow);
    var (k', r) := WalkOpen(w, k, dirfd, path, flags, follow);
    assert dirfd in k'.fds && k'.fds[dirfd] == k.fds[dirfd];
  }

  // ------------------------------------------------------------ a bound on the work

  /** openat and readlinkat calls of a walk whose texts have at most `n` components. */
  function MaxCalls(n: nat, budget: nat): nat {
    if budget == 0 then n else n * (2 + MaxCalls(n, budget - 1))
  }

  function StepCalls(n: nat, budget: nat): nat {
    if budget == 0 then 1 else 2 + MaxCalls(n, budget - 1)
  }

  /** No link text, as readlinkat delivers it, has more than `n` components. */
  ghost predicate TextsWithin(w: World, n: nat) {
    forall t, key :: key in w.table(t) && w.table(t)[key].ELink? ==>
      |Components(Cut(w.table(t)[key].text))| <= n
  }

  lemma {:induction false} StepBounded(w: World, n: nat, k: Kernel, cur: nat, comp: string, flags: Flags,
                                       depth: nat, budget: nat, follow: bool)
    requires TextsWithin(w, n)
    ensures Step(w, k, cur, comp, flags, depth, budget, follow).0.calls <= k.calls + StepCalls(n, budget)
    decreases budget, 0, 0
  {
    if comp != "." && comp != ".." && budget > 0 {
      var (k1, a) := OpenAt(w, k, cur, comp, flags, depth);
      var (k2, t) := ReadLinkAt(w, k1, cur, comp, depth);
      if t.Text? && a.OpenFailed? {
        WalkFromBounded(w, n, k2, cur, t.text, flags, depth, budget - 1, true);
      }
    }
  }

  lemma {:induction false} WalkFromBounded(w: World, n: nat, k: Kernel, dirfd: nat, path: string, flags: Flags,
                                           depth: nat, budget: nat, follow: bool)
    requires TextsWithin(w, n) && |Components(path)| <= n
    ensures WalkFrom(w, k, dirfd, path, flags, depth, budget, follow).0.calls <= k.calls + MaxCalls(n, budget)
    decreases budget, 2, 0
  {
    if path != "" && |path| <= MAX_TEXT && path[0] != '/' {
      var comps := Components(path);
      WalkRestBounded(w, n, k, dirfd, false, comps, flags, depth, budget, follow);
      MulMonotone(|comps|, n, StepCalls(n, budget));
    }
  }

  lemma {:induction false} WalkRestBounded(w: World, n: nat, k: Kernel, cur: nat, owned: bool, comps: seq<string>,
                                           flags: Flags, depth: nat, budget: nat, follow: bool)
    requires TextsWithin(w, n)
    ensures WalkRest(w, k, cur, owned, comps, flags, depth, budget, follow).0.calls
         <= k.calls + |comps| * StepCalls(n, budget)
    decreases budget, 1, |comps|
  {
    if comps != [] {
      var last := |comps| == 1;
      var f := if last then flags else DIRECTORY;
      var fo := if last then follow else true;
      StepBounded(w, n, k, cur, comps[0], f, depth, budget, fo);
      var (k1, r) := Step(w, k, cur, comps[0], f, depth, budget, fo);
      OneAndTheRest(|comps|, StepCalls(n, budget));
      WalkRestTurn(w, k, cur, owned, comps, flags, depth, budget, follow);
      if r.Walked? && !last {
        WalkRestBounded(w, n, CloseIf(k1, owned, cur), r.fd, true, comps[1..], flags, r.depth, budget, follow);
      }
    }
  }

  lemma OneAndTheRest(n: nat, c: nat)
    requires n > 0
    ensures n * c == c + (n - 1) * c && (n - 1) * c >= 0
  {
  }

  lemma MulMonotone(a: nat, b: nat, c: nat)
    requires a <= b
    ensures a * c <= b * c
  {
  }

  /** Every walk ends, on every file system, cyclic links included, within this many calls. */
  lemma WalkOpenBounded(w: World, n: nat, k: Kernel, dirfd: nat, path: string, flags: Flags, follow: bool)
    requires TextsWithin(w, n) && |Components(path)| <= n
    ensures WalkOpen(w, k, dirfd, path, flags, follow).0.calls <= k.calls + MaxCalls(n, MAX_SYMLINKS)
  {
    WalkFromBounded(w, n, k, dirfd, path, flags, 0, MAX_SYMLINKS, follow);
  }

  /** The buffers alone bound the component count, so the bound needs no assumption at all. */
  lemma WalkOpenAlwaysBounded(w: World, k: Kernel, dirfd: nat, path: string, flags: Flags, follow: bool)
    ensures WalkOpen(w, k, dirfd, path, flags, follow).0.calls
         <= k.calls + MaxCalls((MAX_TEXT + 1) / 2, MAX_SYMLINKS)
  {
    var n: nat := (MAX_TEXT + 1) / 2;
    forall t, key | key in w.table(t) && w.table(t)[key].ELink?
      ensures |Components(Cut(w.table(t)[key].text))| <= n
    {
      ComponentCount(Cut(w.table(t)[key].text), "");
    }
    if |path| <= MAX_TEXT {
      ComponentCount(path, "");
      WalkOpenBounded(w, n, k, dirfd, path, flags, follow);
    }
  }

  // ------------------------------------------------------------ stopping one short

  datatype Parented = Parent(fd: nat, owned: bool, name: string) | NoParent(e: Errno)

  /** The directory holding the last component, and that component unopened. */
  function WalkParent(w: World, k: Kernel, dirfd: nat, path: string): (Kernel, Parented) {
    if path == "" then (k, NoParent(EINVAL))
    else if |path| > MAX_TEXT then (k, NoParent(ENAMETOOLONG))
    else if path[0] == '/' then (k, NoParent(REFUSED))
    else ParentOf(w, k, dirfd, false, Components(path), 0)
  }

  function ParentOf(w: World, k: Kernel, cur: nat, owned: bool, comps: seq<string>, depth: nat)
    : (Kernel, Parented)
  {
    var last := if comps == [] then "." else comps[|comps| - 1];
    var (k1, r) := if |comps| <= 1 then (k, Walked(cur, depth))
                   else WalkRest(w, k, cur, owned, comps[..|comps| - 1], DIRECTORY, depth, MAX_SYMLINKS, true);
    var own := owned || |comps| > 1;
    if r.Failed? then (k1, NoParent(r.e))
    else if last == ".." then (CloseIf(k1, own, r.fd), NoParent(REFUSED))
    else (k1, Parent(r.fd, own, last))
  }

  /** The walk to a parent takes one component at a time, like any other walk. */
  lemma ParentOfUnrolls(w: World, k: Kernel, cur: nat, owned: bool, comps: seq<string>, depth: nat)
    requires |comps| > 1
    ensures var (k1, r) := Step(w, k, cur, comps[0], DIRECTORY, depth, MAX_SYMLINKS, true);
      var k2 := CloseIf(k1, owned, cur);
      ParentOf(w, k, cur, owned, comps, depth)
        == if r.Failed? then (k2, NoParent(r.e)) else ParentOf(w, k2, r.fd, true, comps[1..], r.depth)
  {
    var init := comps[..|comps| - 1];
    assert init[0] == comps[0] && init[1..] == comps[1..][..|comps| - 2];
  }

  /** From `base` descriptors: nothing changes on failure; on success an owned directory is added,
      a borrowed one was the caller's, and the name is never `..`. */
  ghost predicate ParentSound(w: World, root: Node, base: map<nat, Desc>, from: nat, k: Kernel, k': Kernel,
                              p: Parented) {
    && SafeSince(w, root, base.Keys, k, k')
    && (p.NoParent? ==> k'.fds == base)
    && (p.Parent? ==>
          && p.name != ".."
          && Since(base, k', p.fd, p.owned)
          && (!p.owned ==> p.fd == from)
          && (k'.fds[p.fd].DirDesc? ==> Under(w, root, k'.fds[p.fd].dir)))
  }

  lemma WalkParentSound(w: World, root: Node, k: Kernel, dirfd: nat, path: string)
    requires w.Valid() && Standing(w, root, k, dirfd, 0)
    ensures var (k', p) := WalkParent(w, k, dirfd, path);
      && ParentSound(w, root, k.fds, dirfd, k, k', p)
      && (p.Parent? ==> (p.owned <==> |Components(path)| > 1))
  {
    if path != "" && |path| <= MAX_TEXT && path[0] != '/' {
      var comps := Components(path);
      if |comps| > 1 {
        var init := comps[..|comps| - 1];
        WalkRestSound(w, root, k.fds, k, dirfd, false, init, DIRECTORY, 0, MAX_SYMLINKS, true);
        var (k1, r) := WalkRest(w, k, dirfd, false, init, DIRECTORY, 0, MAX_SYMLINKS, true);
        if r.Walked? {
          assert (k.fds[r.fd := k1.fds[r.fd]]) - {r.fd} == k.fds;
        }
      } else if k.fds[dirfd].DirDesc? {
        assert Under(w, root, k.fds[dirfd].dir);
      }
    }
  }

  /** The walk to a parent costs no more calls than a walk of the same path. */
  lemma WalkParentBounded(w: World, n: nat, k: Kernel, dirfd: nat, path: string)
    requires TextsWithin(w, n) && |Components(path)| <= n
    ensures WalkParent(w, k, dirfd, path).0.calls <= k.calls + MaxCalls(n, MAX_SYMLINKS)
  {
    var comps := Components(path);
    if |comps| > 1 {
      WalkRestBounded(w, n, k, dirfd, false, comps[..|comps| - 1], DIRECTORY, 0, MAX_SYMLINKS, true);
      MulMonotone(|comps| - 1, n, StepCalls(n, MAX_SYMLINKS));
    } else {
      MulMonotone(0, n, StepCalls(n, MAX_SYMLINKS));
    }
  }
}
