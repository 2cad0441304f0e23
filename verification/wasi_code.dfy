/**
 The walk as the NIF runs it: loops over one kernel whose descriptor table they
 change, descriptors closed by hand on every path out.
 */
module WasiCode {
  import opened WasiKernel
  import F = WasiFinal
  import N = WasiNumbers
  import Rename = WasiRename
  import R = WasiReuse
  import W = WasiWalk

  /** The process's kernel: its open descriptors, and the environment around it. */
  class Host {
    const w: World
    var clock: nat
    var calls: nat
    var fds: map<nat, Desc>
    var log: seq<Event>

    constructor (w: World)
      ensures this.w == w && fds == map[] && log == []
    {
      this.w := w;
      clock, calls, fds, log := 0, 0, map[], [];
    }

    function State(): Kernel
      reads this
    {
      Kernel(clock, calls, fds, log)
    }

    method Become(k: Kernel)
      modifies this
      ensures State() == k
    {
      clock, calls, fds, log := k.clock, k.calls, k.fds, k.log;
    }

    method OpenAt(fd: nat, name: string, flags: Flags, depth: nat) returns (a: Opening)
      modifies this
      ensures (State(), a) == WasiKernel.OpenAt(w, old(State()), fd, name, flags, depth)
    {
      var (k, r) := WasiKernel.OpenAt(w, State(), fd, name, flags, depth);
      Become(k);
      a := r;
    }

    method ReadLinkAt(fd: nat, name: string, depth: nat) returns (t: Reading)
      modifies this
      ensures (State(), t) == WasiKernel.ReadLinkAt(w, old(State()), fd, name, depth)
    {
      var (k, r) := WasiKernel.ReadLinkAt(w, State(), fd, name, depth);
      Become(k);
      t := r;
    }

    method Dup(fd: nat) returns (a: Opening)
      modifies this
      ensures (State(), a) == WasiKernel.Dup(w, old(State()), fd)
    {
      var (k, r) := WasiKernel.Dup(w, State(), fd);
      Become(k);
      a := r;
    }

    method ActAt(fd: nat, name: string) returns (f: Fault)
      modifies this
      ensures (State(), f) == WasiKernel.ActAt(w, old(State()), fd, name)
    {
      var (k, r) := WasiKernel.ActAt(w, State(), fd, name);
      Become(k);
      f := r;
    }

    method ActAtBoth(fd1: nat, name1: string, fd2: nat, name2: string) returns (f: Fault)
      modifies this
      ensures (State(), f) == WasiKernel.ActAtBoth(w, old(State()), fd1, name1, fd2, name2)
    {
      var (k, r) := WasiKernel.ActAtBoth(w, State(), fd1, name1, fd2, name2);
      Become(k);
      f := r;
    }

    method Close(fd: nat)
      modifies this
      ensures State() == WasiKernel.Close(old(State()), fd)
    {
      Become(WasiKernel.Close(State(), fd));
    }
  }

  method Step(h: Host, cur: nat, comp: string, flags: Flags, depth: nat, budget: nat, mayFollow: bool)
    returns (r: W.Walked)
    modifies h
    ensures (h.State(), r) == W.Step(h.w, old(h.State()), cur, comp, flags, depth, budget, mayFollow)
    decreases budget, 0
  {
    if comp == "." {
      var a := h.OpenAt(cur, ".", W.DIRECTORY, depth);
      if a.OpenFailed? { return W.Failed(a.e); }
      return W.Walked(a.fd, depth);
    }
    if comp == ".." {
      if depth == 0 { return W.Failed(REFUSED); }
      var a := h.OpenAt(cur, "..", W.DIRECTORY, depth);
      if a.OpenFailed? { return W.Failed(a.e); }
      return W.Walked(a.fd, depth - 1);
    }
    var a := h.OpenAt(cur, comp, flags, depth);
    if a.Opened? { return W.Walked(a.fd, depth + 1); }
    if a.e != ELOOP && a.e != ENOTDIR && a.e != ENXIO { return W.Failed(a.e); }
    if !mayFollow { return W.Failed(ELOOP); }
    if budget == 0 { return W.Failed(ELOOP); }
    var t := h.ReadLinkAt(cur, comp, depth);
    if t.ReadFailed? { return W.Failed(a.e); }
    if t.text != "" && t.text[0] == '/' { return W.Failed(REFUSED); }
    r := WalkFrom(h, cur, t.text, flags, depth, budget - 1, true);
  }

  method WalkFrom(h: Host, dirfd: nat, path: string, flags: Flags, depth: nat, budget: nat, followFinal: bool)
    returns (r: W.Walked)
    modifies h
    ensures (h.State(), r) == W.WalkFrom(h.w, old(h.State()), dirfd, path, flags, depth, budget, followFinal)
    decreases budget, 1
  {
    if path == "" { return W.Failed(EINVAL); }
    if |path| > MAX_TEXT { return W.Failed(ENAMETOOLONG); }
    if path[0] == '/' { return W.Failed(REFUSED); }
    var comps := Components(path);
    var cur, owned, d, i := dirfd, false, depth, 0;
    while i < |comps|
      invariant 0 <= i <= |comps|
      invariant W.WalkRest(h.w, h.State(), cur, owned, comps[i..], flags, d, budget, followFinal)
             == W.WalkFrom(h.w, old(h.State()), dirfd, path, flags, depth, budget, followFinal)
    {
      var last := i + 1 == |comps|;
      assert comps[i..][0] == comps[i] && comps[i..][1..] == comps[i + 1..];
      var s := Step(h, cur, comps[i], if last then flags else W.DIRECTORY, d, budget,
                    if last then followFinal else true);
      if owned { h.Close(cur); }
      if s.Failed? { return s; }
      cur, owned, d, i := s.fd, true, s.depth, i + 1;
    }
    if !owned { return W.Failed(EINVAL); }
    r := W.Walked(cur, d);
  }

  /** A guest path, walked from its preopen: the caller gains one contained descriptor or nothing,
      and the walk costs a bounded number of calls, whatever the environment does meanwhile. */
  method WalkOpen(h: Host, dirfd: nat, path: string, flags: Flags, followFinal: bool, ghost root: Node)
    returns (r: W.Walked)
    requires h.w.Valid() && dirfd in h.fds && (h.fds[dirfd].DirDesc? ==> h.fds[dirfd].dir == root)
    modifies h
    ensures (h.State(), r) == W.WalkOpen(h.w, old(h.State()), dirfd, path, flags, followFinal)
    ensures W.SafeSince(h.w, root, old(h.fds).Keys, old(h.State()), h.State())
    ensures r.Failed? ==> h.fds == old(h.fds)
    ensures r.Walked? ==> r.fd !in old(h.fds) && r.fd in h.fds && h.fds == old(h.fds)[r.fd := h.fds[r.fd]]
    ensures r.Walked? ==> W.Placed(h.w, root, h.fds[r.fd], r.depth)
    ensures h.calls <= old(h.calls) + W.MaxCalls((MAX_TEXT + 1) / 2, W.MAX_SYMLINKS)
  {
    W.WalkOpenSound(h.w, root, h.State(), dirfd, path, flags, followFinal);
    W.WalkOpenAlwaysBounded(h.w, h.State(), dirfd, path, flags, followFinal);
    r := WalkFrom(h, dirfd, path, flags, 0, W.MAX_SYMLINKS, followFinal);
  }

  method WalkParent(h: Host, dirfd: nat, path: string) returns (p: W.Parented)
    modifies h
    ensures (h.State(), p) == W.WalkParent(h.w, old(h.State()), dirfd, path)
  {
    if path == "" { return W.NoParent(EINVAL); }
    if |path| > MAX_TEXT { return W.NoParent(ENAMETOOLONG); }
    if path[0] == '/' { return W.NoParent(REFUSED); }
    var comps := Components(path);
    RelativePathNames(path);
    var cur, owned, d, i := dirfd, false, 0, 0;
    ghost var all := W.ParentOf(h.w, h.State(), dirfd, false, comps, 0);
    while i + 1 < |comps|
      invariant 0 <= i < |comps|
      invariant W.ParentOf(h.w, h.State(), cur, owned, comps[i..], d) == all
    {
      W.ParentOfUnrolls(h.w, h.State(), cur, owned, comps[i..], d);
      assert comps[i..][0] == comps[i] && comps[i..][1..] == comps[i + 1..];
      var s := Step(h, cur, comps[i], W.DIRECTORY, d, W.MAX_SYMLINKS, true);
      if owned { h.Close(cur); }
      if s.Failed? { return W.NoParent(s.e); }
      cur, owned, d, i := s.fd, true, s.depth, i + 1;
    }
    assert |comps[i..]| == 1;
    var last := comps[|comps| - 1];
    if last == ".." {
      if owned { h.Close(cur); }
      return W.NoParent(REFUSED);
    }
    p := W.Parent(cur, owned, last);
  }

  method ResolveFinal(h: Host, base: nat, path: string) returns (p: W.Parented)
    modifies h
    ensures (h.State(), p) == F.ResolveFinal(h.w, old(h.State()), base, path)
  {
    p := WalkParent(h, base, path);
    if p.NoParent? { return; }
    var pfd, owned, name, budget := p.fd, p.owned, p.name, W.MAX_SYMLINKS;
    ghost var all := F.Chase(h.w, h.State(), pfd, owned, name, budget);
    while budget > 0
      invariant F.Chase(h.w, h.State(), pfd, owned, name, budget) == all
    {
      var t := h.ReadLinkAt(pfd, name, 0);
      if t.ReadFailed? { return W.Parent(pfd, owned, name); }
      if t.text != "" && t.text[0] == '/' {
        if owned { h.Close(pfd); }
        return W.NoParent(REFUSED);
      }
      p := WalkParent(h, pfd, t.text);
      if owned { h.Close(pfd); }
      if p.NoParent? { return; }
      pfd, owned, name, budget := p.fd, p.owned, p.name, budget - 1;
    }
    if owned { h.Close(pfd); }
    p := W.NoParent(ELOOP);
  }

  // ------------------------------------------------------------ operations on names

  /** Act on one name: `path_op` past its path. The open set is restored on every way out, and nothing
      else is closed, whatever other threads do; and all of it is contained unless a closed number is used. */
  method PathOp(h: Host, dir: nat, path: string, op: R.Op, ghost root: Node) returns (r: R.Outcome)
    requires h.w.Valid()
    requires dir in h.fds && (h.fds[dir].DirDesc? ==> h.fds[dir].dir == root)
    modifies h
    ensures h.State() == R.PathOp(h.w, old(h.State()), dir, path, op).0
    ensures r == R.PathOp(h.w, old(h.State()), dir, path, op).1
    ensures h.fds == old(h.fds) && N.OnlyOurs(old(h.fds).Keys, old(h.State()), h.State())
    ensures h.w.Alone() || !R.OpLoses(h.w, old(h.State()), dir, path, op) ==>
      F.ContainedSince(h.w, root, old(h.fds).Keys, old(h.State()), h.State())
  {
    ghost var k := h.State();
    R.PathOpConserves(h.w, k, dir, path, op);
    if h.w.Alone() || !R.OpLoses(h.w, k, dir, path, op) {
      R.PathOpContained(h.w, root, k, dir, path, op);
    }
    if |path| > MAX_TEXT || op.argSize > MAX_TEXT { return R.Refusal(ENAMETOOLONG); }
    var d := h.Dup(dir);
    if d.OpenFailed? { return R.Refusal(d.e); }
    r := ActOn(h, d.fd, path, op);
    h.Close(d.fd);
  }

  /** The part of `path_op` between taking its copy of the directory and closing it. */
  method ActOn(h: Host, base: nat, path: string, op: R.Op) returns (r: R.Outcome)
    modifies h
    ensures h.State() == R.Acting(h.w, old(h.State()), base, path, op).0
    ensures r == R.Acting(h.w, old(h.State()), base, path, op).1
  {
    var p;
    if op.follow {
      p := ResolveFinal(h, base, path);
    } else {
      p := WalkParent(h, base, path);
    }
    if p.NoParent? { return R.Refusal(p.e); }
    if !op.known {
      if p.owned { h.Close(p.fd); }
      return R.BadArg;
    }
    var f := h.ActAt(p.fd, p.name);
    if p.owned { h.Close(p.fd); }
    r := R.OutcomeOf(f);
  }

  /** Rename and link name two places, each resolved against its own preopen. Every way out
      restores the open set, and every name looked up or acted on is inside one of the two preopens. */
  method PathOp2(h: Host, dir1: nat, path1: string, dir2: nat, path2: string, known: bool,
                 ghost r1: Node, ghost r2: Node)
    returns (r: R.Outcome)
    requires h.w.Valid()
    requires dir1 in h.fds && (h.fds[dir1].DirDesc? ==> h.fds[dir1].dir == r1)
    requires dir2 in h.fds && (h.fds[dir2].DirDesc? ==> h.fds[dir2].dir == r2)
    modifies h
    ensures h.State() == Rename.PathOp2(h.w, old(h.State()), dir1, path1, dir2, path2, known).0
    ensures r == Rename.PathOp2(h.w, old(h.State()), dir1, path1, dir2, path2, known).1
    ensures h.fds == old(h.fds) && N.OnlyOurs(old(h.fds).Keys, old(h.State()), h.State())
    ensures Rename.Within(h.w, r1, r2, old(h.fds).Keys, old(h.State()), h.State())
    ensures old(h.fds)[dir1] == DirDesc(r1) && old(h.fds)[dir2] == DirDesc(r2) ==>
      Rename.RenamedOnce(h.w, r1, r2, old(h.State()), path1, path2, known, h.State(), r)
  {
    ghost var k := h.State();
    Rename.PathOp2Conserves(h.w, k, dir1, path1, dir2, path2, known);
    Rename.PathOp2Contained(h.w, r1, r2, k, dir1, path1, dir2, path2, known);
    if k.fds[dir1] == DirDesc(r1) && k.fds[dir2] == DirDesc(r2) {
      Rename.PathOp2Once(h.w, r1, r2, k, dir1, path1, dir2, path2, known);
    }
    if |path1| > MAX_TEXT || |path2| > MAX_TEXT { return R.Refusal(ENAMETOOLONG); }
    var b1 := h.Dup(dir1);
    if b1.OpenFailed? { return R.Refusal(b1.e); }
    var b2 := h.Dup(dir2);
    if b2.OpenFailed? {
      h.Close(b1.fd);
      return R.Refusal(b2.e);
    }
    r := RenameBetween(h, b1.fd, path1, b2.fd, path2, known);
    h.Close(b1.fd);
    h.Close(b2.fd);
  }

  /** The part of `path_op2` between taking its copies of the two directories and closing them. */
  method RenameBetween(h: Host, b1: nat, path1: string, b2: nat, path2: string, known: bool)
    returns (r: R.Outcome)
    modifies h
    ensures h.State() == Rename.RenameBetween(h.w, old(h.State()), b1, path1, b2, path2, known).0
    ensures r == Rename.RenameBetween(h.w, old(h.State()), b1, path1, b2, path2, known).1
  {
    var p1 := WalkParent(h, b1, path1);
    if p1.NoParent? { return R.Refusal(p1.e); }
    var p2 := WalkParent(h, b2, path2);
    if p2.NoParent? {
      if p1.owned { h.Close(p1.fd); }
      return R.Refusal(p2.e);
    }
    r := R.BadArg;
    if known {
      var f := h.ActAtBoth(p1.fd, p1.name, p2.fd, p2.name);
      r := R.OutcomeOf(f);
    }
    if p1.owned { h.Close(p1.fd); }
    if p2.owned { h.Close(p2.fd); }
  }
}
