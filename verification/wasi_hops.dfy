/**
 `resolve_final` and pathname resolution, on a file system nobody changes.

 Each link at the end of a path is a hop: the parent of the text's last name is
 found from the directory the link is in. The reference finds it with the depth
 of that directory below the preopen; the code counts from 0 at every hop.
 */
module WasiHops {
  import opened WasiKernel
  import opened WasiResolve
  import opened WasiWalk

  // ------------------------------------------------------------ how a resolution ends

  /** The outcome of pathname resolution from a spot. */
  ghost function Ending(w: World, q: Request, s: Spot): Spot {
    if exists n: nat :: Run(w, q, s, n).Halted() then
      var n: nat :| Run(w, q, s, n).Halted();
      Run(w, q, s, n)
    else Refused(ELOOP)
  }

  lemma EndingIs(w: World, q: Request, s: Spot, n: nat)
    requires Run(w, q, s, n).Halted()
    ensures Ending(w, q, s) == Run(w, q, s, n)
  {
    var m: nat :| Run(w, q, s, m).Halted() && Ending(w, q, s) == Run(w, q, s, m);
    OutcomeUnique(w, q, s, n, m);
  }

  // ------------------------------------------------------------ one hop

  /** Where a hop lands: a name in a directory, a refusal, or a name under a number that is closed. */
  datatype Landing = On(dir: Node, name: string) | Off(e: Errno) | Nowhere

  predicate Proper(text: string) {
    text != "" && |text| <= MAX_TEXT && text[0] != '/'
  }

  /** Resolution of all but the last name of a text, read in `dir`. */
  function ParentSpot(dir: Node, text: string): Spot
    requires Proper(text)
  {
    RelativePathNames(text);
    var comps := Components(text);
    At_(DirDesc(dir), Items(comps[..|comps| - 1], 0))
  }

  /** The parent of the text's last name, resolved from `dir` inside the preopen `root`, and that name. */
  ghost function Reached(w: World, root: Node, dir: Node, text: string): Landing {
    if text == "" then Off(EINVAL)
    else if |text| > MAX_TEXT then Off(ENAMETOOLONG)
    else if text[0] == '/' then Off(REFUSED)
    else
      RelativePathNames(text);
      Land(Ending(w, Request(root, DIRECTORY, true), ParentSpot(dir, text)), Components(text)[|Components(text)| - 1])
  }

  function Land(s: Spot, last: string): Landing {
    match s
    case Refused(e) => Off(e)
    case Arrived(DirDesc(d)) => On(d, last)
    case _ => Off(ENOTDIR)
  }

  /** What the walk to a parent makes of it: `..` is no name to act on. */
  ghost function HopFrom(w: World, root: Node, dir: Node, text: string): Landing {
    match Reached(w, root, dir, text)
    case On(d, name) => if name == ".." then Off(REFUSED) else On(d, name)
    case other => other
  }

  predicate Asking(s: Spot, dir: Node) {
    s.At_? && s.here == DirDesc(dir) && s.todo != [] && s.todo[0].name == ".."
  }

  /** Within n steps of resolution the text asks for `..` while standing in `dir`. */
  predicate AsksWithin(w: World, q: Request, dir: Node, s: Spot, n: nat)
    decreases n
  {
    Asking(s, dir) || (n > 0 && AsksWithin(w, q, dir, Next(w, q, s), n - 1))
  }

  /** Resolving the text inside the preopen asks for `..` in the very directory the text was read in. */
  ghost predicate AsksUp(w: World, root: Node, dir: Node, text: string) {
    Proper(text) && exists n: nat :: AsksWithin(w, Request(root, DIRECTORY, true), dir, ParentSpot(dir, text), n)
  }

  // ------------------------------------------------------------ two preopens, one resolution

  ghost predicate Inside(w: World, dir: Node, s: Spot) {
    s.At_? && s.here.DirDesc? ==> Under(w, dir, s.here.dir)
  }

  lemma NextAgrees(w: World, q: Request, r: Request, s: Spot)
    requires w.Valid() && r == q.(root := r.root) && Under(w, q.root, r.root) && Inside(w, r.root, s)
    requires !Asking(s, r.root)
    ensures Next(w, r, s) == Next(w, q, s) && Inside(w, r.root, Next(w, r, s))
  {
    if s.At_? && s.here.DirDesc? && s.todo != [] {
      var dir, name := s.here.dir, s.todo[0].name;
      if name == ".." {
        RootIsAbove(w, q.root, r.root, dir);
        UpStaysUnder(w, r.root, dir);
      } else if (dir, name) in w.table(0) && w.table(0)[(dir, name)].EDir? {
        assert w.ChildOf(dir, w.table(0)[(dir, name)]);
        DownStaysUnder(w, r.root, dir, w.table(0)[(dir, name)].dir);
      }
    }
  }

  lemma UpStaysUnder(w: World, root: Node, n: Node)
    requires Under(w, root, n) && n != root
    ensures Under(w, root, w.parent(n))
  {
    var d: nat :| At(w, root, n, d);
    assert At(w, root, w.parent(n), d - 1);
  }

  lemma DownStaysUnder(w: World, root: Node, n: Node, child: Node)
    requires Under(w, root, n) && w.parent(child) == n && child != n
    ensures Under(w, root, child)
  {
    var d: nat :| At(w, root, n, d);
    assert At(w, root, child, d + 1);
  }

  /** The preopen is not below a directory inside it. */
  lemma RootIsAbove(w: World, root: Node, mid: Node, n: Node)
    requires w.Valid() && Under(w, root, mid) && Under(w, mid, n) && n != mid
    ensures n != root
  {
    var d: nat :| At(w, root, mid, d);
    var e: nat :| At(w, mid, n, e);
    AtAdds(w, root, mid, n, d, e);
    if n == root {
      assert At(w, root, n, 0);
      DepthIsUnique(w, root, n, 0, d + e);
    }
  }

  /** Step by step the two agree, until the inner one refuses a `..` at its root. */
  lemma {:induction false} RunsAgree(w: World, q: Request, r: Request, s: Spot, n: nat)
    requires w.Valid() && r == q.(root := r.root) && Under(w, q.root, r.root) && Inside(w, r.root, s)
    ensures Run(w, r, s, n + 1) == if AsksWithin(w, q, r.root, s, n) then Refused(REFUSED) else Run(w, q, s, n + 1)
    decreases n
  {
    assert Run(w, r, s, n + 1) == Run(w, r, Next(w, r, s), n);
    assert Run(w, q, s, n + 1) == Run(w, q, Next(w, q, s), n);
    if Asking(s, r.root) {
      HaltedStays(w, r, Refused(REFUSED), n);
    } else {
      NextAgrees(w, q, r, s);
      if n > 0 { RunsAgree(w, q, r, Next(w, q, s), n - 1); }
    }
  }

  /** A directory inside the preopen can be opened, and the walk from it ends: so does resolution. */
  lemma Ends(w: World, root: Node, dir: Node, d: nat, comps: seq<string>) returns (n: nat)
    requires w.Valid() && Still(w) && At(w, root, dir, d)
    ensures var end := Run(w, Request(root, DIRECTORY, true), At_(DirDesc(dir), Items(comps, 0)), n);
      end.Refused? || (end.Arrived? && end.desc.DirDesc?)
  {
    var q := Request(root, DIRECTORY, true);
    var s := At_(DirDesc(dir), Items(comps, 0));
    if comps == [] {
      n := 1;
      assert Run(w, q, s, 1) == Run(w, q, Next(w, q, s), 0);
    } else {
      var k := Kernel(0, 0, map[0 := DirDesc(dir)], []);
      n := WalkRestResolves(w, q, k.fds, k, 0, false, comps, DIRECTORY, d, MAX_SYMLINKS, true, 0, []);
      assert Items(comps, 0) + [] == Items(comps, 0);
      var end := Run(w, q, s, n);
      if end.At_? {
        RunAdds(w, q, s, n, 1);
        n := n + 1;
      }
    }
  }

  /** A hop counted from the link's own directory is the hop counted from the preopen, unless the text asks for
      `..` in that directory: then it is refused. */
  lemma HopFromHere(w: World, root: Node, dir: Node, d: nat, text: string)
    requires w.Valid() && Still(w) && At(w, root, dir, d)
    ensures HopFrom(w, dir, dir, text)
         == if AsksUp(w, root, dir, text) then Off(REFUSED) else HopFrom(w, root, dir, text)
  {
    if Proper(text) {
      var q, r, s := Request(root, DIRECTORY, true), Request(dir, DIRECTORY, true), ParentSpot(dir, text);
      assert At(w, dir, dir, 0) && Under(w, root, dir);
      if AsksUp(w, root, dir, text) {
        var n: nat :| AsksWithin(w, q, dir, s, n);
        RunsAgree(w, q, r, s, n);
        EndingIs(w, r, s, n + 1);
      } else {
        RelativePathNames(text);
        var n := Ends(w, root, dir, d, Components(text)[..|Components(text)| - 1]);
        assert !AsksWithin(w, q, dir, s, n);
        RunsAgree(w, q, r, s, n);
        RunAdds(w, q, s, n, 1);
        HaltedStays(w, q, Run(w, q, s, n), 1);
        EndingIs(w, q, s, n + 1);
        EndingIs(w, r, s, n + 1);
      }
    }
  }

  // ------------------------------------------------------------ the walk to a parent

  function Landed(k: Kernel, p: Parented): Landing {
    match p
    case NoParent(e) => Off(e)
    case Parent(fd, _, name) => if fd in k.fds && k.fds[fd].DirDesc? then On(k.fds[fd].dir, name) else Nowhere
  }

  /** The walk to a parent, with any true depth, lands where resolution does. */
  lemma ParentLands(w: World, root: Node, k: Kernel, cur: nat, d: nat, text: string)
    requires w.Valid() && Still(w) && Standing(w, root, k, cur, d) && k.fds[cur].DirDesc? && Proper(text)
    ensures var (k', p) := ParentOf(w, k, cur, false, Components(text), d);
      Landed(k', p) == HopFrom(w, root, k.fds[cur].dir, text)
  {
    RelativePathNames(text);
    var comps := Components(text);
    var init := comps[..|comps| - 1];
    var q, s := Request(root, DIRECTORY, true), ParentSpot(k.fds[cur].dir, text);
    if |comps| == 1 {
      assert Run(w, q, s, 1) == Run(w, q, Next(w, q, s), 0);
      EndingIs(w, q, s, 1);
    } else {
      var n := WalkRestResolves(w, q, k.fds, k, cur, false, init, DIRECTORY, d, MAX_SYMLINKS, true, 0, []);
      assert Items(init, 0) + [] == Items(init, 0);
      var (k1, r) := WalkRest(w, k, cur, false, init, DIRECTORY, d, MAX_SYMLINKS, true);
      RunAdds(w, q, s, n, 1);
      EndingIs(w, q, s, n + 1);
    }
  }

  /**
   Counting from 0 in a directory that is at true depth d, the walk to a parent lands where the walk that counts
   from d does, unless the text asks for `..` in that directory. Then it is refused: so the two agree if and only
   if the text never asks, or is refused with the true depth as well (as `../x/..` is, for its last name).
   */
  lemma CountingFromZero(w: World, root: Node, k: Kernel, cur: nat, d: nat, text: string)
    requires w.Valid() && Still(w) && Standing(w, root, k, cur, d) && k.fds[cur].DirDesc? && Proper(text)
    ensures var dir := k.fds[cur].dir;
      var (k0, p0) := ParentOf(w, k, cur, false, Components(text), 0);
      var (k1, p1) := ParentOf(w, k, cur, false, Components(text), d);
      && Landed(k0, p0) == (if AsksUp(w, root, dir, text) then Off(REFUSED) else Landed(k1, p1))
      && (Landed(k0, p0) == Landed(k1, p1) <==> !AsksUp(w, root, dir, text) || p1 == NoParent(REFUSED))
  {
    var dir := k.fds[cur].dir;
    assert At(w, dir, dir, 0);
    ParentLands(w, root, k, cur, d, text);
    ParentLands(w, dir, k, cur, 0, text);
    HopFromHere(w, root, dir, d, text);
  }
}
