/**
 What a path means on a file system nobody is changing, and the walk's agreement with it.

 The reference is pathname resolution in the manner of section 4.13 of
 POSIX.1-2017: one list of names still to resolve, and a symbolic link replaced
 in that list by its text. It has no descriptors, no recursion and no depth
 counter: `..` is refused exactly when the current directory is the root.

 In one place the reference follows the code and not that section: a plain file
 where a directory was asked for is ENOTDIR there, and here it is ELOOP when the
 name would not have been followed anyway, because the code decides that first.
 */
module WasiResolve {
  import opened WasiKernel
  import opened WasiWalk

  /** A name to resolve, and how many links deep the text it came from was. */
  datatype Item = Item(name: string, level: nat)

  datatype Spot =
    | At_(here: Desc, todo: seq<Item>)
    | Arrived(desc: Desc)
    | Refused(e: Errno)
  {
    predicate Halted() { !At_? }
  }

  /** Pathname resolution from `root`, for one request. */
  datatype Request = Request(root: Node, flags: Flags, follow: bool)

  function Items(comps: seq<string>, level: nat): (items: seq<Item>)
    ensures |items| == |comps|
  {
    if comps == [] then [] else [Item(comps[0], level)] + Items(comps[1..], level)
  }

  function Begin(root: Node, path: string): Spot {
    if path == "" then Refused(EINVAL)
    else if |path| > MAX_TEXT then Refused(ENAMETOOLONG)
    else if path[0] == '/' then Refused(REFUSED)
    else At_(DirDesc(root), Items(Components(path), 0))
  }

  function Next(w: World, q: Request, s: Spot): Spot {
    match s
    case Arrived(_) => s
    case Refused(_) => s
    case At_(here, todo) =>
      if todo == [] then Arrived(here)
      else if here.FileDesc? then Refused(ENOTDIR)
      else
        var name, rest, last := todo[0].name, todo[1..], |todo| == 1;
        if name == ".." && here.dir == q.root then Refused(REFUSED)
        else match Lookup(w, 0, here.dir, name, if last then q.flags else DIRECTORY)
          case Hit(desc) => At_(desc, rest)
          case Miss(e) =>
            if e != ELOOP && e != ENOTDIR then Refused(e)
            else if last && todo[0].level == 0 && !q.follow then Refused(ELOOP)
            else if todo[0].level >= MAX_SYMLINKS then Refused(ELOOP)
            else match w.table(0)[(here.dir, name)]
              case ELink(text) => Splice(here, Cut(text), todo[0].level + 1, rest)
              case _ => Refused(e)
  }

  predicate IsLink(w: World, dir: Node, name: string) {
    (dir, name) in w.table(0) && w.table(0)[(dir, name)].ELink?
  }

  /** What reading a link gives. */
  function TextOf(w: World, dir: Node, name: string): (text: string)
    requires IsLink(w, dir, name)
    ensures |text| <= MAX_TEXT
  {
    Cut(w.table(0)[(dir, name)].text)
  }

  /** The link's text takes the link's place. */
  function Splice(here: Desc, text: string, level: nat, rest: seq<Item>): Spot {
    if text == "" then Refused(EINVAL)
    else if text[0] == '/' then Refused(REFUSED)
    else At_(here, Items(Components(text), level) + rest)
  }

  function Run(w: World, q: Request, s: Spot, n: nat): Spot
    decreases n
  {
    if n == 0 then s else Run(w, q, Next(w, q, s), n - 1)
  }

  /** A world that stands still: one table, no failures, one inode for any file created. */
  ghost predicate Still(w: World) {
    forall t :: w.table(t) == w.table(0) && w.fault(t) == NoFault && w.made(t) == w.made(0)
  }

  lemma {:induction false} RunAdds(w: World, q: Request, s: Spot, n: nat, m: nat)
    ensures Run(w, q, s, n + m) == Run(w, q, Run(w, q, s, n), m)
    decreases n
  {
    if n > 0 {
      RunAdds(w, q, Next(w, q, s), n - 1, m);
    }
  }

  lemma {:induction false} HaltedStays(w: World, q: Request, s: Spot, n: nat)
    requires s.Halted()
    ensures Run(w, q, s, n) == s
    decreases n
  {
    if n > 0 {
      HaltedStays(w, q, s, n - 1);
    }
  }

  /** Resolution has at most one outcome. */
  lemma OutcomeUnique(w: World, q: Request, s: Spot, n: nat, m: nat)
    requires Run(w, q, s, n).Halted() && Run(w, q, s, m).Halted()
    ensures Run(w, q, s, n) == Run(w, q, s, m)
  {
    RunAdds(w, q, s, n, m);
    RunAdds(w, q, s, m, n);
    HaltedStays(w, q, Run(w, q, s, n), m);
    HaltedStays(w, q, Run(w, q, s, m), n);
  }

  /** The walk's request at one point of the resolution: what comes after it decides how its end is opened. */
  ghost predicate Asks(q: Request, rest: seq<Item>, level: nat, flags: Flags, follow: bool) {
    && (if rest == [] then flags == q.flags else flags == DIRECTORY)
    && (if rest == [] && level == 0 then follow == q.follow else follow)
  }

  /** Where resolution stands after the walk that ended as `r`. */
  function Stand(k: Kernel, r: Walked, rest: seq<Item>): Spot {
    match r
    case Failed(e) => Refused(e)
    case Walked(fd, _) => if fd in k.fds then At_(k.fds[fd], rest) else Refused(EBADF)
  }

  /** The component is a link and the walk goes into its text. */
  predicate Enters(w: World, k: Kernel, cur: nat, comp: string, budget: nat, follow: bool) {
    && cur in k.fds && k.fds[cur].DirDesc?
    && comp != "." && comp != ".." && follow && budget > 0
    && (k.fds[cur].dir, comp) in w.table(0) && w.table(0)[(k.fds[cur].dir, comp)].ELink?
  }

  lemma DotStepResolves(w: World, q: Request, k: Kernel, cur: nat, comp: string, flags: Flags,
                        depth: nat, budget: nat, follow: bool, level: nat, rest: seq<Item>)
    requires w.Valid() && Still(w) && Standing(w, q.root, k, cur, depth) && k.fds[cur].DirDesc?
    requires comp == "." || comp == ".."
    ensures var (k', r) := Step(w, k, cur, comp, flags, depth, budget, follow);
      && Next(w, q, At_(k.fds[cur], [Item(comp, level)] + rest)) == Stand(k', r, rest)
      && (r.Walked? ==> r.fd in k'.fds && k'.fds[r.fd].DirDesc?)
  {
    assert ([Item(comp, level)] + rest)[1..] == rest;
    assert w.fault(k.clock) == NoFault;
    if comp == ".." && k.fds[cur].dir == q.root {
      DepthIsUnique(w, q.root, q.root, depth, 0);
    }
  }

  lemma NamedStepResolves(w: World, q: Request, k: Kernel, cur: nat, comp: string, flags: Flags,
                          depth: nat, budget: nat, follow: bool, level: nat, rest: seq<Item>)
    requires Still(w) && Standing(w, q.root, k, cur, depth) && k.fds[cur].DirDesc?
    requires level + budget == MAX_SYMLINKS && Asks(q, rest, level, flags, follow)
    requires comp != "." && comp != ".."
    requires !Enters(w, k, cur, comp, budget, follow) || (flags.create && flags.exclusive)
    ensures var (k', r) := Step(w, k, cur, comp, flags, depth, budget, follow);
      && Next(w, q, At_(k.fds[cur], [Item(comp, level)] + rest)) == Stand(k', r, rest)
      && (flags == DIRECTORY && r.Walked? ==> r.fd in k'.fds && k'.fds[r.fd].DirDesc?)
  {
    assert ([Item(comp, level)] + rest)[1..] == rest;
    assert w.table(k.clock) == w.table(0) && w.fault(k.clock) == NoFault && w.made(k.clock) == w.made(0);
    assert w.table(k.clock + 1) == w.table(0) && w.fault(k.clock + 1) == NoFault;
  }

  lemma PlainStepResolves(w: World, q: Request, k: Kernel, cur: nat, comp: string, flags: Flags,
                          depth: nat, budget: nat, follow: bool, level: nat, rest: seq<Item>)
    requires w.Valid() && Still(w) && Standing(w, q.root, k, cur, depth) && k.fds[cur].DirDesc?
    requires level + budget == MAX_SYMLINKS && Asks(q, rest, level, flags, follow)
    requires !Enters(w, k, cur, comp, budget, follow) || (flags.create && flags.exclusive)
    ensures var (k', r) := Step(w, k, cur, comp, flags, depth, budget, follow);
      && Next(w, q, At_(k.fds[cur], [Item(comp, level)] + rest)) == Stand(k', r, rest)
      && (flags == DIRECTORY && r.Walked? ==> r.fd in k'.fds && k'.fds[r.fd].DirDesc?)
  {
    if comp == "." || comp == ".." {
      DotStepResolves(w, q, k, cur, comp, flags, depth, budget, follow, level, rest);
    } else {
      NamedStepResolves(w, q, k, cur, comp, flags, depth, budget, follow, level, rest);
    }
  }

  /** What walking into a link answers. */
  function Entered(w: World, k: Kernel, cur: nat, text: string, flags: Flags, depth: nat, budget: nat)
    : (Kernel, Walked)
  {
    if text != "" && text[0] == '/' then (k, Failed(REFUSED)) else WalkFrom(w, k, cur, text, flags, depth, budget, true)
  }

  lemma LinkStepResolves(w: World, q: Request, k: Kernel, cur: nat, comp: string, flags: Flags,
                         depth: nat, budget: nat, follow: bool, level: nat, rest: seq<Item>)
    returns (k2: Kernel, text: string)
    requires Still(w) && Standing(w, q.root, k, cur, depth)
    requires level + budget == MAX_SYMLINKS && Asks(q, rest, level, flags, follow)
    requires Enters(w, k, cur, comp, budget, follow) && !(flags.create && flags.exclusive)
    ensures k2.fds == k.fds && |text| <= MAX_TEXT
    ensures Next(w, q, At_(k.fds[cur], [Item(comp, level)] + rest)) == Splice(k.fds[cur], text, level + 1, rest)
    ensures Step(w, k, cur, comp, flags, depth, budget, follow)
         == Entered(w, k2, cur, text, flags, depth, budget - 1)
  {
    assert ([Item(comp, level)] + rest)[1..] == rest;
    assert w.table(k.clock) == w.table(0) && w.fault(k.clock) == NoFault;
    assert w.table(k.clock + 1) == w.table(0) && w.fault(k.clock + 1) == NoFault;
    var (k1, a) := OpenAt(w, k, cur, comp, flags, depth);
    var (k', t) := ReadLinkAt(w, k1, cur, comp, depth);
    k2, text := k', t.text;
  }

  lemma RunFirst(w: World, q: Request, s: Spot, m: nat)
    ensures Run(w, q, s, 1 + m) == Run(w, q, Next(w, q, s), m)
  {
  }

  lemma {:induction false} EnterResolves(w: World, q: Request, k: Kernel, cur: nat, text: string, flags: Flags,
                                         depth: nat, budget: nat, level: nat, rest: seq<Item>, s: Spot,
                                         got: (Kernel, Walked))
    returns (n: nat)
    requires w.Valid() && Still(w) && Standing(w, q.root, k, cur, depth) && k.fds[cur].DirDesc?
    requires level > 0 && level + budget == MAX_SYMLINKS && Asks(q, rest, level, flags, true)
    requires |text| <= MAX_TEXT && Next(w, q, s) == Splice(k.fds[cur], text, level, rest)
    requires got == Entered(w, k, cur, text, flags, depth, budget)
    ensures var (k', r) := got;
      && Run(w, q, s, n) == Stand(k', r, rest)
      && (flags == DIRECTORY && r.Walked? ==> r.fd in k'.fds && k'.fds[r.fd].DirDesc?)
    decreases budget, 2, 1
  {
    if text != "" && text[0] == '/' {
      n := 1;
      RunFirst(w, q, s, 0);
    } else {
      var m := WalkFromResolves(w, q, k, cur, text, flags, depth, budget, level, rest);
      n := 1 + m;
      RunFirst(w, q, s, m);
    }
  }

  lemma {:induction false} LinkResolves(w: World, q: Request, k: Kernel, cur: nat, comp: string, flags: Flags,
                                        depth: nat, budget: nat, follow: bool, level: nat, rest: seq<Item>)
    returns (n: nat)
    requires w.Valid() && Still(w) && Standing(w, q.root, k, cur, depth) && k.fds[cur].DirDesc?
    requires level + budget == MAX_SYMLINKS && Asks(q, rest, level, flags, follow)
    requires Enters(w, k, cur, comp, budget, follow) && !(flags.create && flags.exclusive)
    ensures var (k', r) := Step(w, k, cur, comp, flags, depth, budget, follow);
      && Run(w, q, At_(k.fds[cur], [Item(comp, level)] + rest), n) == Stand(k', r, rest)
      && (flags == DIRECTORY && r.Walked? ==> r.fd in k'.fds && k'.fds[r.fd].DirDesc?)
    decreases budget, 0, 0
  {
    var k2, text := LinkStepResolves(w, q, k, cur, comp, flags, depth, budget, follow, level, rest);
    n := EnterResolves(w, q, k2, cur, text, flags, depth, budget - 1, level + 1, rest,
                       At_(k.fds[cur], [Item(comp, level)] + rest),
                       Step(w, k, cur, comp, flags, depth, budget, follow));
  }

  lemma {:induction false} StepResolves(w: World, q: Request, k: Kernel, cur: nat, comp: string, flags: Flags,
                                        depth: nat, budget: nat, follow: bool, level: nat, rest: seq<Item>)
    returns (n: nat)
    requires w.Valid() && Still(w) && Standing(w, q.root, k, cur, depth) && k.fds[cur].DirDesc?
    requires level + budget == MAX_SYMLINKS && Asks(q, rest, level, flags, follow)
    ensures var (k', r) := Step(w, k, cur, comp, flags, depth, budget, follow);
      && Run(w, q, At_(k.fds[cur], [Item(comp, level)] + rest), n) == Stand(k', r, rest)
      && (flags == DIRECTORY && r.Walked? ==> r.fd in k'.fds && k'.fds[r.fd].DirDesc?)
    decreases budget, 0, 1
  {
    if Enters(w, k, cur, comp, budget, follow) && !(flags.create && flags.exclusive) {
      n := LinkResolves(w, q, k, cur, comp, flags, depth, budget, follow, level, rest);
    } else {
      PlainStepResolves(w, q, k, cur, comp, flags, depth, budget, follow, level, rest);
      RunFirst(w, q, At_(k.fds[cur], [Item(comp, level)] + rest), 0);
      n := 1;
    }
  }

  lemma {:induction false} WalkFromResolves(w: World, q: Request, k: Kernel, cur: nat, text: string, flags: Flags,
                                            depth: nat, budget: nat, level: nat, rest: seq<Item>)
    returns (n: nat)
    requires w.Valid() && Still(w) && Standing(w, q.root, k, cur, depth) && k.fds[cur].DirDesc?
    requires level > 0 && level + budget == MAX_SYMLINKS && Asks(q, rest, level, flags, true)
    requires |text| <= MAX_TEXT
    ensures var (k', r) := WalkFrom(w, k, cur, text, flags, depth, budget, true);
      && Run(w, q, Splice(k.fds[cur], text, level, rest), n) == Stand(k', r, rest)
      && (flags == DIRECTORY && r.Walked? ==> r.fd in k'.fds && k'.fds[r.fd].DirDesc?)
    decreases budget, 2, 0
  {
    n := 0;
    if text != "" && text[0] != '/' {
      RelativePathNames(text);
      n := WalkRestResolves(w, q, k.fds, k, cur, false, Components(text), flags, depth, budget, true, level, rest);
    }
  }

  lemma RunOn(w: World, q: Request, s: Spot, mid: Spot, n: nat, m: nat) returns (total: nat)
    requires Run(w, q, s, n) == mid
    ensures Run(w, q, s, total) == Run(w, q, mid, m)
  {
    RunAdds(w, q, s, n, m);
    total := n + m;
  }

  lemma FirstItem(comps: seq<string>, level: nat, rest: seq<Item>)
    requires comps != []
    ensures Items(comps, level) + rest == [Item(comps[0], level)] + (Items(comps[1..], level) + rest)
    ensures |comps| == 1 ==> Items(comps[1..], level) + rest == rest
  {
  }

  /** The first component of a walk: what it answers, with the directory it was looked up in closed. */
  lemma {:induction false} FirstResolves(w: World, q: Request, base: map<nat, Desc>, k: Kernel, cur: nat, owned: bool,
                                         comps: seq<string>, flags: Flags, depth: nat, budget: nat, follow: bool,
                                         level: nat, rest: seq<Item>)
    returns (n: nat, k2: Kernel, r: Walked)
    requires w.Valid() && Still(w) && Standing(w, q.root, k, cur, depth) && k.fds[cur].DirDesc?
    requires Since(base, k, cur, owned)
    requires level + budget == MAX_SYMLINKS && Asks(q, rest, level, flags, follow)
    requires comps != []
    ensures WalkRest(w, k, cur, owned, comps, flags, depth, budget, follow)
         == if r.Failed? || |comps| == 1 then (k2, r)
            else WalkRest(w, k2, r.fd, true, comps[1..], flags, r.depth, budget, follow)
    ensures r.Walked? ==> Standing(w, q.root, k2, r.fd, r.depth) && Since(base, k2, r.fd, true)
    ensures Run(w, q, At_(k.fds[cur], Items(comps, level) + rest), n)
         == if r.Failed? then Refused(r.e) else At_(k2.fds[r.fd], Items(comps[1..], level) + rest)
    ensures r.Walked? && (|comps| > 1 || flags == DIRECTORY) ==> k2.fds[r.fd].DirDesc?
    decreases budget, 0, 2
  {
    var last := |comps| == 1;
    var f := if last then flags else DIRECTORY;
    var fo := if last then follow else true;
    var more := Items(comps[1..], level) + rest;
    FirstItem(comps, level, rest);
    n := StepResolves(w, q, k, cur, comps[0], f, depth, budget, fo, level, more);
    StepSound(w, q.root, k, cur, comps[0], f, depth, budget, fo);
    var (k1, r1) := Step(w, k, cur, comps[0], f, depth, budget, fo);
    r := r1;
    k2 := CloseIf(k1, owned, cur);
    StepThenClose(w, q.root, base, k, k1, r, cur, owned);
    WalkRestTurn(w, k, cur, owned, comps, flags, depth, budget, follow);
    if r.Walked? { assert k2.fds[r.fd] == k1.fds[r.fd]; }
  }

  lemma {:induction false} WalkRestResolves(w: World, q: Request, base: map<nat, Desc>, k: Kernel, cur: nat,
                                            owned: bool, comps: seq<string>, flags: Flags, depth: nat,
                                            budget: nat, follow: bool, level: nat, rest: seq<Item>)
    returns (n: nat)
    requires w.Valid() && Still(w) && Standing(w, q.root, k, cur, depth) && k.fds[cur].DirDesc?
    requires Since(base, k, cur, owned)
    requires level + budget == MAX_SYMLINKS && Asks(q, rest, level, flags, follow)
    requires comps != []
    ensures var (k', r) := WalkRest(w, k, cur, owned, comps, flags, depth, budget, follow);
      && Run(w, q, At_(k.fds[cur], Items(comps, level) + rest), n) == Stand(k', r, rest)
      && (flags == DIRECTORY && r.Walked? ==> r.fd in k'.fds && k'.fds[r.fd].DirDesc?)
    decreases budget, 1, |comps|
  {
    var k2, r;
    var s := At_(k.fds[cur], Items(comps, level) + rest);
    n, k2, r := FirstResolves(w, q, base, k, cur, owned, comps, flags, depth, budget, follow, level, rest);
    if r.Failed? {
      assert Run(w, q, s, n) == Stand(k2, r, rest);
    } else if |comps| == 1 {
      assert Items(comps[1..], level) + rest == rest;
      assert Run(w, q, s, n) == Stand(k2, r, rest);
    } else {
      var m := WalkRestResolves(w, q, base, k2, r.fd, true, comps[1..], flags, r.depth, budget, follow, level, rest);
      n := RunOn(w, q, s, At_(k2.fds[r.fd], Items(comps[1..], level) + rest), n, m);
    }
  }

  /** What the walk answered, as an outcome of resolution. */
  function Outcome(k: Kernel, r: Walked): Spot {
    match r
    case Failed(e) => Refused(e)
    case Walked(fd, _) => if fd in k.fds then Arrived(k.fds[fd]) else Refused(EBADF)
  }

  /** On a file system nobody changes, the walk and resolution agree on every path: on the file
      or directory reached, or on the refusal and its reason. */
  lemma WalkOpenResolves(w: World, k: Kernel, dirfd: nat, path: string, flags: Flags, follow: bool, root: Node)
    requires w.Valid() && Still(w) && dirfd in k.fds && k.fds[dirfd] == DirDesc(root)
    ensures var (k', r) := WalkOpen(w, k, dirfd, path, flags, follow);
      var q := Request(root, flags, follow);
      && (exists n :: Run(w, q, Begin(root, path), n) == Outcome(k', r))
      && (forall n :: Run(w, q, Begin(root, path), n).Halted() ==> Run(w, q, Begin(root, path), n) == Outcome(k', r))
  {
    var q := Request(root, flags, follow);
    var (k', r) := WalkOpen(w, k, dirfd, path, flags, follow);
    var n: nat := 0;
    if path != "" && |path| <= MAX_TEXT && path[0] != '/' {
      RelativePathNames(path);
      assert Items(Components(path), 0) + [] == Items(Components(path), 0);
      n := WalkRestResolves(w, q, k.fds, k, dirfd, false, Components(path), flags, 0, MAX_SYMLINKS, follow, 0, []);
      WalkOpenSound(w, root, k, dirfd, path, flags, follow);
      RunAdds(w, q, Begin(root, path), n, 1);
      n := n + 1;
    }
    assert Run(w, q, Begin(root, path), n) == Outcome(k', r);
    forall m | Run(w, q, Begin(root, path), m).Halted()
      ensures Run(w, q, Begin(root, path), m) == Outcome(k', r)
    {
      OutcomeUnique(w, q, Begin(root, path), n, m);
    }
  }
}
