/**
 The kernel as the path walk sees it.

 A file system is a set of nodes. Every directory has one parent for ever, and a
 name table binds (directory, name) pairs. The table is a function of time: a run
 may find an entirely different table at each system call, which is every
 interference another process can cause except moving a directory to a new parent.
 Any call may also fail with any error, and descriptor numbers are handed out by
 an arbitrary rule that only avoids the numbers now in use. Other threads of the
 process open and close descriptors of their own at any moment, under any number
 that is not one of ours, so a number we have closed can come to denote theirs.
 */
module WasiKernel {
  type Node = nat

  datatype Errno =
    | ELOOP | ENOTDIR | ENXIO | ENOENT | EEXIST | EINVAL | EBADF | ENAMETOOLONG
    | REFUSED
    | OTHER(code: int)

  datatype Entry = EDir(dir: Node) | EFile(file: Node) | ELink(text: string)

  type Table = map<(Node, string), Entry>

  /** What an open descriptor denotes. A file remembers the directory it was named in. */
  datatype Desc = DirDesc(dir: Node) | FileDesc(file: Node, via: Node)

  /** The open flags a walk depends on. O_NOFOLLOW is always set on a named component. */
  datatype Flags = Flags(directory: bool, create: bool, exclusive: bool)

  datatype Fault = NoFault | Fault(e: Errno)

  datatype World = World(
    parent: Node -> Node,
    rank: Node -> nat,
    table: nat -> Table,
    fault: nat -> Fault,
    made: nat -> Node,
    pick: (nat, set<nat>) -> nat,
    others: (nat, set<nat>) -> map<nat, Desc>)
  {
    /** The assumptions on the environment: a tree of directories that nobody reparents, in which `.` and
        `..` are not entries, and numbers that are never handed out twice. */
    ghost predicate Valid() {
      && (forall n {:trigger parent(n)} :: parent(n) == n || rank(n) == rank(parent(n)) + 1)
      && (forall t, k :: k in table(t) ==> k.1 != "." && k.1 != ".." && ChildOf(k.0, table(t)[k]))
      && (forall t, s :: pick(t, s) !in s)
      && (forall t, s :: others(t, s).Keys !! s)
    }

    /** No other thread has a descriptor open, at any time. */
    ghost predicate Alone() {
      forall t, s :: others(t, s) == map[]
    }

    ghost predicate ChildOf(d: Node, e: Entry) {
      e.EDir? ==> parent(e.dir) == d && e.dir != d
    }
  }

  /** `n` is `d` levels below `root`. */
  ghost predicate At(w: World, root: Node, n: Node, d: nat)
    decreases d
  {
    if d == 0 then n == root else w.parent(n) != n && At(w, root, w.parent(n), d - 1)
  }

  /** `n` is in the subtree of `root`. */
  ghost predicate Under(w: World, root: Node, n: Node) {
    exists d: nat :: At(w, root, n, d)
  }

  /** A node has one depth below a root, so a counter satisfying `At` is exact. */
  lemma {:induction false} DepthIsUnique(w: World, root: Node, n: Node, d: nat, e: nat)
    requires w.Valid() && At(w, root, n, d) && At(w, root, n, e)
    ensures d == e
  {
    RankOfDepth(w, root, n, d);
    RankOfDepth(w, root, n, e);
  }

  lemma {:induction false} RankOfDepth(w: World, root: Node, n: Node, d: nat)
    requires w.Valid() && At(w, root, n, d)
    ensures w.rank(n) == w.rank(root) + d
    decreases d
  {
    if d > 0 {
      RankOfDepth(w, root, w.parent(n), d - 1);
    }
  }

  lemma {:induction false} AtAdds(w: World, root: Node, mid: Node, n: Node, d: nat, e: nat)
    requires At(w, root, mid, d) && At(w, mid, n, e)
    ensures At(w, root, n, d + e)
    decreases e
  {
    if e > 0 {
      AtAdds(w, root, mid, w.parent(n), d, e - 1);
    }
  }

  /** What openat said of a name: it is open, or an error. A link that is read is only looked at. */
  datatype Answer = Given | Said(e: Errno) | Read

  /** What was asked of the kernel: a name looked up in a directory by a walk that counts `depth`, a call that
      acts on a name or on two, in its own order, and what it answered, or a descriptor closed, which ought to be
      one of ours. */
  datatype Event =
    | Looked(dir: Node, name: string, depth: nat, answer: Answer)
    | Acted(dir: Node, name: string, result: Fault)
    | ActedBoth(dir1: Node, name1: string, dir2: Node, name2: string, result: Fault)
    | Dropped(fd: nat, ours: bool)

  /** `clock` is the time the environment goes by; `calls` counts openat and readlinkat; `fds` is
      what this call holds, and what was open before it that nobody closes meanwhile. */
  datatype Kernel = Kernel(clock: nat, calls: nat, fds: map<nat, Desc>, log: seq<Event>)

  /** The descriptors of other threads, just now. */
  function Theirs(w: World, k: Kernel): map<nat, Desc> {
    w.others(k.clock, k.fds.Keys)
  }

  predicate Live(w: World, k: Kernel, fd: nat) {
    fd in k.fds || fd in Theirs(w, k)
  }

  /** What a number denotes when a call is made with it. */
  function DescOf(w: World, k: Kernel, fd: nat): Desc
    requires Live(w, k, fd)
  {
    if fd in k.fds then k.fds[fd] else Theirs(w, k)[fd]
  }

  /** The number the kernel hands out now. */
  function Fresh(w: World, k: Kernel): nat {
    w.pick(k.clock, k.fds.Keys + Theirs(w, k).Keys)
  }

  datatype Opening = Opened(fd: nat) | OpenFailed(e: Errno)
  datatype Reading = Text(text: string) | ReadFailed(e: Errno)
  datatype Found = Hit(desc: Desc) | Miss(e: Errno)

  /** The longest text a path buffer holds; readlinkat cuts a longer link short. */
  const MAX_TEXT: nat := 4095

  /** openat with O_NOFOLLOW on one name. A symlink fails rather than being followed. */
  function Lookup(w: World, now: nat, dir: Node, name: string, flags: Flags): Found {
    if name == "." then Hit(DirDesc(dir))
    else if name == ".." then Hit(DirDesc(w.parent(dir)))
    else if (dir, name) !in w.table(now) then
      if flags.create then Hit(FileDesc(w.made(now), dir)) else Miss(ENOENT)
    else if flags.create && flags.exclusive then Miss(EEXIST)
    else match w.table(now)[(dir, name)]
      case EDir(d) => Hit(DirDesc(d))
      case EFile(f) => if flags.directory then Miss(ENOTDIR) else Hit(FileDesc(f, dir))
      case ELink(_) => Miss(if flags.directory then ENOTDIR else ELOOP)
  }

  function Looking(w: World, k: Kernel, fd: nat, name: string, depth: nat, answer: Answer): Kernel {
    k.(clock := k.clock + 1,
       calls := k.calls + 1,
       log := if Live(w, k, fd) && DescOf(w, k, fd).DirDesc?
              then k.log + [Looked(DescOf(w, k, fd).dir, name, depth, answer)] else k.log)
  }

  function OpenAt(w: World, k: Kernel, fd: nat, name: string, flags: Flags, depth: nat)
    : (Kernel, Opening)
  {
    if !Live(w, k, fd) then (Looking(w, k, fd, name, depth, Said(EBADF)), OpenFailed(EBADF))
    else match DescOf(w, k, fd)
      case FileDesc(_, _) => (Looking(w, k, fd, name, depth, Said(ENOTDIR)), OpenFailed(ENOTDIR))
      case DirDesc(dir) =>
        match w.fault(k.clock)
        case Fault(e) => (Looking(w, k, fd, name, depth, Said(e)), OpenFailed(e))
        case NoFault =>
          match Lookup(w, k.clock, dir, name, flags)
          case Miss(e) => (Looking(w, k, fd, name, depth, Said(e)), OpenFailed(e))
          case Hit(desc) =>
            (Looking(w, k, fd, name, depth, Given).(fds := k.fds[Fresh(w, k) := desc]), Opened(Fresh(w, k)))
  }

  function ReadLinkAt(w: World, k: Kernel, fd: nat, name: string, depth: nat): (Kernel, Reading) {
    var k1 := Looking(w, k, fd, name, depth, Read);
    if !Live(w, k, fd) then (k1, ReadFailed(EBADF))
    else match DescOf(w, k, fd)
      case FileDesc(_, _) => (k1, ReadFailed(ENOTDIR))
      case DirDesc(dir) =>
        match w.fault(k.clock)
        case Fault(e) => (k1, ReadFailed(e))
        case NoFault => (k1, ReadLink(w.table(k.clock), dir, name))
  }

  function ReadLink(table: Table, dir: Node, name: string): Reading {
    var key := (dir, name);
    if key in table && table[key].ELink? then Text(Cut(table[key].text))
    else ReadFailed(if key in table || name == "." || name == ".." then EINVAL else ENOENT)
  }

  function Dup(w: World, k: Kernel, fd: nat): (Kernel, Opening) {
    var k1 := k.(clock := k.clock + 1);
    if !Live(w, k, fd) then (k1, OpenFailed(EBADF))
    else match w.fault(k.clock)
      case Fault(e) => (k1, OpenFailed(e))
      case NoFault => (k1.(fds := k.fds[Fresh(w, k) := DescOf(w, k, fd)]), Opened(Fresh(w, k)))
  }

  /** A call that acts on a name inside an open directory: mkdirat, unlinkat, fstatat, one end of renameat. */
  function ActAt(w: World, k: Kernel, fd: nat, name: string): (Kernel, Fault) {
    var k1 := k.(clock := k.clock + 1);
    if !Live(w, k, fd) then (k1, Fault(EBADF))
    else match DescOf(w, k, fd)
      case FileDesc(_, _) => (k1, Fault(ENOTDIR))
      case DirDesc(dir) => (k1.(log := k.log + [Acted(dir, name, w.fault(k.clock))]), w.fault(k.clock))
  }

  /** renameat and linkat: one call, two ends. */
  function ActAtBoth(w: World, k: Kernel, fd1: nat, name1: string, fd2: nat, name2: string): (Kernel, Fault) {
    var k1 := k.(clock := k.clock + 1);
    if !Live(w, k, fd1) || !Live(w, k, fd2) then (k1, Fault(EBADF))
    else match (DescOf(w, k, fd1), DescOf(w, k, fd2))
      case (DirDesc(d1), DirDesc(d2)) =>
        (k1.(log := k.log + [ActedBoth(d1, name1, d2, name2, w.fault(k.clock))]), w.fault(k.clock))
      case _ => (k1, Fault(ENOTDIR))
  }

  function Cut(text: string): string {
    if |text| <= MAX_TEXT then text else text[..MAX_TEXT]
  }

  function Close(k: Kernel, fd: nat): Kernel {
    k.(fds := k.fds - {fd}, log := k.log + [Dropped(fd, fd in k.fds)])
  }

  function CloseIf(k: Kernel, owned: bool, fd: nat): Kernel {
    if owned then Close(k, fd) else k
  }

  // ------------------------------------------------------------ path text

  /** The components strtok_r takes from a path: the maximal runs between slashes. */
  function Components(path: string): seq<string> {
    Split(path, "")
  }

  function Split(path: string, run: string): seq<string> {
    if path == "" then Flush(run)
    else if path[0] == '/' then Flush(run) + Split(path[1..], "")
    else Split(path[1..], run + [path[0]])
  }

  function Flush(run: string): seq<string> {
    if run == "" then [] else [run]
  }

  /** A path of `n` characters has at most half as many components, rounded up. */
  lemma {:induction false} ComponentCount(path: string, run: string)
    ensures 2 * |Split(path, run)| <= |path| + |run| + 1
    ensures run != "" ==> |Split(path, run)| > 0
    decreases |path|
  {
    if path == "" {
    } else if path[0] == '/' {
      ComponentCount(path[1..], "");
    } else {
      ComponentCount(path[1..], run + [path[0]]);
    }
  }

  /** A relative, non-empty path names at least one component. */
  lemma RelativePathNames(path: string)
    requires path != "" && path[0] != '/'
    ensures |Components(path)| > 0
  {
    ComponentCount(path[1..], [] + [path[0]]);
  }
}
