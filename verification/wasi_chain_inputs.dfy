/**
 Paths on which `resolve_final` and pathname resolution part, one for each way they can while nothing is closed:
 a text that climbs out of its own directory, a text that ends in `..`, a chain of eight links, and a text that
 nests deeper than is left of the budget of the whole path.
 */
module WasiChainInputs {
  import opened WasiChain
  import opened WasiFinal
  import opened WasiGoal
  import opened WasiHops
  import opened WasiKernel
  import opened WasiResolve
  import opened WasiReuse
  import opened WasiWalk

  // ------------------------------------------------------------ a text that climbs

  /** A preopen 0 with a plain file `g`, 2, and a directory `d`, 1, in which `w` links to `./../g`. */
  function LinkBack(): World {
    World(n => if n == 1 then 0 else n, n => if n == 1 then 1 else 0,
          _ => map[(0, "d") := EDir(1), (1, "w") := ELink("./../g"), (0, "g") := EFile(2)],
          _ => NoFault, _ => 3, (_, s) => Unused(s), (_, _) => map[])
  }

  function FollowAll(root: Node): Request {
    Request(root, Flags(false, false, false), true)
  }

  lemma LinkBackNames()
    ensures Components("d/w") == ["d", "w"] && Components("./../g") == [".", "..", "g"]
  {
    assert Split("d/w", "") == Split("/w", "d") by { assert "d/w"[1..] == "/w" && "" + ['d'] == "d"; }
    assert Split("/w", "d") == ["d"] + Split("w", "") by { assert "/w"[1..] == "w"; }
    assert Split("w", "") == Split("", "w") by { assert "w"[1..] == "" && "" + ['w'] == "w"; }
    assert Split("./../g", "") == Split("/../g", ".") by { assert "./../g"[1..] == "/../g" && "" + ['.'] == "."; }
    assert Split("/../g", ".") == ["."] + Split("../g", "") by { assert "/../g"[1..] == "../g"; }
    assert Split("../g", "") == Split("./g", ".") by { assert "../g"[1..] == "./g" && "" + ['.'] == "."; }
    assert Split("./g", ".") == Split("/g", "..") by { assert "./g"[1..] == "/g" && "." + ['.'] == ".."; }
    assert Split("/g", "..") == [".."] + Split("g", "") by { assert "/g"[1..] == "g"; }
    assert Split("g", "") == Split("", "g") by { assert "g"[1..] == "" && "" + ['g'] == "g"; }
  }

  /** There `d/w` is refused, and resolution of `d/w` stands on `g`, inside the preopen. */
  lemma RefusedInside(k: Kernel) returns (n: nat)
    requires 0 in k.fds && k.fds[0] == DirDesc(0)
    ensures LinkBack().Valid()
    ensures ResolveFinal(LinkBack(), k, 0, "d/w").1 == NoParent(REFUSED)
    ensures Run(LinkBack(), FollowAll(0), Begin(0, "d/w"), n) == At_(FileDesc(2, 0), [])
  {
    LinkBackIsValid();
    var k1, fd := BackParent(k);
    BackRefused(k1, fd);
    n := BackArrives();
  }

  lemma LinkBackIsValid()
    ensures LinkBack().Valid()
  {
    var w := LinkBack();
    forall t, k | k in w.table(t) ensures k.1 != "." && k.1 != ".." && w.ChildOf(k.0, w.table(t)[k]) {}
  }

  lemma BackParent(k: Kernel) returns (k1: Kernel, fd: nat)
    requires 0 in k.fds && k.fds[0] == DirDesc(0)
    ensures WalkParent(LinkBack(), k, 0, "d/w") == (k1, Parent(fd, true, "w"))
    ensures fd in k1.fds && k1.fds[fd] == DirDesc(1)
  {
    var w := LinkBack();
    LinkBackNames();
    assert ["d", "w"][..1] == ["d"];
    var (k2, r) := Step(w, k, 0, "d", DIRECTORY, 0, MAX_SYMLINKS, true);
    assert r.Walked? && k2.fds[r.fd] == DirDesc(1);
    assert WalkRest(w, k2, r.fd, true, [], DIRECTORY, 1, MAX_SYMLINKS, true) == (k2, Walked(r.fd, 1));
    k1, fd := k2, r.fd;
  }

  lemma BackRefused(k: Kernel, fd: nat)
    requires fd in k.fds && k.fds[fd] == DirDesc(1)
    ensures TakeTurn(LinkBack(), k, fd, true, "w").1 == Stop(NoParent(REFUSED))
  {
    var w := LinkBack();
    LinkBackNames();
    var (k1, t) := ReadLinkAt(w, k, fd, "w", 0);
    assert t == Text("./../g");
    var init := [".", "..", "g"][..2];
    assert init == [".", ".."] && init[1..] == [".."];
    var (k2, r) := Step(w, k1, fd, ".", DIRECTORY, 0, MAX_SYMLINKS, true);
    assert r == Walked(r.fd, 0);
    assert WalkRest(w, k2, r.fd, true, [".."], DIRECTORY, 0, MAX_SYMLINKS, true).1 == Failed(REFUSED);
    assert WalkRest(w, k1, fd, false, init, DIRECTORY, 0, MAX_SYMLINKS, true).1 == Failed(REFUSED);
  }

  lemma BackSplices()
    ensures Next(LinkBack(), FollowAll(0), At_(DirDesc(1), [Item("w", 0)]))
         == At_(DirDesc(1), [Item(".", 1), Item("..", 1), Item("g", 1)])
  {
    LinkBackNames();
    LinkBackIsValid();
    BackText();
    ThreeItems(".", "..", "g", 1);
    assert [Item("w", 0)][1..] == [] && Items(Components("./../g"), 1) + [] == Items(Components("./../g"), 1);
  }

  lemma BackText()
    ensures IsLink(LinkBack(), 1, "w") && TextOf(LinkBack(), 1, "w") == "./../g" && Proper("./../g")
  {
  }

  lemma ThreeItems(a: string, b: string, c: string, level: nat)
    ensures Items([a, b, c], level) == [Item(a, level), Item(b, level), Item(c, level)]
  {
    assert [a, b, c][1..] == [b, c] && [b, c][1..] == [c] && [c][1..] == [];
    assert Items([c], level) == [Item(c, level)];
    assert Items([b, c], level) == [Item(b, level), Item(c, level)];
  }

  lemma BackBegins()
    ensures Begin(0, "d/w") == At_(DirDesc(0), [Item("d", 0), Item("w", 0)])
    ensures Next(LinkBack(), FollowAll(0), Begin(0, "d/w")) == At_(DirDesc(1), [Item("w", 0)])
  {
    LinkBackNames();
    assert ["d", "w"][1..] == ["w"] && ["w"][1..] == [];
    assert [Item("d", 0), Item("w", 0)][1..] == [Item("w", 0)];
  }

  lemma BackArrives() returns (n: nat)
    ensures Run(LinkBack(), FollowAll(0), Begin(0, "d/w"), n) == At_(FileDesc(2, 0), [])
  {
    var w, q := LinkBack(), FollowAll(0);
    var s1 := At_(DirDesc(1), [Item("w", 0)]);
    var s2 := At_(DirDesc(1), [Item(".", 1), Item("..", 1), Item("g", 1)]);
    var s3 := At_(DirDesc(1), [Item("..", 1), Item("g", 1)]);
    var s4 := At_(DirDesc(0), [Item("g", 1)]);
    assert s2.todo[1..] == s3.todo && s3.todo[1..] == s4.todo && s4.todo[1..] == [];
    BackBegins();
    BackSplices();
    n := 0;
    OneStep(w, q, s4, At_(FileDesc(2, 0), []), n);
    OneStep(w, q, s3, s4, n + 1);
    OneStep(w, q, s2, s3, n + 2);
    OneStep(w, q, s1, s2, n + 3);
    OneStep(w, q, Begin(0, "d/w"), s1, n + 4);
    n := n + 5;
  }

  // ------------------------------------------------------------ a text that ends in `..`

  /** A preopen 0 with a directory `x`, 1, and a link `w` to `x/..`. */
  function LinkUp(): World {
    World(n => if n == 1 then 0 else n, n => if n == 1 then 1 else 0,
          _ => map[(0, "x") := EDir(1), (0, "w") := ELink("x/..")],
          _ => NoFault, _ => 3, (_, s) => Unused(s), (_, _) => map[])
  }

  lemma LinkUpIsValid()
    ensures LinkUp().Valid()
  {
    var w := LinkUp();
    forall t, k | k in w.table(t) ensures k.1 != "." && k.1 != ".." && w.ChildOf(k.0, w.table(t)[k]) {}
  }

  lemma LinkUpNames()
    ensures Components("w") == ["w"] && Components("x/..") == ["x", ".."]
  {
    assert Split("w", "") == Split("", "w") by { assert "w"[1..] == "" && "" + ['w'] == "w"; }
    assert Split("x/..", "") == Split("/..", "x") by { assert "x/.."[1..] == "/.." && "" + ['x'] == "x"; }
    assert Split("/..", "x") == ["x"] + Split("..", "") by { assert "/.."[1..] == ".."; }
    assert Split("..", "") == Split(".", ".") by { assert ".."[1..] == "." && "" + ['.'] == "."; }
    assert Split(".", ".") == Split("", "..") by { assert "."[1..] == "" && "." + ['.'] == ".."; }
  }

  lemma UpRefused(k: Kernel)
    requires 0 in k.fds && k.fds[0] == DirDesc(0)
    ensures TakeTurn(LinkUp(), k, 0, false, "w").1 == Stop(NoParent(REFUSED))
  {
    var w := LinkUp();
    LinkUpNames();
    var (k1, t) := ReadLinkAt(w, k, 0, "w", 0);
    assert t == Text("x/..");
    assert ["x", ".."][..1] == ["x"];
    var (k2, r) := Step(w, k1, 0, "x", DIRECTORY, 0, MAX_SYMLINKS, true);
    assert r.Walked?;
    assert WalkRest(w, k2, r.fd, true, [], DIRECTORY, 1, MAX_SYMLINKS, true) == (k2, Walked(r.fd, 1));
  }

  lemma UpArrives()
    ensures Run(LinkUp(), FollowAll(0), Begin(0, "w"), 3) == At_(DirDesc(0), [])
  {
    var w, q := LinkUp(), FollowAll(0);
    LinkUpNames();
    var s0, s1 := At_(DirDesc(0), [Item("w", 0)]), At_(DirDesc(0), [Item("x", 1), Item("..", 1)]);
    var s2, s3 := At_(DirDesc(1), [Item("..", 1)]), At_(DirDesc(0), []);
    assert ["x", ".."][1..] == [".."] && [".."][1..] == [] && ["w"][1..] == [];
    assert Items([".."], 1) == [Item("..", 1)] && Items(["x", ".."], 1) == s1.todo && Items(["w"], 0) == s0.todo;
    assert s0.todo[1..] == [] && s1.todo[1..] == s2.todo && s2.todo[1..] == [] && s1.todo + [] == s1.todo;
    OneStep(w, q, s2, s3, 0);
    OneStep(w, q, s1, s2, 1);
    OneStep(w, q, s0, s1, 2);
  }

  /** There `w` is refused, though its text never leaves the directory it is in, and resolution stands in that
      directory. */
  lemma RefusedForDots(k: Kernel)
    requires 0 in k.fds && k.fds[0] == DirDesc(0)
    ensures LinkUp().Valid()
    ensures ResolveFinal(LinkUp(), k, 0, "w").1 == NoParent(REFUSED)
    ensures Run(LinkUp(), FollowAll(0), Begin(0, "w"), 3) == At_(DirDesc(0), [])
  {
    LinkUpIsValid();
    LinkUpNames();
    UpRefused(k);
    UpArrives();
    assert WalkParent(LinkUp(), k, 0, "w") == (k, Parent(0, false, "w"));
    ChaseStep(LinkUp(), k, 0, false, "w", MAX_SYMLINKS);
  }

  // ------------------------------------------------------------ a row of links

  /** The names `1` to `9`. */
  function Digit(i: nat): (name: string)
    requires 1 <= i <= 9
    ensures |name| == 1 && name[0] != '/' && name != "." && name != ".." && name != "a"
  {
    [('0' as int + i) as char]
  }

  lemma DigitsApart(i: nat, j: nat)
    requires 1 <= i <= 9 && 1 <= j <= 9 && Digit(i) == Digit(j)
    ensures i == j
  {
    assert Digit(i)[0] == ('0' as int + i) as char && Digit(j)[0] == ('0' as int + j) as char;
  }

  function RowEntry(i: nat, end: Entry): Entry
    requires 1 <= i <= 9
  {
    if i == 9 then end else ELink(Digit(i + 1))
  }

  /** A preopen 0 in which `1` links to `2`, and so on to `8`, which links to `9`; and `a` links to `1/f`. */
  function Row(end: Entry): World {
    World(n => if n == 1 then 0 else n, n => if n == 1 then 1 else 0,
          _ => RowTable(end),
          _ => NoFault, _ => 3, (_, s) => Unused(s), (_, _) => map[])
  }

  function RowTable(end: Entry): Table {
    RowsApart();
    (map i: nat | 1 <= i <= 9 :: (0, Digit(i)) := RowEntry(i, end))[(0, "a") := ELink("1/f")]
  }

  lemma RowsApart()
    ensures forall i: nat, j: nat :: 1 <= i <= 9 && 1 <= j <= 9 && Digit(i) == Digit(j) ==> i == j
  {
    forall i: nat, j: nat | 1 <= i <= 9 && 1 <= j <= 9 && Digit(i) == Digit(j) ensures i == j { DigitsApart(i, j); }
  }

  /** The links of the row, in a world that may hold more. */
  ghost predicate HasRow(w: World, end: Entry) {
    forall i :: 1 <= i <= 9 ==> HasEntry(w, end, i)
  }

  predicate HasEntry(w: World, end: Entry, i: nat)
    requires 1 <= i <= 9
  {
    (0, Digit(i)) in w.table(0) && w.table(0)[(0, Digit(i))] == RowEntry(i, end)
  }

  ghost predicate HasNest(w: World) {
    HasRow(w, EDir(1)) && IsLink(w, 0, "a") && TextOf(w, 0, "a") == "1/f" && !IsLink(w, 1, "f")
  }

  lemma RowHas(end: Entry)
    ensures HasRow(Row(end), end)
  {
    RowsApart();
    forall i | 1 <= i <= 9 ensures HasEntry(Row(end), end, i) {}
  }

  lemma RowNests()
    ensures HasNest(Row(EDir(1)))
  {
    RowHas(EDir(1));
    RowsApart();
  }

  lemma RowNamesPlain(end: Entry, key: (Node, string))
    requires key in RowTable(end)
    ensures key.0 == 0 && key.1 != "." && key.1 != ".."
    ensures RowTable(end)[key].ELink? || RowTable(end)[key] == end
  {
    RowsApart();
  }

  lemma RowIsStill(end: Entry)
    requires end.EFile? || end == EDir(1)
    ensures Row(end).Valid() && Row(end).Alone() && Still(Row(end))
  {
    var w := Row(end);
    forall t, k | k in w.table(t) ensures k.1 != "." && k.1 != ".." && w.ChildOf(k.0, w.table(t)[k]) {
      RowNamesPlain(end, k);
    }
  }

  lemma DigitNames(i: nat)
    requires 1 <= i <= 9
    ensures Components(Digit(i)) == [Digit(i)]
  {
    var name := Digit(i);
    assert name[1..] == "" && "" + [name[0]] == name;
    assert Split(name, "") == Split("", name);
  }

  /** Resolution before one of the names, some links deep. */
  function RowSpot(i: nat, level: nat, rest: seq<Item>): Spot
    requires 1 <= i <= 9
  {
    At_(DirDesc(0), [Item(Digit(i), level)] + rest)
  }

  lemma RowNext(w: World, q: Request, end: Entry, i: nat, level: nat, rest: seq<Item>)
    requires HasRow(w, end) && q.follow && !(q.flags.create && q.flags.exclusive)
    requires 1 <= i < 9 && level < MAX_SYMLINKS
    ensures Next(w, q, RowSpot(i, level, rest)) == RowSpot(i + 1, level + 1, rest)
  {
    assert HasEntry(w, end, i);
    DigitNames(i + 1);
    assert ([Item(Digit(i), level)] + rest)[1..] == rest;
    assert [Digit(i + 1)][1..] == [];
    assert Items([Digit(i + 1)], level + 1) == [Item(Digit(i + 1), level + 1)];
    assert Cut(Digit(i + 1)) == Digit(i + 1);
  }

  lemma RunThen(w: World, q: Request, s: Spot, n: nat, t: Spot)
    requires Next(w, q, Run(w, q, s, n)) == t
    ensures Run(w, q, s, n + 1) == t
  {
    RunAdds(w, q, s, n, 1);
    OneStep(w, q, Run(w, q, s, n), t, 0);
  }

  lemma {:induction false} RowRuns(w: World, q: Request, end: Entry, i: nat, level: nat, rest: seq<Item>, n: nat)
    requires HasRow(w, end) && q.follow && !(q.flags.create && q.flags.exclusive)
    requires 1 <= i && i + n <= 9 && level + n <= MAX_SYMLINKS
    ensures Run(w, q, RowSpot(i, level, rest), n) == RowSpot(i + n, level + n, rest)
    decreases n
  {
    if n > 0 {
      RowNext(w, q, end, i + n - 1, level + n - 1, rest);
      RowRuns(w, q, end, i, level, rest, n - 1);
      RunThen(w, q, RowSpot(i, level, rest), n - 1, RowSpot(i + n, level + n, rest));
    }
  }

  /** Too deep in links already, one of the links may not be followed. */
  lemma RowBlocked(w: World, q: Request, end: Entry, i: nat, level: nat, rest: seq<Item>)
    requires HasRow(w, end) && !(q.flags.create && q.flags.exclusive)
    requires 1 <= i < 9 && level >= MAX_SYMLINKS
    ensures Next(w, q, RowSpot(i, level, rest)) == Refused(ELOOP)
  {
    assert HasEntry(w, end, i);
  }

  /** The last of the names is a file or directory. */
  lemma RowEnds(w: World, q: Request, end: Entry, level: nat)
    requires HasRow(w, end) && !(q.flags.create && q.flags.exclusive)
    requires (end.EFile? && !q.flags.directory) || end.EDir?
    ensures Next(w, q, RowSpot(9, level, []))
         == At_(if end.EDir? then DirDesc(end.dir) else FileDesc(end.file, 0), [])
  {
    assert HasEntry(w, end, 9);
    assert ([Item(Digit(9), level)] + [])[1..] == [];
  }

  // ------------------------------------------------------------ eight links

  lemma SingleLands(w: World, root: Node, dir: Node, name: string)
    requires Proper(name) && Components(name) == [name] && name != ".."
    ensures HopFrom(w, root, dir, name) == On(dir, name) && Going(w, root, dir, name) == On(dir, name)
  {
    var q, s := Request(root, DIRECTORY, true), ParentSpot(dir, name);
    assert s == At_(DirDesc(dir), []);
    OneStep(w, q, s, Arrived(DirDesc(dir)), 0);
    EndingIs(w, q, s, 1);
    forall n: nat ensures !AsksWithin(w, q, dir, s, n) { FinishedNeverAsks(w, q, dir, s, n); }
  }

  lemma {:induction false} FinishedNeverAsks(w: World, q: Request, dir: Node, s: Spot, n: nat)
    requires Finished(s)
    ensures !AsksWithin(w, q, dir, s, n)
    decreases n
  {
    if n > 0 { FinishedNeverAsks(w, q, dir, Next(w, q, s), n - 1); }
  }

  lemma {:induction false} RowAnswered(w: World, end: Entry, i: nat, budget: nat)
    requires HasRow(w, end) && 1 <= i <= 9 && i + budget == 9
    ensures Answered(w, 0, 0, false, Digit(i), budget) == Off(ELOOP)
    decreases budget
  {
    if budget > 0 {
      DigitNames(i + 1);
      assert HasEntry(w, end, i);
      assert IsLink(w, 0, Digit(i)) && TextOf(w, 0, Digit(i)) == Digit(i + 1);
      SingleLands(w, 0, 0, Digit(i + 1));
      AnsweredTurns(w, 0, 0, false, Digit(i), budget);
      RowAnswered(w, end, i + 1, budget - 1);
    }
  }

  lemma RowBegins()
    ensures Begin(0, Digit(1)) == RowSpot(1, 0, [])
  {
    DigitNames(1);
    assert [Digit(1)][1..] == [] && Items([Digit(1)], 0) == [Item(Digit(1), 0)] + [];
  }

  lemma RowArrives(w: World, q: Request, file: Node, n: nat)
    requires HasRow(w, EFile(file)) && q == FollowAll(0) && n == 8
    ensures Run(w, q, Begin(0, Digit(1)), n + 1) == At_(FileDesc(file, 0), [])
    ensures Run(w, q, Begin(0, Digit(1)), n + 2) == Arrived(FileDesc(file, 0))
  {
    RowBegins();
    RowRuns(w, q, EFile(file), 1, 0, [], n);
    RowEnds(w, q, EFile(file), n);
    RunThen(w, q, RowSpot(1, 0, []), n, At_(FileDesc(file, 0), []));
    RunThen(w, q, RowSpot(1, 0, []), n + 1, Arrived(FileDesc(file, 0)));
  }

  lemma RowTooLong(w: World, k: Kernel, file: Node)
    requires w.Valid() && Still(w) && w.Alone() && HasRow(w, EFile(file)) && 0 in k.fds && k.fds[0] == DirDesc(0)
    ensures ResolveFinal(w, k, 0, Digit(1)).1 == NoParent(ELOOP)
  {
    DigitNames(1);
    SingleLands(w, 0, 0, Digit(1));
    RowAnswered(w, EFile(file), 1, MAX_SYMLINKS);
    ResolveFinalLands(w, 0, k, 0, Digit(1));
  }

  /** There `1`, eight links from a plain file, is refused for its length, and both resolution and the walk of the
      same path come to that file. */
  lemma RefusedAtEight(k: Kernel, file: Node)
    requires 0 in k.fds && k.fds[0] == DirDesc(0)
    ensures Row(EFile(file)).Valid()
    ensures ResolveFinal(Row(EFile(file)), k, 0, Digit(1)).1 == NoParent(ELOOP)
    ensures Run(Row(EFile(file)), FollowAll(0), Begin(0, Digit(1)), 9) == At_(FileDesc(file, 0), [])
    ensures WalkOpen(Row(EFile(file)), k, 0, Digit(1), FollowAll(0).flags, true).1.Walked?
  {
    var w, q, n := Row(EFile(file)), FollowAll(0), 8;
    RowIsStill(EFile(file));
    RowHas(EFile(file));
    RowTooLong(w, k, file);
    RowArrives(w, q, file, n);
    WalkOpenResolves(w, k, 0, Digit(1), q.flags, true, 0);
    assert Run(w, q, Begin(0, Digit(1)), n + 2).Halted();
  }

  // ------------------------------------------------------------ a text that nests

  lemma NestNames()
    ensures Components("a") == ["a"] && Components("1/f") == [Digit(1), "f"]
  {
    assert Split("a", "") == Split("", "a") by { assert "a"[1..] == "" && "" + ['a'] == "a"; }
    assert Split("1/f", "") == Split("/f", "1") by { assert "1/f"[1..] == "/f" && "" + ['1'] == "1"; }
    assert Split("/f", "1") == ["1"] + Split("f", "") by { assert "/f"[1..] == "f"; }
    assert Split("f", "") == Split("", "f") by { assert "f"[1..] == "" && "" + ['f'] == "f"; }
    assert Digit(1) == "1";
  }

  lemma {:induction false} RowNeverAsks(w: World, q: Request, i: nat, n: nat)
    requires HasRow(w, EDir(1)) && q == Request(0, DIRECTORY, true) && 1 <= i <= 9
    ensures !AsksWithin(w, q, 0, RowSpot(i, i - 1, []), n)
    decreases n
  {
    if n > 0 {
      if i < 9 {
        RowNext(w, q, EDir(1), i, i - 1, []);
        RowNeverAsks(w, q, i + 1, n - 1);
      } else {
        RowEnds(w, q, EDir(1), 8);
        FinishedNeverAsks(w, q, 0, At_(DirDesc(1), []), n - 1);
      }
    }
  }

  lemma NestBegins()
    ensures Proper("1/f") && ParentSpot(0, "1/f") == RowSpot(1, 0, [])
    ensures Components("1/f")[|Components("1/f")| - 1] == "f"
  {
    NestNames();
    assert [Digit(1), "f"][..1] == [Digit(1)] && [Digit(1)][1..] == [];
    assert Items([Digit(1)], 0) == [Item(Digit(1), 0)] + [];
  }

  lemma NestEnds(w: World, q: Request, s: Spot, n: nat)
    requires HasRow(w, EDir(1)) && q == Request(0, DIRECTORY, true) && s == RowSpot(1, 0, []) && n == 8
    ensures Ending(w, q, s) == Arrived(DirDesc(1))
  {
    RowRuns(w, q, EDir(1), 1, 0, [], n);
    RowEnds(w, q, EDir(1), n);
    RunThen(w, q, s, n, At_(DirDesc(1), []));
    RunThen(w, q, s, n + 1, Arrived(DirDesc(1)));
    EndingIs(w, q, s, n + 2);
  }

  lemma NestGoes(w: World)
    requires HasRow(w, EDir(1))
    ensures Going(w, 0, 0, "1/f") == On(1, "f")
  {
    NestBegins();
    var q, s := Request(0, DIRECTORY, true), RowSpot(1, 0, []);
    NestEnds(w, q, s, 8);
    forall n: nat ensures !AsksWithin(w, q, 0, s, n) { RowNeverAsks(w, q, 1, n); }
  }

  lemma NestAnswers(w: World)
    requires HasNest(w)
    ensures AnswerOf(w, 0, "a") == On(1, "f")
  {
    NestNames();
    NestGoes(w);
    SingleLands(w, 0, 0, "a");
    AnsweredTurns(w, 0, 0, false, "a", MAX_SYMLINKS);
    AnsweredTurns(w, 0, 1, true, "f", MAX_SYMLINKS - 1);
  }

  lemma NestSplices(w: World, q: Request)
    requires HasNest(w) && q == FollowAll(0)
    ensures Next(w, q, Begin(0, "a")) == RowSpot(1, 1, [Item("f", 1)])
  {
    NestNames();
    assert ["a"][1..] == [] && Items(["a"], 0) == [Item("a", 0)] && [Item("a", 0)][1..] == [];
    assert [Digit(1), "f"][1..] == ["f"] && ["f"][1..] == [] && Items(["f"], 1) == [Item("f", 1)];
    assert Items([Digit(1), "f"], 1) + [] == [Item(Digit(1), 1)] + [Item("f", 1)];
  }

  lemma NestRefused(w: World, q: Request, n: nat)
    requires HasNest(w) && q == FollowAll(0) && n == 7
    ensures Run(w, q, Begin(0, "a"), n + 2) == Refused(ELOOP)
  {
    var rest := [Item("f", 1)];
    NestSplices(w, q);
    RowRuns(w, q, EDir(1), 1, 1, rest, n);
    RowBlocked(w, q, EDir(1), 8, 8, rest);
    RunThen(w, q, RowSpot(1, 1, rest), n, Refused(ELOOP));
    OneStep(w, q, Begin(0, "a"), RowSpot(1, 1, rest), n + 1);
  }

  /** There `a`, which links to `1/f` where `1` is eight links from a directory, is answered with that directory,
      and both resolution and the walk of the same path refuse it for its nesting. */
  lemma AnsweredThoughNested(k: Kernel)
    requires 0 in k.fds && k.fds[0] == DirDesc(0)
    ensures Row(EDir(1)).Valid()
    ensures var (k', p) := ResolveFinal(Row(EDir(1)), k, 0, "a");
      p.Parent? && p.name == "f" && p.fd in k'.fds && k'.fds[p.fd] == DirDesc(1)
    ensures Run(Row(EDir(1)), FollowAll(0), Begin(0, "a"), 9) == Refused(ELOOP)
    ensures WalkOpen(Row(EDir(1)), k, 0, "a", FollowAll(0).flags, true).1 == Failed(ELOOP)
  {
    var w, q, n := Row(EDir(1)), FollowAll(0), 7;
    RowIsStill(EDir(1));
    RowNests();
    NestAnswers(w);
    ResolveFinalLands(w, 0, k, 0, "a");
    NestRefused(w, q, n);
    WalkOpenResolves(w, k, 0, "a", q.flags, true, 0);
    WalkOpenSound(w, 0, k, 0, "a", q.flags, true);
    assert Run(w, q, Begin(0, "a"), n + 2).Halted();
  }
}
