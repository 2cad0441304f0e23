/**
 Where pathname resolution goes when it follows the last name of a path.

 Everything here is about the splicing machine alone: the directory and last
 name that resolution comes to, and how that unrolls over the links at the end
 of a path. In the middle of a path a text is resolved with fewer links left to
 nest than it would have by itself, and the difference is exact.
 */
module WasiGoal {
  import opened WasiHops
  import opened WasiKernel
  import opened WasiResolve
  import opened WasiWalk

  // ------------------------------------------------------------ the last name that is no link

  /** Nothing is left to follow: resolution has ended, or stands in a directory with one name left that is
      no link there. */
  predicate Decided(w: World, s: Spot) {
    s.Halted() || (s.here.DirDesc? && |s.todo| == 1 && !IsLink(w, s.here.dir, s.todo[0].name))
  }

  /** Resolution is first decided after n steps. */
  ghost predicate First(w: World, q: Request, s: Spot, n: nat) {
    Decided(w, Run(w, q, s, n)) && forall m: nat :: m < n ==> !Decided(w, Run(w, q, s, m))
  }

  ghost function Goal(w: World, q: Request, s: Spot): Spot {
    if exists n: nat :: First(w, q, s, n) then
      var n: nat :| First(w, q, s, n);
      Run(w, q, s, n)
    else Refused(ELOOP)
  }

  /** The directory and name that resolution of the path comes to, or why it comes to none: `..` in the root is
      a refusal. */
  ghost function Destination(w: World, q: Request, path: string): Landing {
    LandingOf(q.root, Goal(w, q, Begin(q.root, path)))
  }

  function LandingOf(root: Node, s: Spot): Landing {
    match s
    case Refused(e) => Off(e)
    case Arrived(_) => Off(ENOENT)
    case At_(here, todo) =>
      if here.FileDesc? || |todo| != 1 then Off(ENOTDIR)
      else if todo[0].name == ".." && here.dir == root then Off(REFUSED)
      else On(here.dir, todo[0].name)
  }

  lemma GoalIs(w: World, q: Request, s: Spot, n: nat)
    requires First(w, q, s, n)
    ensures Goal(w, q, s) == Run(w, q, s, n)
  {
    var m: nat :| First(w, q, s, m) && Goal(w, q, s) == Run(w, q, s, m);
    assert !(m < n) && !(n < m);
  }

  lemma GoalHere(w: World, q: Request, s: Spot)
    requires Decided(w, s)
    ensures Goal(w, q, s) == s
  {
    assert First(w, q, s, 0);
    GoalIs(w, q, s, 0);
  }

  lemma OneStep(w: World, q: Request, s: Spot, t: Spot, n: nat)
    requires Next(w, q, s) == t
    ensures Run(w, q, s, n + 1) == Run(w, q, t, n)
  {
  }

  lemma FirstStep(w: World, q: Request, s: Spot, t: Spot, n: nat)
    requires !Decided(w, s) && Next(w, q, s) == t
    ensures First(w, q, t, n) <==> First(w, q, s, n + 1)
  {
    OneStep(w, q, s, t, n);
    if First(w, q, t, n) {
      forall m: nat | m < n + 1 ensures !Decided(w, Run(w, q, s, m)) {
        if m > 0 { OneStep(w, q, s, t, m - 1); }
      }
    }
    if First(w, q, s, n + 1) {
      forall m: nat | m < n ensures !Decided(w, Run(w, q, t, m)) {
        OneStep(w, q, s, t, m);
        assert !Decided(w, Run(w, q, s, m + 1));
      }
    }
  }

  lemma GoalStep(w: World, q: Request, s: Spot)
    requires !Decided(w, s)
    ensures Goal(w, q, s) == Goal(w, q, Next(w, q, s))
  {
    var t := Next(w, q, s);
    if n: nat :| First(w, q, t, n) {
      FirstStep(w, q, s, t, n);
      OneStep(w, q, s, t, n);
      GoalIs(w, q, t, n);
      GoalIs(w, q, s, n + 1);
    } else if n: nat :| First(w, q, s, n) {
      assert n > 0;
      FirstStep(w, q, s, t, n - 1);
      assert false;
    }
  }

  /** For n steps resolution is undecided, but for having ended. */
  predicate Unsettled(w: World, q: Request, s: Spot, n: nat)
    decreases n
  {
    n == 0 || ((!Decided(w, s) || s.Halted()) && Unsettled(w, q, Next(w, q, s), n - 1))
  }

  lemma {:induction false} GoalSkips(w: World, q: Request, s: Spot, n: nat)
    requires Unsettled(w, q, s, n)
    ensures Goal(w, q, s) == Goal(w, q, Run(w, q, s, n))
    decreases n
  {
    if s.Halted() {
      HaltedStays(w, q, s, n);
    } else if n > 0 {
      GoalStep(w, q, s);
      OneStep(w, q, s, Next(w, q, s), n - 1);
      GoalSkips(w, q, Next(w, q, s), n - 1);
    }
  }

  lemma {:induction false} Least(w: World, q: Request, s: Spot, n: nat) returns (m: nat)
    requires Decided(w, Run(w, q, s, n))
    ensures First(w, q, s, m)
    decreases n
  {
    if Decided(w, s) {
      m := 0;
      assert Run(w, q, s, 0) == s;
    } else {
      OneStep(w, q, s, Next(w, q, s), n - 1);
      m := Least(w, q, Next(w, q, s), n - 1);
      FirstStep(w, q, s, Next(w, q, s), m);
      m := m + 1;
    }
  }

  /** On a file system nobody changes resolution always gets there. */
  lemma GoalReached(w: World, q: Request, path: string) returns (n: nat)
    requires w.Valid() && Still(w)
    ensures First(w, q, Begin(q.root, path), n)
    ensures Goal(w, q, Begin(q.root, path)) == Run(w, q, Begin(q.root, path), n)
  {
    var k := Kernel(0, 0, map[0 := DirDesc(q.root)], []);
    WalkOpenResolves(w, k, 0, path, q.flags, q.follow, q.root);
    var (k', r) := WalkOpen(w, k, 0, path, q.flags, q.follow);
    var m: nat :| Run(w, q, Begin(q.root, path), m) == Outcome(k', r);
    n := Least(w, q, Begin(q.root, path), m);
    GoalIs(w, q, Begin(q.root, path), n);
  }

  // ------------------------------------------------------------ one resolution inside another

  function Lift(todo: seq<Item>, level: nat): (items: seq<Item>)
    ensures |items| == |todo|
  {
    seq(|todo|, i requires 0 <= i < |todo| => Item(todo[i].name, todo[i].level + level))
  }

  /** A resolution of some names, as part of one that has more to do and is some links deep already. */
  function Frame(s: Spot, level: nat, rest: seq<Item>): Spot {
    if s.At_? then At_(s.here, Lift(s.todo, level) + rest) else s
  }

  lemma LiftAdds(a: seq<Item>, b: seq<Item>, level: nat)
    ensures Lift(a + b, level) == Lift(a, level) + Lift(b, level)
  {
  }

  lemma LiftFirst(todo: seq<Item>, level: nat, rest: seq<Item>)
    requires todo != []
    ensures (Lift(todo, level) + rest)[0] == Item(todo[0].name, todo[0].level + level)
    ensures (Lift(todo, level) + rest)[1..] == Lift(todo[1..], level) + rest
  {
  }

  lemma {:induction false} LiftItems(comps: seq<string>, from: nat, level: nat)
    ensures Lift(Items(comps, from), level) == Items(comps, from + level)
  {
    if comps != [] {
      LiftItems(comps[1..], from, level);
      LiftAdds([Item(comps[0], from)], Items(comps[1..], from), level);
    }
  }

  lemma SpliceFrames(here: Desc, text: string, from: nat, level: nat, todo: seq<Item>, rest: seq<Item>)
    ensures Frame(Splice(here, text, from, todo), level, rest)
         == Splice(here, text, from + level, Lift(todo, level) + rest)
  {
    var comps := Components(text);
    LiftItems(comps, from, level);
    LiftAdds(Items(comps, from), todo, level);
    assert Items(comps, from + level) + Lift(todo, level) + rest
        == Items(comps, from + level) + (Lift(todo, level) + rest);
  }

  /** The next name is no directory, and that many links deep it may not be followed. */
  predicate Blocked(w: World, root: Node, s: Spot, level: nat) {
    && s.At_? && s.todo != [] && s.here.DirDesc?
    && !(s.todo[0].name == ".." && s.here.dir == root)
    && s.todo[0].level + level >= MAX_SYMLINKS
    && Lookup(w, 0, s.here.dir, s.todo[0].name, DIRECTORY).Miss?
    && Lookup(w, 0, s.here.dir, s.todo[0].name, DIRECTORY).e in {ELOOP, ENOTDIR}
  }

  lemma NextFrames(w: World, q: Request, r: Request, s: Spot, level: nat, rest: seq<Item>)
    requires r == Request(q.root, DIRECTORY, true) && q.follow && rest != []
    requires s.At_? && s.todo != []
    ensures Next(w, q, Frame(s, level, rest))
         == if Blocked(w, q.root, s, level) then Refused(ELOOP) else Frame(Next(w, r, s), level, rest)
  {
    LiftFirst(s.todo, level, rest);
    if s.here.DirDesc? {
      var dir, name := s.here.dir, s.todo[0].name;
      if (dir, name) in w.table(0) && w.table(0)[(dir, name)].ELink? {
        SpliceFrames(s.here, Cut(w.table(0)[(dir, name)].text), s.todo[0].level + 1, level, s.todo[1..], rest);
      }
    }
  }

  /** Within n steps a name is met that may not be followed that deep. */
  predicate BlockedWithin(w: World, r: Request, s: Spot, level: nat, n: nat)
    decreases n
  {
    n > 0 && (Blocked(w, r.root, s, level) || BlockedWithin(w, r, Next(w, r, s), level, n - 1))
  }

  predicate Finished(s: Spot) { s.Halted() || s.todo == [] }

  lemma {:induction false} FinishedMovesOn(w: World, r: Request, s: Spot, level: nat, n: nat)
    requires Finished(s)
    ensures !BlockedWithin(w, r, s, level, n)
    ensures n > 0 ==> !Run(w, r, s, n).At_?
    decreases n
  {
    if n > 0 {
      OneStep(w, r, s, Next(w, r, s), n - 1);
      FinishedMovesOn(w, r, Next(w, r, s), level, n - 1);
    }
  }

  /** What is met after a resolution has finished does not count. */
  lemma {:induction false} BlockedBefore(w: World, r: Request, s: Spot, level: nat, n: nat, m: nat)
    requires Finished(Run(w, r, s, m)) && BlockedWithin(w, r, s, level, n)
    ensures BlockedWithin(w, r, s, level, m)
    decreases m
  {
    if m == 0 || Finished(s) {
      FinishedMovesOn(w, r, s, level, n);
    } else if !Blocked(w, r.root, s, level) {
      OneStep(w, r, s, Next(w, r, s), m - 1);
      BlockedBefore(w, r, Next(w, r, s), level, n - 1, m - 1);
    }
  }

  lemma {:induction false} HaltedUnsettled(w: World, q: Request, s: Spot, n: nat)
    requires s.Halted()
    ensures Unsettled(w, q, s, n)
    decreases n
  {
    if n > 0 { HaltedUnsettled(w, q, s, n - 1); }
  }

  /** Inside another resolution each step is the same, up to the first name that may not be followed. */
  lemma {:induction false} RunFrames(w: World, q: Request, r: Request, s: Spot, level: nat, rest: seq<Item>, n: nat)
    requires r == Request(q.root, DIRECTORY, true) && q.follow && rest != []
    requires !Run(w, r, s, n).Arrived?
    ensures Run(w, q, Frame(s, level, rest), n)
         == if BlockedWithin(w, r, s, level, n) then Refused(ELOOP) else Frame(Run(w, r, s, n), level, rest)
    ensures Unsettled(w, q, Frame(s, level, rest), n)
    decreases n
  {
    if n > 0 {
      var t, f := Next(w, r, s), Frame(s, level, rest);
      OneStep(w, r, s, t, n - 1);
      OneStep(w, q, f, Next(w, q, f), n - 1);
      if s.At_? && s.todo != [] {
        NextFrames(w, q, r, s, level, rest);
        if Blocked(w, q.root, s, level) {
          HaltedStays(w, q, Refused(ELOOP), n - 1);
          HaltedUnsettled(w, q, Refused(ELOOP), n - 1);
        } else {
          RunFrames(w, q, r, t, level, rest, n - 1);
        }
      } else {
        FinishedRuns(w, r, s, n);
        FinishedMovesOn(w, r, s, level, n);
        HaltedStays(w, q, s, n);
        HaltedUnsettled(w, q, s, n);
      }
    }
  }

  lemma FinishedRuns(w: World, r: Request, s: Spot, n: nat)
    requires Finished(s) && n > 0 && !Run(w, r, s, n).Arrived?
    ensures s.Refused? && Run(w, r, s, n) == s
  {
    OneStep(w, r, s, Next(w, r, s), n - 1);
    HaltedStays(w, r, Next(w, r, s), n - 1);
  }

  // ------------------------------------------------------------ one text of the chain

  /** Resolving all but the last name of the text meets a link, or a name that is no directory, deeper than the
      nesting that is left `level` links down. */
  ghost predicate TooDeep(w: World, root: Node, dir: Node, text: string, level: nat) {
    && Proper(text)
    && exists n: nat :: BlockedWithin(w, Request(root, DIRECTORY, true), ParentSpot(dir, text), level, n)
  }

  lemma {:induction false} BeforeArriving(w: World, q: Request, s: Spot, n: nat) returns (m: nat)
    requires s.At_? && Run(w, q, s, n).Arrived?
    ensures Run(w, q, s, m) == At_(Run(w, q, s, n).desc, [])
    decreases n
  {
    var next := Next(w, q, s);
    assert n > 0;
    OneStep(w, q, s, next, n - 1);
    if next.Halted() {
      HaltedStays(w, q, next, n - 1);
      m := 0;
    } else {
      m := BeforeArriving(w, q, next, n - 1);
      OneStep(w, q, s, next, m);
      m := m + 1;
    }
  }

  lemma {:induction false} ItemsEnd(comps: seq<string>, level: nat)
    requires comps != []
    ensures Items(comps, level) == Items(comps[..|comps| - 1], level) + [Item(comps[|comps| - 1], level)]
  {
    if |comps| > 1 {
      ItemsEnd(comps[1..], level);
      assert comps[..|comps| - 1][1..] == comps[1..][..|comps| - 2];
    }
  }

  /** A text being resolved from `dir` some links down is its parents being resolved, inside it. */
  lemma TextFrames(dir: Node, text: string, level: nat)
    requires Proper(text)
    ensures Components(text) != []
    ensures At_(DirDesc(dir), Items(Components(text), level))
         == Frame(ParentSpot(dir, text), level, [Item(Components(text)[|Components(text)| - 1], level)])
  {
    RelativePathNames(text);
    var comps := Components(text);
    LiftItems(comps[..|comps| - 1], 0, level);
    ItemsEnd(comps, level);
  }

  /** Where the resolution of a text's parents stops: at a refusal, or in the directory of the last name. */
  lemma ParentsEnd(w: World, root: Node, dir: Node, d: nat, text: string) returns (n: nat)
    requires w.Valid() && Still(w) && At(w, root, dir, d) && Proper(text)
    ensures Components(text) != []
    ensures var end := Run(w, Request(root, DIRECTORY, true), ParentSpot(dir, text), n);
      var last := Components(text)[|Components(text)| - 1];
      || (end.Refused? && Reached(w, root, dir, text) == Off(end.e))
      || (end.At_? && end.todo == [] && end.here.DirDesc? && Reached(w, root, dir, text) == On(end.here.dir, last))
  {
    RelativePathNames(text);
    var q, s := Request(root, DIRECTORY, true), ParentSpot(dir, text);
    n := Ends(w, root, dir, d, Components(text)[..|Components(text)| - 1]);
    EndingIs(w, q, s, n);
    if Run(w, q, s, n).Arrived? {
      n := BeforeArriving(w, q, s, n);
    }
  }

  /** Where resolution goes from a name of the chain. */
  ghost function GoalFrom(w: World, q: Request, to: Landing, level: nat): Spot {
    match to
    case On(dir, name) => Goal(w, q, At_(DirDesc(dir), [Item(name, level)]))
    case Off(e) => Refused(e)
    case Nowhere => Refused(ELOOP)
  }

  /** A text followed by the last name: to that name in the directory reached, unless it nests too deep here. */
  lemma TextGoal(w: World, q: Request, dir: Node, d: nat, text: string, level: nat)
    requires w.Valid() && Still(w) && At(w, q.root, dir, d) && q.follow && Proper(text)
    ensures Goal(w, q, At_(DirDesc(dir), Items(Components(text), level)))
         == if TooDeep(w, q.root, dir, text, level) then Refused(ELOOP)
            else GoalFrom(w, q, Reached(w, q.root, dir, text), level)
  {
    var r, s := Request(q.root, DIRECTORY, true), ParentSpot(dir, text);
    TextFrames(dir, text, level);
    var rest := [Item(Components(text)[|Components(text)| - 1], level)];
    var n := ParentsEnd(w, q.root, dir, d, text);
    RunFrames(w, q, r, s, level, rest, n);
    GoalSkips(w, q, Frame(s, level, rest), n);
    if m: nat :| BlockedWithin(w, r, s, level, m) {
      BlockedBefore(w, r, s, level, m, n);
      GoalHere(w, q, Refused(ELOOP));
    } else if Run(w, r, s, n).Refused? {
      GoalHere(w, q, Run(w, r, s, n));
    } else {
      assert Frame(Run(w, r, s, n), level, rest) == At_(Run(w, r, s, n).here, rest);
    }
  }

  /** A name of the chain: it is where resolution goes, or it is replaced by its text, if it may be. */
  lemma NameGoal(w: World, q: Request, dir: Node, name: string, level: nat)
    requires w.Valid() && q.follow && !(q.flags.create && q.flags.exclusive)
    ensures var s := At_(DirDesc(dir), [Item(name, level)]);
      Goal(w, q, s) ==
        if !IsLink(w, dir, name) then s
        else if level >= MAX_SYMLINKS then Refused(ELOOP)
        else Goal(w, q, Splice(DirDesc(dir), TextOf(w, dir, name), level + 1, []))
  {
    var s := At_(DirDesc(dir), [Item(name, level)]);
    if !IsLink(w, dir, name) {
      GoalHere(w, q, s);
    } else {
      assert s.todo[1..] == [];
      GoalStep(w, q, s);
      if level >= MAX_SYMLINKS { GoalHere(w, q, Refused(ELOOP)); }
    }
  }

  // ------------------------------------------------------------ what a destination says of the resolution

  /** Resolution stands before this name, which is its last and no link. */
  predicate Before(w: World, s: Spot, dir: Node, name: string) {
    s.At_? && s.here == DirDesc(dir) && |s.todo| == 1 && s.todo[0].name == name && !IsLink(w, dir, name)
  }

  lemma NamesRemain(w: World, q: Request, s: Spot)
    requires w.Valid() && !Decided(w, s) && s.todo != []
    ensures Next(w, q, s).Refused? || (Next(w, q, s).At_? && Next(w, q, s).todo != [])
  {
    if s.here.DirDesc? && IsLink(w, s.here.dir, s.todo[0].name) {
      var text := TextOf(w, s.here.dir, s.todo[0].name);
      if text != "" && text[0] != '/' { RelativePathNames(text); }
    }
  }

  lemma {:induction false} DecidedOnName(w: World, q: Request, s: Spot, n: nat)
    requires w.Valid() && First(w, q, s, n) && (s.Refused? || (s.At_? && s.todo != []))
    ensures var goal := Run(w, q, s, n);
      goal.Refused? || (goal.At_? && goal.here.DirDesc? && goal.todo != []
                        && Before(w, goal, goal.here.dir, goal.todo[0].name))
    decreases n
  {
    if n == 0 {
      assert Run(w, q, s, 0) == s;
    } else {
      assert !Decided(w, Run(w, q, s, 0));
      NamesRemain(w, q, s);
      FirstStep(w, q, s, Next(w, q, s), n - 1);
      OneStep(w, q, s, Next(w, q, s), n - 1);
      DecidedOnName(w, q, Next(w, q, s), n - 1);
    }
  }

  lemma {:induction false} FinishedStays(w: World, q: Request, s: Spot, n: nat)
    requires Finished(s)
    ensures Finished(Run(w, q, s, n))
    decreases n
  {
    if n > 0 {
      OneStep(w, q, s, Next(w, q, s), n - 1);
      FinishedStays(w, q, Next(w, q, s), n - 1);
    }
  }

  /** Resolution stands before no other name. */
  lemma OnlyName(w: World, q: Request, s: Spot, n: nat, m: nat, dir: Node, name: string)
    requires w.Valid() && First(w, q, s, n) && Before(w, Run(w, q, s, m), dir, name)
    ensures Run(w, q, s, m) == Run(w, q, s, n)
  {
    assert !(m < n);
    if m > n { PastDecided(w, q, s, n, m - n); }
  }

  lemma DecidedEnds(w: World, q: Request, s: Spot)
    requires w.Valid() && Decided(w, s)
    ensures Finished(Next(w, q, s))
  {
  }

  lemma PastDecided(w: World, q: Request, s: Spot, n: nat, m: nat)
    requires w.Valid() && Decided(w, Run(w, q, s, n)) && m > 0
    ensures Finished(Run(w, q, s, n + m))
  {
    var goal := Run(w, q, s, n);
    RunAdds(w, q, s, n, m);
    OneStep(w, q, goal, Next(w, q, goal), m - 1);
    DecidedEnds(w, q, goal);
    FinishedStays(w, q, Next(w, q, goal), m - 1);
  }

  lemma UpFromRoot(w: World, q: Request, s: Spot, n: nat)
    requires Before(w, Run(w, q, s, n), q.root, "..")
    ensures Run(w, q, s, n + 1) == Refused(REFUSED)
  {
    var goal := Run(w, q, s, n);
    RunAdds(w, q, s, n, 1);
    OneStep(w, q, goal, Next(w, q, goal), 0);
  }

  /**
   A destination that is a name: resolution comes to stand before that name, which is its last and no link, and
   before no other. One that is a refusal: resolution ends refused for that reason, and stands before no such
   name, unless it is `..` in the root.
   */
  lemma DestinationMeans(w: World, q: Request, path: string)
    requires w.Valid() && Still(w)
    ensures var to, s := Destination(w, q, path), Begin(q.root, path);
      && !to.Nowhere?
      && (to.On? ==>
            && (exists n: nat :: Before(w, Run(w, q, s, n), to.dir, to.name))
            && (forall n: nat, dir, name :: Before(w, Run(w, q, s, n), dir, name) ==> to == On(dir, name)))
      && (to.Off? ==>
            && (exists n: nat :: Run(w, q, s, n) == Refused(to.e))
            && (forall n: nat, dir, name :: Before(w, Run(w, q, s, n), dir, name) ==> dir == q.root && name == ".."))
  {
    var to, s := Destination(w, q, path), Begin(q.root, path);
    if path != "" && path[0] != '/' { RelativePathNames(path); }
    var n := GoalReached(w, q, path);
    DecidedOnName(w, q, s, n);
    var goal := Run(w, q, s, n);
    forall m: nat, dir, name | Before(w, Run(w, q, s, m), dir, name) ensures goal == Run(w, q, s, m) {
      OnlyName(w, q, s, n, m, dir, name);
    }
    if goal.At_? && to.Off? { UpFromRoot(w, q, s, n); }
  }

  // ------------------------------------------------------------ inside the preopen

  lemma NextInside(w: World, q: Request, s: Spot)
    requires w.Valid() && Inside(w, q.root, s)
    ensures Inside(w, q.root, Next(w, q, s))
  {
    if s.At_? && s.here.DirDesc? && s.todo != [] {
      var dir, name := s.here.dir, s.todo[0].name;
      if name == ".." && dir != q.root {
        UpStaysUnder(w, q.root, dir);
      } else if (dir, name) in w.table(0) && w.table(0)[(dir, name)].EDir? {
        assert w.ChildOf(dir, w.table(0)[(dir, name)]);
        DownStaysUnder(w, q.root, dir, w.table(0)[(dir, name)].dir);
      }
    }
  }

  lemma {:induction false} RunInside(w: World, q: Request, s: Spot, n: nat)
    requires w.Valid() && Inside(w, q.root, s)
    ensures Inside(w, q.root, Run(w, q, s, n))
    decreases n
  {
    if n > 0 {
      NextInside(w, q, s);
      OneStep(w, q, s, Next(w, q, s), n - 1);
      RunInside(w, q, Next(w, q, s), n - 1);
    }
  }

  /** The directory a text's last name is in is inside the preopen. */
  lemma ReachedInside(w: World, root: Node, dir: Node, d: nat, text: string)
    requires w.Valid() && Still(w) && At(w, root, dir, d) && Proper(text) && Reached(w, root, dir, text).On?
    ensures Under(w, root, Reached(w, root, dir, text).dir)
  {
    var n := ParentsEnd(w, root, dir, d, text);
    RunInside(w, Request(root, DIRECTORY, true), ParentSpot(dir, text), n);
  }
}
