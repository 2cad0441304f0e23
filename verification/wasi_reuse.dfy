/**
 `resolve_final` when another thread takes a number it has closed.

 Lines 449-457 can close the directory a link was read in and go on with its
 number. Descriptors are conserved even so. Containment is lost, and here is
 exactly when.
 */
module WasiReuse {
  import opened WasiFinal
  import opened WasiKernel
  import opened WasiNumbers
  import opened WasiTwins
  import opened WasiWalk

  // ------------------------------------------------------------ conservation, always

  lemma TurnConserves(w: World, base: map<nat, Desc>, k: Kernel, pfd: nat, owned: bool, name: string)
    requires w.Valid() && Held(base, k, pfd, owned)
    ensures var (k', turn) := TakeTurn(w, k, pfd, owned, name);
      && OnlyOurs(base.Keys, k, k')
      && (turn.p.NoParent? ==> k'.fds == base)
      && (turn.p.Parent? ==> Held(base, k', turn.p.fd, turn.p.owned))
      && ReadLinkAt(w, k, pfd, name, 0).0.log <= k'.log
  {
    ReadLinkConserves(w, k, pfd, name, 0);
    var (k1, t) := ReadLinkAt(w, k, pfd, name, 0);
    if owned {
      assert base[pfd := k.fds[pfd]] - {pfd} == base;
    }
    if t.Text? && !(t.text != "" && t.text[0] == '/') {
      ParentConserves(w, k1, pfd, t.text);
      var (k2, p) := WalkParent(w, k1, pfd, t.text);
      OnlyOursJoins(base.Keys, k, k1, k2);
      HopConserves(base, k2, pfd, owned, p);
    }
  }

  lemma HopConserves(base: map<nat, Desc>, k: Kernel, pfd: nat, owned: bool, p: Parented)
    requires if owned then pfd in k.fds && pfd !in base else true
    requires p.NoParent? ==> Held(base, k, pfd, owned)
    requires p.Parent? ==> exists mid :: Held(base, Kernel(0, 0, mid, []), pfd, owned) && Held(mid, k, p.fd, p.owned)
    ensures var k' := CloseIf(k, owned, pfd);
      && OnlyOurs(base.Keys, k, k')
      && (p.NoParent? ==> k'.fds == base)
      && (p.Parent? ==> Held(base, k', p.fd, p.owned))
  {
    if owned && p.Parent? {
      var mid :| Held(base, Kernel(0, 0, mid, []), pfd, owned) && Held(mid, k, p.fd, p.owned);
      assert base[pfd := mid[pfd]] - {pfd} == base;
      if p.owned {
        assert CloseIf(k, owned, pfd).fds == base[p.fd := k.fds[p.fd]];
      }
    } else if owned {
      assert base[pfd := k.fds[pfd]] - {pfd} == base;
    }
  }

  lemma ChaseOverConserves(w: World, base: map<nat, Desc>, k: Kernel, pfd: nat, owned: bool, name: string)
    requires Held(base, k, pfd, owned)
    ensures var (k', p) := Chase(w, k, pfd, owned, name, 0);
      ParentConserved(base, k, k', p)
  {
    if owned {
      assert base[pfd := k.fds[pfd]] - {pfd} == base;
    }
  }

  lemma {:induction false} ChaseConserves(w: World, base: map<nat, Desc>, k: Kernel, pfd: nat, owned: bool,
                                          name: string, budget: nat)
    requires w.Valid() && Held(base, k, pfd, owned)
    ensures var (k', p) := Chase(w, k, pfd, owned, name, budget);
      ParentConserved(base, k, k', p)
    decreases budget
  {
    if budget == 0 {
      ChaseOverConserves(w, base, k, pfd, owned, name);
    } else {
      TurnConserves(w, base, k, pfd, owned, name);
      ChaseStep(w, k, pfd, owned, name, budget);
      var (k1, turn) := TakeTurn(w, k, pfd, owned, name);
      if turn.Hop? {
        ChaseConserves(w, base, k1, turn.p.fd, turn.p.owned, turn.p.name, budget - 1);
        LaterConserves(base, k, k1, Chase(w, k1, turn.p.fd, turn.p.owned, turn.p.name, budget - 1));
      }
    }
  }

  lemma LaterConserves(base: map<nat, Desc>, k: Kernel, k1: Kernel, last: (Kernel, Parented))
    requires OnlyOurs(base.Keys, k, k1) && ParentConserved(base, k1, last.0, last.1)
    ensures ParentConserved(base, k, last.0, last.1)
  {
    OnlyOursJoins(base.Keys, k, k1, last.0);
  }

  /** Whatever any thread does, `resolve_final` keeps at most the one descriptor it answers as its own,
      and closes nothing that it did not open. */
  lemma ResolveFinalConserves(w: World, k: Kernel, base: nat, path: string)
    requires w.Valid()
    ensures var (k', p) := ResolveFinal(w, k, base, path);
      ParentConserved(k.fds, k, k', p)
  {
    ParentConserves(w, k, base, path);
    var (k1, p) := WalkParent(w, k, base, path);
    if p.Parent? {
      ChaseConserves(w, k.fds, k1, p.fd, p.owned, p.name, MAX_SYMLINKS);
      var (k2, _) := Chase(w, k1, p.fd, p.owned, p.name, MAX_SYMLINKS);
      OnlyOursJoins(k.fds.Keys, k, k1, k2);
    }
  }

  // ------------------------------------------------------------ a number taken

  /** From `time` on another thread holds `out` under the number `fd`, whenever we do not hold that number. */
  function Reuse(w: World, time: nat, fd: nat, out: Node): World {
    var before := w.others;
    w.(others := (t: nat, s: set<nat>) => if t >= time && fd !in s then map[fd := DirDesc(out)] else before(t, s))
  }

  lemma ReuseIs(w: World, time: nat, fd: nat, out: Node)
    requires w.Valid()
    ensures var v := Reuse(w, time, fd, out);
      v.Valid() && SameButOthers(w, v) && SameUntil(w, v, time)
  {
    var v := Reuse(w, time, fd, out);
    forall t, k | k in v.table(t) ensures k.1 != "." && k.1 != ".." && v.ChildOf(k.0, v.table(t)[k]) {
      assert w.ChildOf(k.0, w.table(t)[k]);
    }
  }

  lemma {:induction false} AtSame(w: World, v: World, root: Node, n: Node, d: nat)
    requires SameButOthers(w, v)
    ensures At(v, root, n, d) == At(w, root, n, d)
    decreases d
  {
    if d > 0 {
      AtSame(w, v, root, w.parent(n), d - 1);
    }
  }

  lemma UnderSame(w: World, v: World, root: Node, n: Node)
    requires SameButOthers(w, v)
    ensures Under(v, root, n) ==> Under(w, root, n)
  {
    if Under(v, root, n) {
      var d: nat :| At(v, root, n, d);
      AtSame(w, v, root, n, d);
    }
  }

  lemma TurnSame(w: World, v: World, time: nat, k: Kernel, pfd: nat, owned: bool, name: string)
    requires SameUntil(w, v, time)
    ensures var (k', turn) := TakeTurn(w, k, pfd, owned, name);
      k.clock <= k'.clock && (k'.clock <= time ==> TakeTurn(v, k, pfd, owned, name) == (k', turn))
  {
    ReadLinkSame(w, v, time, k, pfd, name, 0);
    var (k1, t) := ReadLinkAt(w, k, pfd, name, 0);
    if t.Text? {
      WalkParentSame(w, v, time, k1, pfd, t.text);
    }
  }

  lemma TurnLogs(w: World, k: Kernel, pfd: nat, name: string)
    requires w.Valid() && pfd !in k.fds
    ensures var (k1, turn) := TakeTurn(w, k, pfd, false, name);
      && ReadLinkAt(w, k, pfd, name, 0).0.log <= k1.log
      && (turn.Hop? ==> Held(k.fds, k1, turn.p.fd, turn.p.owned))
  {
    TurnConserves(w, k.fds, k, pfd, false, name);
  }

  lemma ChaseLogs(w: World, base: map<nat, Desc>, k: Kernel, p: Parented, budget: nat)
    requires w.Valid() && p.Parent? && Held(base, k, p.fd, p.owned)
    ensures k.log <= Chase(w, k, p.fd, p.owned, p.name, budget).0.log
  {
    ChaseConserves(w, base, k, p.fd, p.owned, p.name, budget);
  }

  lemma TurnThenLogs(w: World, base: map<nat, Desc>, k1: Kernel, turn: Turn, budget: nat, last: Kernel)
    requires w.Valid() && (turn.Hop? ==> turn.p.Parent? && Held(base, k1, turn.p.fd, turn.p.owned))
    requires last == if turn.Hop? then Chase(w, k1, turn.p.fd, turn.p.owned, turn.p.name, budget).0 else k1
    ensures k1.log <= last.log
  {
    if turn.Hop? { ChaseLogs(w, base, k1, turn.p, budget); }
  }

  /** The loop's log starts with that of its first read. */
  lemma ReadsFirst(w: World, k: Kernel, pfd: nat, name: string, budget: nat)
    requires w.Valid() && budget > 0 && pfd !in k.fds
    ensures ReadLinkAt(w, k, pfd, name, 0).0.log <= Chase(w, k, pfd, false, name, budget).0.log
  {
    TurnLogs(w, k, pfd, name);
    var (k1, turn) := TakeTurn(w, k, pfd, false, name);
    ChaseStep(w, k, pfd, false, name, budget);
    TurnThenLogs(w, k.fds, k1, turn, budget - 1, Chase(w, k, pfd, false, name, budget).0);
  }

  /** The loop, handed a closed number that now denotes `out`, looks a name up there. */
  lemma ChaseGoesOut(w: World, root: Node, out: Node, kept: set<nat>, k: Kernel, pfd: nat, name: string, budget: nat)
    requires w.Valid() && budget > 0 && pfd !in k.fds && Theirs(w, k) == map[pfd := DirDesc(out)]
    requires !Under(w, root, out)
    ensures !ContainedSince(w, root, kept, k, Chase(w, k, pfd, false, name, budget).0)
  {
    ReadsFirst(w, k, pfd, name, budget);
    var k2 := Chase(w, k, pfd, false, name, budget).0;
    var seen := ReadLinkAt(w, k, pfd, name, 0).0.log;
    assert seen == k.log + [Looked(out, name, 0, Read)];
    assert k2.log[|k.log|] == seen[|k.log|];
  }

  lemma {:induction false} ChaseLeaks(w: World, root: Node, out: Node, base: map<nat, Desc>, k: Kernel,
                                      pfd: nat, owned: bool, name: string, budget: nat, prev: string)
    returns (v: World)
    requires w.Valid() && name != ".." && Anchored(w, root, base, k, pfd, owned)
    requires owned <==> |Components(prev)| > 1
    requires LosesAnchor([prev] + Followed(w, k, pfd, owned, name, budget), budget) && !Under(w, root, out)
    ensures v.Valid() && SameButOthers(w, v) && SameUntil(w, v, k.clock)
    ensures !ContainedSince(v, root, base.Keys, k, Chase(v, k, pfd, owned, name, budget).0)
    decreases budget
  {
    TurnSound(w, root, base, k, pfd, owned, name);
    var (k1, turn) := TakeTurn(w, k, pfd, owned, name);
    var p := turn.p;
    FollowedTail(w, k, pfd, owned, name, budget, prev);
    if Lost(base, k1, p.fd, p.owned) {
      v := Reuse(w, k1.clock, p.fd, out);
      ReuseIs(w, k1.clock, p.fd, out);
      UnderSame(w, v, root, out);
      ChaseGoesOut(v, root, out, base.Keys, k1, p.fd, p.name, budget - 1);
    } else {
      v := ChaseLeaks(w, root, out, base, k1, p.fd, p.owned, p.name, budget - 1, turn.text);
    }
    TurnSame(w, v, k1.clock, k, pfd, owned, name);
    TurnConserves(v, base, k, pfd, owned, name);
    ChaseConserves(v, base, k1, p.fd, p.owned, p.name, budget - 1);
    EarlierLeaks(v, root, base.Keys, k, k1, Chase(v, k1, p.fd, p.owned, p.name, budget - 1).0);
  }

  lemma EarlierLeaks(w: World, root: Node, kept: set<nat>, a: Kernel, b: Kernel, c: Kernel)
    requires a.log <= b.log <= c.log && !ContainedSince(w, root, kept, b, c)
    ensures !ContainedSince(w, root, kept, a, c)
  {
  }

  /** Where the anchor is lost, some other thread's descriptor makes the loop look a name up outside the
      preopen, in a world that differs in nothing else. */
  lemma ResolveFinalLeaks(w: World, root: Node, out: Node, k: Kernel, base: nat, path: string) returns (v: World)
    requires w.Valid() && base in k.fds && (k.fds[base].DirDesc? ==> k.fds[base].dir == root)
    requires LosesAnchor(Texts(w, k, base, path), MAX_SYMLINKS) && !Under(w, root, out)
    ensures v.Valid() && SameButOthers(w, v) && SameUntil(w, v, k.clock)
    ensures !ContainedSince(v, root, k.fds.Keys, k, ResolveFinal(v, k, base, path).0)
  {
    assert At(w, root, root, 0);
    WalkParentSound(w, root, k, base, path);
    var (k1, p) := WalkParent(w, k, base, path);
    v := ChaseLeaks(w, root, out, k.fds, k1, p.fd, p.owned, p.name, MAX_SYMLINKS, path);
    WalkParentSame(w, v, k1.clock, k, base, path);
    ParentConserves(v, k, base, path);
    ChaseConserves(v, k.fds, k1, p.fd, p.owned, p.name, MAX_SYMLINKS);
    EarlierLeaks(v, root, k.fds.Keys, k, k1, Chase(v, k1, p.fd, p.owned, p.name, MAX_SYMLINKS).0);
  }

  ghost predicate AlwaysContained(w: World, root: Node, k: Kernel, base: nat, path: string) {
    forall v :: SameButOthers(w, v) && v.Valid() ==>
      ContainedSince(v, root, k.fds.Keys, k, ResolveFinal(v, k, base, path).0)
  }

  /** `resolve_final` stays inside the preopen whatever other threads open and close if and only if, in any one of
      those worlds, it does not follow a bare name read in a directory it had opened and then read on. */
  lemma ContainedExactly(w: World, root: Node, out: Node, k: Kernel, base: nat, path: string)
    requires w.Valid() && base in k.fds && (k.fds[base].DirDesc? ==> k.fds[base].dir == root)
    requires !Under(w, root, out)
    ensures AlwaysContained(w, root, k, base, path) <==> !LosesAnchor(Texts(w, k, base, path), MAX_SYMLINKS)
  {
    if LosesAnchor(Texts(w, k, base, path), MAX_SYMLINKS) {
      var leak := ResolveFinalLeaks(w, root, out, k, base, path);
      assert SameButOthers(w, leak);
    } else {
      forall v | SameButOthers(w, v) && v.Valid()
        ensures ContainedSince(v, root, k.fds.Keys, k, ResolveFinal(v, k, base, path).0)
      {
        LosesAlike(w, v, k, base, k, base, path);
        ResolveFinalSound(v, root, k, base, path);
      }
    }
  }

  // ------------------------------------------------------------ a whole operation

  /** What is asked of `path_op`: whether it follows a final link, the size of its argument, and whether the
      operation is one it knows with an argument it can decode. */
  datatype Op = Op(follow: bool, argSize: nat, known: bool)

  datatype Outcome = Done | Refusal(e: Errno) | BadArg

  function OutcomeOf(f: Fault): Outcome {
    if f.NoFault? then Done else Refusal(f.e)
  }

  /** What `path_op` finds to act on: the operations that follow a final link resolve it first. */
  function Locating(w: World, k: Kernel, base: nat, path: string, op: Op): (Kernel, Parented) {
    if op.follow then ResolveFinal(w, k, base, path) else WalkParent(w, k, base, path)
  }

  function Acting(w: World, k: Kernel, base: nat, path: string, op: Op): (Kernel, Outcome) {
    var (k1, p) := Locating(w, k, base, path, op);
    if p.NoParent? then (k1, Refusal(p.e))
    else if !op.known then (CloseIf(k1, p.owned, p.fd), BadArg)
    else
      var (k2, f) := ActAt(w, k1, p.fd, p.name);
      (CloseIf(k2, p.owned, p.fd), OutcomeOf(f))
  }

  /** The sizes that are refused before anything is opened. */
  predicate Oversized(path: string, op: Op) { |path| > MAX_TEXT || op.argSize > MAX_TEXT }

  /** `path_op`, on a copy of the directory's descriptor that it closes again. */
  function PathOp(w: World, k: Kernel, dir: nat, path: string, op: Op): (Kernel, Outcome) {
    if Oversized(path, op) then (k, Refusal(ENAMETOOLONG))
    else
      var (k1, d) := Dup(w, k, dir);
      if d.OpenFailed? then (k1, Refusal(d.e))
      else
        var (k2, r) := Acting(w, k1, d.fd, path, op);
        (Close(k2, d.fd), r)
  }

  lemma CloseRestores(base: map<nat, Desc>, k: Kernel, fd: nat, owned: bool)
    requires Held(base, k, fd, owned)
    ensures CloseIf(k, owned, fd).fds == base && OnlyOurs(base.Keys, k, CloseIf(k, owned, fd))
  {
    if owned {
      assert base[fd := k.fds[fd]] - {fd} == base;
    }
  }

  lemma LocatingConserves(w: World, k: Kernel, base: nat, path: string, op: Op)
    requires w.Valid()
    ensures var (k', p) := Locating(w, k, base, path, op);
      ParentConserved(k.fds, k, k', p)
  {
    ParentConserves(w, k, base, path);
    ResolveFinalConserves(w, k, base, path);
  }

  lemma ActingConserves(w: World, k: Kernel, base: nat, path: string, op: Op)
    requires w.Valid()
    ensures var (k', _) := Acting(w, k, base, path, op);
      && k'.fds == k.fds && OnlyOurs(k.fds.Keys, k, k')
      && Locating(w, k, base, path, op).0.log <= k'.log
  {
    LocatingConserves(w, k, base, path, op);
    var (k1, p) := Locating(w, k, base, path, op);
    if p.Parent? {
      var k2 := if op.known then ActAt(w, k1, p.fd, p.name).0 else k1;
      CloseRestores(k.fds, k2, p.fd, p.owned);
      OnlyOursJoins(k.fds.Keys, k, k1, k2);
      OnlyOursJoins(k.fds.Keys, k, k2, CloseIf(k2, p.owned, p.fd));
    }
  }

  /** Whatever other threads do, `path_op` leaves the open set as it was and closes nothing but what it opened. */
  lemma PathOpConserves(w: World, k: Kernel, dir: nat, path: string, op: Op)
    requires w.Valid()
    ensures var (k', _) := PathOp(w, k, dir, path, op);
      k'.fds == k.fds && OnlyOurs(k.fds.Keys, k, k')
  {
    var (k1, d) := Dup(w, k, dir);
    if d.Opened? && !Oversized(path, op) {
      assert k1.fds - {d.fd} == k.fds;
      ActingConserves(w, k1, d.fd, path, op);
    }
  }

  lemma ActingContained(w: World, root: Node, k: Kernel, base: nat, path: string, op: Op)
    requires w.Valid() && base in k.fds && (k.fds[base].DirDesc? ==> k.fds[base].dir == root)
    requires op.follow ==> Clear(w, Texts(w, k, base, path), MAX_SYMLINKS)
    ensures ContainedSince(w, root, k.fds.Keys, k, Acting(w, k, base, path, op).0)
  {
    var (k1, p) := Locating(w, k, base, path, op);
    if op.follow {
      ResolveFinalSound(w, root, k, base, path);
    } else {
      assert At(w, root, root, 0);
      WalkParentSound(w, root, k, base, path);
      SafeBelow(w, root, root, k.fds.Keys, k.fds.Keys, k, k1);
    }
    if p.Parent? {
      var (k2, _) := ActAt(w, k1, p.fd, p.name);
      ContainedJoins(w, root, k.fds.Keys, k, k1, k2);
    }
  }

  /** And all of it is inside the preopen, the name acted on included, if no closed number is used. */
  lemma PathOpContained(w: World, root: Node, k: Kernel, dir: nat, path: string, op: Op)
    requires w.Valid() && dir in k.fds && (k.fds[dir].DirDesc? ==> k.fds[dir].dir == root)
    requires w.Alone() || !OpLoses(w, k, dir, path, op)
    ensures ContainedSince(w, root, k.fds.Keys, k, PathOp(w, k, dir, path, op).0)
  {
    var (k1, d) := Dup(w, k, dir);
    if d.Opened? && !Oversized(path, op) {
      ActingContained(w, root, k1, d.fd, path, op);
      ActingConserves(w, k1, d.fd, path, op);
      FewerKept(w, root, k.fds.Keys, k1.fds.Keys, k1, Acting(w, k1, d.fd, path, op).0);
    }
  }

  lemma FewerKept(w: World, root: Node, kept: set<nat>, more: set<nat>, k: Kernel, k': Kernel)
    requires ContainedSince(w, root, more, k, k') && kept <= more
    ensures ContainedSince(w, root, kept, k, k')
  {
    forall i | |k.log| <= i < |k'.log| ensures Contained(w, root, kept, k'.log[i]) {
      assert Contained(w, root, more, k'.log[i]);
    }
  }

  /** The operation follows a bare name read in a directory it had opened, and then reads on. */
  predicate OpLoses(w: World, k: Kernel, dir: nat, path: string, op: Op) {
    var (k1, d) := Dup(w, k, dir);
    op.follow && !Oversized(path, op) && d.Opened? && LosesAnchor(Texts(w, k1, d.fd, path), MAX_SYMLINKS)
  }

  /** The copy of the directory's descriptor is a twin in every such world. */
  lemma OpLosesAlike(w: World, v: World, k: Kernel, dir: nat, path: string, op: Op)
    requires w.Valid() && v.Valid() && SameButOthers(w, v) && dir in k.fds
    ensures OpLoses(w, k, dir, path, op) == OpLoses(v, k, dir, path, op)
  {
    var (k1, d) := Dup(w, k, dir);
    var (l1, e) := Dup(v, k, dir);
    if d.Opened? { LosesAlike(w, v, k1, d.fd, l1, e.fd, path); }
  }

  ghost predicate OpAlwaysContained(w: World, root: Node, k: Kernel, dir: nat, path: string, op: Op) {
    forall v :: SameButOthers(w, v) && v.Valid() ==>
      ContainedSince(v, root, k.fds.Keys, k, PathOp(v, k, dir, path, op).0)
  }

  /** The same bound for the whole operation: contained whatever other threads do if and only if, in any one of
      those worlds, it does not lose its anchor. */
  lemma PathOpContainedExactly(w: World, root: Node, out: Node, k: Kernel, dir: nat, path: string, op: Op)
    requires w.Valid() && dir in k.fds && (k.fds[dir].DirDesc? ==> k.fds[dir].dir == root)
    requires !Under(w, root, out)
    ensures OpAlwaysContained(w, root, k, dir, path, op) <==> !OpLoses(w, k, dir, path, op)
  {
    if OpLoses(w, k, dir, path, op) {
      var leak := PathOpLeaks(w, root, out, k, dir, path, op);
      assert SameButOthers(w, leak);
    } else {
      forall v | SameButOthers(w, v) && v.Valid()
        ensures ContainedSince(v, root, k.fds.Keys, k, PathOp(v, k, dir, path, op).0)
      {
        OpLosesAlike(w, v, k, dir, path, op);
        PathOpContained(v, root, k, dir, path, op);
      }
    }
  }

  lemma PathOpLeaks(w: World, root: Node, out: Node, k: Kernel, dir: nat, path: string, op: Op) returns (v: World)
    requires w.Valid() && dir in k.fds && (k.fds[dir].DirDesc? ==> k.fds[dir].dir == root)
    requires OpLoses(w, k, dir, path, op) && !Under(w, root, out)
    ensures v.Valid() && SameButOthers(w, v)
    ensures !ContainedSince(v, root, k.fds.Keys, k, PathOp(v, k, dir, path, op).0)
  {
    var (k1, d) := Dup(w, k, dir);
    v := ResolveFinalLeaks(w, root, out, k1, d.fd, path);
    assert Dup(v, k, dir) == (k1, d);
    ActingConserves(v, k1, d.fd, path, op);
    ResolveFinalConserves(v, k1, d.fd, path);
    var k2 := ResolveFinal(v, k1, d.fd, path).0;
    LooksOut(v, root, k1.fds.Keys, k.fds.Keys, k1, k2);
    EarlierLeaks(v, root, k.fds.Keys, k, k1, k2);
    LaterLeaks(v, root, k.fds.Keys, k, k2, PathOp(v, k, dir, path, op).0);
  }

  lemma LaterLeaks(w: World, root: Node, kept: set<nat>, a: Kernel, b: Kernel, c: Kernel)
    requires a.log <= b.log <= c.log && !ContainedSince(w, root, kept, a, b)
    ensures !ContainedSince(w, root, kept, a, c)
  {
  }

  /** When only our own descriptors are closed, what is not contained is a name. */
  lemma LooksOut(w: World, root: Node, kept: set<nat>, fewer: set<nat>, k: Kernel, k': Kernel)
    requires OnlyOurs(kept, k, k') && !ContainedSince(w, root, kept, k, k') && fewer <= kept
    ensures !ContainedSince(w, root, fewer, k, k')
  {
    var i :| |k.log| <= i < |k'.log| && !Contained(w, root, kept, k'.log[i]);
    assert !k'.log[i].Dropped?;
    assert !Contained(w, root, fewer, k'.log[i]);
  }

  // ------------------------------------------------------------ an input

  /** A preopen 0 with a directory `d`, 1, in which `l` links to the plain file `f`, 2. */
  function LinkBeside(): World {
    World(n => if n == 1 then 0 else n, n => if n == 1 then 1 else 0,
          _ => map[(0, "d") := EDir(1), (1, "l") := ELink("f"), (1, "f") := EFile(2)],
          _ => NoFault, _ => 3, (_, s) => Unused(s), (_, _) => map[])
  }

  function Unused(s: set<nat>): (n: nat)
    ensures n !in s
  {
    Above(s, 0)
  }

  function Above(s: set<nat>, from: nat): (n: nat)
    ensures n !in s && n >= from
    decreases s
  {
    if from in s then Above(s - {from}, from + 1) else from
  }

  lemma LinkBesideIsValid()
    ensures LinkBeside().Valid() && LinkBeside().Alone()
  {
    var w := LinkBeside();
    forall t, k | k in w.table(t) ensures k.1 != "." && k.1 != ".." && w.ChildOf(k.0, w.table(t)[k]) {}
  }

  lemma TwoNames()
    ensures Components("d/l") == ["d", "l"] && Components("f") == ["f"]
  {
    assert Split("d/l", "") == Split("/l", "d") by { assert "d/l"[1..] == "/l" && "" + ['d'] == "d"; }
    assert Split("/l", "d") == ["d"] + Split("l", "") by { assert "/l"[1..] == "l"; }
    assert Split("l", "") == Split("", "l") by { assert "l"[1..] == "" && "" + ['l'] == "l"; }
    assert Split("f", "") == Split("", "f") by { assert "f"[1..] == "" && "" + ['f'] == "f"; }
  }

  /** There, following `d/l` answers a number that has been closed. */
  lemma AnswersClosed(k: Kernel)
    requires 0 in k.fds && k.fds[0] == DirDesc(0)
    ensures var (k', p) := ResolveFinal(LinkBeside(), k, 0, "d/l");
      p.Parent? && p.fd !in k'.fds
  {
    var w := LinkBeside();
    LinkBesideIsValid();
    TwoNames();
    var (k1, p) := WalkParent(w, k, 0, "d/l");
    assert ["d", "l"][..1] == ["d"];
    var (k2, r) := Step(w, k, 0, "d", DIRECTORY, 0, MAX_SYMLINKS, true);
    assert r.Walked? && k2.fds[r.fd] == DirDesc(1);
    assert WalkRest(w, k2, r.fd, true, [], DIRECTORY, 1, MAX_SYMLINKS, true) == (k2, Walked(r.fd, 1));
    assert (k1, p) == (k2, Parent(r.fd, true, "l"));
    var (k3, turn) := TakeTurn(w, k1, p.fd, true, "l");
    assert turn == Hop("f", Parent(p.fd, false, "f"));
    FollowedTail(w, k1, p.fd, true, "l", MAX_SYMLINKS, "d/l");
    assert LosesAnchor(Texts(w, k, 0, "d/l"), MAX_SYMLINKS);
    ResolveFinalAnchor(w, 0, k, 0, "d/l");
  }
}
