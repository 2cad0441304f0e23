/**
 When `resolve_final` stays inside the preopen, read off the tree and the path.

 On a file system nobody changes, whether the loop closes a directory and goes on
 reading through its number is a matter of the tree and the path alone. So is
 then whether it stays inside whatever other threads do.
 */
module WasiAnchor {
  import opened WasiChain
  import opened WasiFinal
  import opened WasiHops
  import opened WasiKernel
  import opened WasiResolve
  import opened WasiReuse
  import opened WasiWalk

  lemma StopKeeps(w: World, root: Node, base: map<nat, Desc>, k: Kernel, pfd: nat, owned: bool, name: string,
                  budget: nat, prev: string)
    requires w.Valid() && Still(w) && budget > 0
    requires name != ".." && Anchored(w, root, base, k, pfd, owned) && k.fds[pfd].DirDesc?
    requires TakeTurn(w, k, pfd, owned, name).1.Stop?
    ensures !LosesAnchor([prev] + Followed(w, k, pfd, owned, name, budget), budget)
    ensures !Answered(w, root, k.fds[pfd].dir, owned, name, budget).Nowhere?
  {
    TurnLands(w, root, base, k, pfd, owned, name);
    AnsweredTurns(w, root, k.fds[pfd].dir, owned, name, budget);
    var text := if IsLink(w, k.fds[pfd].dir, name) then TextOf(w, k.fds[pfd].dir, name) else "";
    ReachedSomewhere(w, root, k.fds[pfd].dir, text);
  }

  lemma HopKeeps(w: World, root: Node, base: map<nat, Desc>, k: Kernel, pfd: nat, owned: bool, name: string,
                 budget: nat, prev: string)
    requires w.Valid() && Still(w) && budget > 0 && (owned <==> |Components(prev)| > 1)
    requires name != ".." && Anchored(w, root, base, k, pfd, owned) && k.fds[pfd].DirDesc?
    requires TakeTurn(w, k, pfd, owned, name).1.Hop?
    requires var (k1, turn) := TakeTurn(w, k, pfd, owned, name);
      var p := turn.p;
      Lost(base, k1, p.fd, p.owned)
      || (p.fd in k1.fds && k1.fds[p.fd].DirDesc?
          && (LosesAnchor([turn.text] + Followed(w, k1, p.fd, p.owned, p.name, budget - 1), budget - 1)
              <==> Answered(w, root, k1.fds[p.fd].dir, p.owned, p.name, budget - 1).Nowhere?))
    ensures LosesAnchor([prev] + Followed(w, k, pfd, owned, name, budget), budget)
       <==> Answered(w, root, k.fds[pfd].dir, owned, name, budget).Nowhere?
  {
    TurnLands(w, root, base, k, pfd, owned, name);
    TurnSound(w, root, base, k, pfd, owned, name);
    FollowedTail(w, k, pfd, owned, name, budget, prev);
    AnsweredTurns(w, root, k.fds[pfd].dir, owned, name, budget);
  }

  lemma {:induction false} ChaseKeeps(w: World, root: Node, base: map<nat, Desc>, k: Kernel, pfd: nat, owned: bool,
                                      name: string, budget: nat, prev: string)
    requires w.Valid() && Still(w) && (owned <==> |Components(prev)| > 1)
    requires name != ".." && Anchored(w, root, base, k, pfd, owned) && k.fds[pfd].DirDesc?
    ensures LosesAnchor([prev] + Followed(w, k, pfd, owned, name, budget), budget)
       <==> Answered(w, root, k.fds[pfd].dir, owned, name, budget).Nowhere?
    decreases budget
  {
    if budget > 0 {
      var (k1, turn) := TakeTurn(w, k, pfd, owned, name);
      var p := turn.p;
      if turn.Stop? {
        StopKeeps(w, root, base, k, pfd, owned, name, budget, prev);
      } else {
        TurnSound(w, root, base, k, pfd, owned, name);
        TurnLands(w, root, base, k, pfd, owned, name);
        if !Lost(base, k1, p.fd, p.owned) {
          ChaseKeeps(w, root, base, k1, p.fd, p.owned, p.name, budget - 1, turn.text);
        }
        HopKeeps(w, root, base, k, pfd, owned, name, budget, prev);
      }
    }
  }

  /** On a file system nobody changes the anchor is lost exactly when the loop, followed on the tree from the path,
      reads a bare name in a directory that a longer text opened. No thread and no number comes into it. */
  lemma LosesOnTree(w: World, root: Node, k: Kernel, base: nat, path: string)
    requires w.Valid() && Still(w) && base in k.fds && k.fds[base] == DirDesc(root)
    ensures LosesAnchor(Texts(w, k, base, path), MAX_SYMLINKS) <==> AnswerOf(w, root, path).Nowhere?
  {
    assert At(w, root, root, 0);
    var (k1, p) := WalkParent(w, k, base, path);
    if Proper(path) {
      ParentLands(w, root, k, base, 0, path);
    }
    LandsOnNames(w, k, base, path);
    WalkParentSound(w, root, k, base, path);
    ReachedSomewhere(w, root, root, path);
    if p.Parent? {
      ChaseKeeps(w, root, k.fds, k1, p.fd, p.owned, p.name, MAX_SYMLINKS, path);
    }
  }

  /** So `resolve_final` stays inside the preopen, whatever other threads open and close, exactly on the trees and
      paths where that does not happen. */
  lemma ContainedOnTree(w: World, root: Node, out: Node, k: Kernel, base: nat, path: string)
    requires w.Valid() && Still(w) && base in k.fds && k.fds[base] == DirDesc(root) && !Under(w, root, out)
    ensures AlwaysContained(w, root, k, base, path) <==> !AnswerOf(w, root, path).Nowhere?
  {
    ContainedExactly(w, root, out, k, base, path);
    LosesOnTree(w, root, k, base, path);
  }

  /** And a whole operation, which does it only if it follows the last link and its arguments fit. */
  lemma PathOpContainedOnTree(w: World, root: Node, out: Node, k: Kernel, dir: nat, path: string, op: Op)
    requires w.Valid() && Still(w) && dir in k.fds && k.fds[dir] == DirDesc(root) && !Under(w, root, out)
    ensures OpAlwaysContained(w, root, k, dir, path, op)
       <==> !op.follow || Oversized(path, op) || !AnswerOf(w, root, path).Nowhere?
  {
    PathOpContainedExactly(w, root, out, k, dir, path, op);
    var (k1, d) := Dup(w, k, dir);
    assert w.fault(k.clock) == NoFault;
    LosesOnTree(w, root, k1, d.fd, path);
  }
}
