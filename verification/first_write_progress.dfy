/**
 * A first write gets there: an agent that nobody disturbs, and that the keeper
 * does not refuse, holds its word after finitely many steps of its own, wherever
 * the others were when they stopped.
 */
module FirstWriteProgress {
  import opened PagedMemory
  import opened FirstWrite

  /** Steps of one agent alone. */
  function Nexts(t: nat, n: nat): seq<Action> {
    if n == 0 then [] else [Next(t, true)] + Nexts(t, n - 1)
  }

  /** After n steps of its own the agent is about to write word i. */
  ghost predicate There(s: State, t: nat, i: nat, n: nat)
    requires Inv(s)
  {
    var end := Run(s, Nexts(t, n));
    t < |end.agents| && end.agents[t].pc.Holding? && end.agents[t].pc.i == i
  }

  /** One step more. */
  lemma OneNext(s: State, t: nat, i: nat, after: State, n: nat)
    requires Inv(s) && Inv(after) && after == Step(s, Next(t, true)) && There(after, t, i, n)
    ensures There(s, t, i, n + 1)
  {
    assert Nexts(t, n + 1)[1..] == Nexts(t, n);
  }

  lemma Arrived(s: State, t: nat, i: nat)
    requires Inv(s) && t < |s.agents| && s.agents[t].pc.Holding? && s.agents[t].pc.i == i
    ensures There(s, t, i, 0)
  {
  }

  lemma Stepped(s: State, t: nat) returns (after: State)
    requires Inv(s) && t < |s.agents|
    ensures after == Step(s, Next(t, true)) && Inv(after) && |after.agents| == |s.agents|
    ensures after == Advance(s, t, true)
  {
    after := Step(s, Next(t, true));
    StepSafe(s, Next(t, true));
  }

  lemma FromPublishing(s: State, t: nat) returns (n: nat)
    requires Inv(s) && t < |s.agents| && s.agents[t].pc.Publishing?
    ensures There(s, t, s.agents[t].pc.i, n)
  {
    Within(s, t);
    var i := s.agents[t].pc.i;
    var after := Stepped(s, t);
    Arrived(after, t, i);
    OneNext(s, t, i, after, 0);
    n := 1;
  }

  lemma {:induction false} FromFilling(s: State, t: nat) returns (n: nat)
    requires Inv(s) && t < |s.agents| && s.agents[t].pc.Filling?
    ensures There(s, t, s.agents[t].pc.i, n)
    decreases 512 - s.agents[t].pc.x
  {
    Within(s, t);
    var i := s.agents[t].pc.i;
    var after := Stepped(s, t);
    if after.agents[t].pc.Filling? {
      n := FromFilling(after, t);
    } else {
      n := FromPublishing(after, t);
    }
    OneNext(s, t, i, after, n);
    n := n + 1;
  }

  lemma FromTaking(s: State, t: nat) returns (n: nat)
    requires Inv(s) && t < |s.agents| && s.agents[t].pc.Taking? && s.agents[t].pc.n == s.m.claimed
    ensures There(s, t, s.agents[t].pc.i, n)
  {
    Within(s, t);
    var i := s.agents[t].pc.i;
    var after := Stepped(s, t);
    n := FromFilling(after, t);
    OneNext(s, t, i, after, n);
    n := n + 1;
  }

  /** There is room for one slot more. */
  predicate Room(m: Mem, chunks: nat) { m.claimed + 1 <= ArenaSlots(chunks) }

  lemma FromClaimingWithRoom(s: State, t: nat) returns (n: nat)
    requires Inv(s) && t < |s.agents| && s.agents[t].pc.Claiming? && Room(s.m, s.m.published)
    ensures There(s, t, s.agents[t].pc.i, n)
  {
    Within(s, t);
    var i := s.agents[t].pc.i;
    var s1 := Stepped(s, t);
    Within(s1, t);
    var s2 := Stepped(s1, t);
    n := FromTaking(s2, t);
    OneNext(s1, t, i, s2, n);
    OneNext(s, t, i, s1, n + 1);
    n := n + 2;
  }

  lemma MoreChunksMoreSlots(j: nat, k: nat)
    requires j <= k
    ensures ArenaSlots(j) <= ArenaSlots(k)
  {
    if j < k { ArenaGrows(j, k); }
  }

  lemma FromRaising(s: State, t: nat) returns (n: nat)
    requires Inv(s) && t < |s.agents| && s.agents[t].pc.Raising? && Room(s.m, s.agents[t].pc.to)
    ensures There(s, t, s.agents[t].pc.i, n)
  {
    Within(s, t);
    var i, to := s.agents[t].pc.i, s.agents[t].pc.to;
    var s1 := Stepped(s, t);
    if s.m.published >= to {
      MoreChunksMoreSlots(to, s.m.published);
      n := FromClaimingWithRoom(s1, t);
    } else {
      Within(s1, t);
      var s2 := Stepped(s1, t);
      n := FromClaimingWithRoom(s2, t);
      OneNext(s1, t, i, s2, n);
      n := n + 1;
    }
    OneNext(s, t, i, s1, n);
    n := n + 1;
  }

  lemma FromExtending(s: State, t: nat) returns (n: nat)
    requires Inv(s) && t < |s.agents| && s.agents[t].pc.Extending? && Room(s.m, s.agents[t].pc.target)
    ensures There(s, t, s.agents[t].pc.i, n)
    decreases if |s.m.arena| >= s.agents[t].pc.target then 0 else 1
  {
    Within(s, t);
    var i, target := s.agents[t].pc.i, s.agents[t].pc.target;
    var s1 := Stepped(s, t);
    if |s.m.arena| >= target {
      MoreChunksMoreSlots(target, |s.m.arena|);
      n := FromRaising(s1, t);
    } else {
      n := FromExtending(s1, t);
    }
    OneNext(s, t, i, s1, n);
    n := n + 1;
  }

  lemma FromClaiming(s: State, t: nat) returns (n: nat)
    requires Inv(s) && t < |s.agents| && s.agents[t].pc.Claiming?
    ensures There(s, t, s.agents[t].pc.i, n)
  {
    if Room(s.m, s.m.published) {
      n := FromClaimingWithRoom(s, t);
    } else {
      Within(s, t);
      var i := s.agents[t].pc.i;
      var s1 := Stepped(s, t);
      Within(s1, t);
      var s2 := Stepped(s1, t);
      LocatedNames(s.m.claimed + 1);
      n := FromExtending(s2, t);
      OneNext(s1, t, i, s2, n);
      OneNext(s, t, i, s1, n + 1);
      n := n + 2;
    }
  }

  /** From the moment it wants a word of the memory to write it. */
  lemma FromWanting(s: State, t: nat) returns (n: nat)
    requires Inv(s) && t < |s.agents| && s.agents[t].pc.Wanting? && s.agents[t].pc.write
    requires s.agents[t].pc.i < 8192 * s.m.pages
    ensures There(s, t, s.agents[t].pc.i, n)
  {
    Within(s, t);
    var i := s.agents[t].pc.i;
    var after := Stepped(s, t);
    if after.agents[t].pc.Claiming? {
      n := FromClaiming(after, t);
    } else {
      Arrived(after, t, i);
      n := 0;
    }
    OneNext(s, t, i, after, n);
    n := n + 1;
  }

  /** An idle agent that sets out to write any word of the memory gets to hold it, by steps of its own alone. */
  lemma WriteGetsThere(s: State, t: nat, i: nat) returns (n: nat)
    requires Inv(s) && t < |s.agents| && s.agents[t].pc.Idle? && i < 8192 * s.m.pages
    ensures Inv(Step(s, Access(t, i, true))) && There(Step(s, Access(t, i, true)), t, i, n)
  {
    Within(s, t);
    StepSafe(s, Access(t, i, true));
    var after := Step(s, Access(t, i, true));
    if after.agents[t].pc.Wanting? {
      n := FromWanting(after, t);
    } else {
      Arrived(after, t, i);
      n := 0;
    }
  }
}
