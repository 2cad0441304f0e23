/**
 * Any number of agents reading, writing and growing one memory at once.
 *
 * A first write to an image page claims a slot, copies the page into it word
 * by word and publishes it with a compare-and-exchange; another agent can come
 * between any two of these steps, fault the same page, extend the arena or grow
 * the memory. Each agent also has its own handle, which goes stale, and the
 * two-entry translation cache of generated code, which nothing ever invalidates.
 */
module FirstWrite {
  import opened Words
  import opened PagedMemory
  import opened MemorySteps
  import opened Translations

  /** What an agent does next. `i` is the word it is after. */
  datatype Pc =
    | Idle
    | Wanting(i: nat, write: bool)               // the helper: look the page up
    | Claiming(i: nat)                           // read the last slot claimed
    | Claimed(i: nat, n: nat)                    // it was n; read how many chunks there are
    | Taking(i: nat, n: nat)                     // there is room: exchange n for n + 1
    | Extending(i: nat, target: nat)             // there is not: look at the published cell
    | Raising(i: nat, to: nat)                   // the cell has them: read the count
    | RaisingFrom(i: nat, to: nat, was: nat)     // exchange was for to
    | Filling(i: nat, e: nat, x: nat)            // copy word x of the page
    | Publishing(i: nat, e: nat)                 // exchange 0 for e in the page table
    | Holding(i: nat, ref: Ref, index: nat)      // read or write the word itself

  datatype Agent = Agent(pc: Pc, first: Entry, second: Entry, handle: Handle)

  datatype State = State(m: Mem, agents: seq<Agent>)

  datatype Action =
    | Access(t: nat, i: nat, write: bool)
    | Next(t: nat, granted: bool)
    | Write(t: nat, v: Word)
    | Leave(t: nat)
    | Refresh(t: nat)
    | GrowBy(t: nat, delta: nat)

  // ----- the steps -----

  function Goto(s: State, t: nat, pc: Pc): State
    requires t < |s.agents|
  {
    s.(agents := s.agents[t := s.agents[t].(pc := pc)])
  }

  /** An access starts: a hit on either entry, or the ordinary way, which refills the cache on an array. */
  function Begin(s: State, t: nat, i: nat, write: bool): State
    requires t < |s.agents| && Valid(s.m) && HandleOk(s.m, s.agents[t].handle)
  {
    var a := s.agents[t];
    if i / 512 == a.first.page then
      Goto(s, t, Holding(i, a.first.ref, a.first.base + i % 512))
    else if i / 512 == a.second.page then
      s.(agents := s.agents[t := Agent(Holding(i, a.second.ref, a.second.base + i % 512), a.second, a.first, a.handle)])
    else Miss(s, t, i, write)
  }

  function Miss(s: State, t: nat, i: nat, write: bool): State
    requires t < |s.agents| && Valid(s.m) && HandleOk(s.m, s.agents[t].handle)
  {
    if i >= 8192 * s.agents[t].handle.pages then
      Goto(s, t, Wanting(i, write))
    else if i >= 8192 * |s.m.img| then
      PageInChunk(s.m.shift, i);
      Refill(s, t, i, Chunk(ChunkAt(s.m.shift, i)), IndexAt(s.m.shift, i))
    else
      var e := s.m.tab[i / 512];
      if e == 0 then (if write then Goto(s, t, Wanting(i, write)) else s)
      else if ChunkIn(e) <= s.agents[t].handle.arena then
        Refill(s, t, i, Arena(ChunkIn(e) - 1), IndexIn(e) * 512 + i % 512)
      else Goto(s, t, Wanting(i, write))
  }

  function Refill(s: State, t: nat, i: nat, ref: Ref, index: nat): State
    requires t < |s.agents| && i % 512 <= index
  {
    var a := s.agents[t];
    var entry := Entry(i / 512, ref, index - i % 512);
    s.(agents := s.agents[t := Agent(Holding(i, ref, index), entry, a.first, a.handle)])
  }

  /** The helper finds the page. A read of an untouched page takes the image's bytes and is over. */
  function Look(s: State, t: nat, i: nat, write: bool): State
    requires t < |s.agents| && Valid(s.m)
  {
    if i >= 8192 * s.m.pages then Goto(s, t, Idle)
    else match PlaceOf(s.m, i)
         case At(ref, index) => Goto(s, t, Holding(i, ref, index))
         case InImage => Goto(s, t, if write then Claiming(i) else Idle)
  }

  /** Word `x` of the page is copied; a page of zeros is not, since a fresh slot is zero. */
  ghost function Fill(s: State, t: nat, i: nat, e: nat, x: nat): State
    requires t < |s.agents| && Valid(s.m) && InArena(s.m.arena, e) && x < 512 && i < 8192 * |s.m.img|
  {
    if x == 0 && ZeroPage(s.m.img, i / 512) then Goto(s, t, Publishing(i, e)) else Copy(s, t, i, e, x)
  }

  function Copy(s: State, t: nat, i: nat, e: nat, x: nat): State
    requires t < |s.agents| && Valid(s.m) && InArena(s.m.arena, e) && x < 512 && i < 8192 * |s.m.img|
  {
    State(FillWord(s.m, e, x, ImageWord(s.m.img, 512 * (i / 512) + x)),
          s.agents[t := s.agents[t].(pc := if x + 1 == 512 then Publishing(i, e) else Filling(i, e, x + 1))])
  }

  /** A slot is claimed, once the published arena has room for it. */
  function ClaimStep(s: State, t: nat): State
    requires t < |s.agents|
  {
    match s.agents[t].pc
    case Claiming(i) => Goto(s, t, Claimed(i, s.m.claimed))
    case Claimed(i, n) =>
      if n + 1 <= ArenaSlots(s.m.published) then Goto(s, t, Taking(i, n)) else Goto(s, t, Extending(i, ChunkOf(n + 1)))
    case _ => s
  }

  function Take(s: State, t: nat, i: nat, n: nat): State
    requires t < |s.agents|
  {
    if s.m.claimed == n then Goto(s.(m := Claim(s.m)), t, Filling(i, Located(n + 1), 0)) else Goto(s, t, Claiming(i))
  }

  /**
   * The arena is extended, and its count moves only after the cell holds the
   * chunks. `granted` is the keeper's answer.
   */
  function ExtendStep(s: State, t: nat, granted: bool): State
    requires t < |s.agents|
  {
    match s.agents[t].pc
    case Extending(i, target) =>
      if |s.m.arena| >= target then Goto(s, t, Raising(i, |s.m.arena|))
      else if granted then s.(m := Extend(s.m, target))
      else Goto(s, t, Idle)
    case Raising(i, to) =>
      if s.m.published >= to then Goto(s, t, Claiming(i)) else Goto(s, t, RaisingFrom(i, to, s.m.published))
    case RaisingFrom(i, to, was) =>
      if s.m.published == was then Goto(s.(m := Raise(s.m, to)), t, Claiming(i)) else Goto(s, t, Raising(i, to))
    case _ => s
  }

  /** The page is the slot's from now on, unless another agent published it first; then its slot is the one to use. */
  function Publish(s: State, t: nat, i: nat, e: nat): State
    requires t < |s.agents| && i / 512 < |s.m.tab| && ChunkIn(e) >= 1
    requires s.m.tab[i / 512] != 0 ==> ChunkIn(s.m.tab[i / 512]) >= 1
  {
    var p := i / 512;
    if s.m.tab[p] == 0 then
      Goto(s.(m := PublishPage(s.m, p, e)), t, Holding(i, Arena(ChunkIn(e) - 1), IndexIn(e) * 512 + i % 512))
    else
      var winner := s.m.tab[p];
      Goto(s, t, Holding(i, Arena(ChunkIn(winner) - 1), IndexIn(winner) * 512 + i % 512))
  }

  /** One step of an agent that is on its way. */
  ghost function Advance(s: State, t: nat, granted: bool): State
    requires Inv(s) && t < |s.agents|
  {
    Within(s, t);
    match s.agents[t].pc
    case Idle => s
    case Holding(_, _, _) => s
    case Wanting(i, write) => Look(s, t, i, write)
    case Filling(i, e, x) => Fill(s, t, i, e, x)
    case Publishing(i, e) => Publish(s, t, i, e)
    case Claiming(_) => ClaimStep(s, t)
    case Claimed(_, _) => ClaimStep(s, t)
    case Taking(i, n) => Take(s, t, i, n)
    case _ => ExtendStep(s, t, granted)
  }

  ghost function Step(s: State, a: Action): State
    requires Inv(s)
  {
    if a.t >= |s.agents| then s else
    var pc := s.agents[a.t].pc;
    match a
    case Access(t, i, write) => if pc.Idle? then Begin(s, t, i, write) else s
    case Next(t, granted) => Advance(s, t, granted)
    case Write(t, v) =>
      if pc.Holding? then Goto(s.(m := (HoldingExists(s, t); Put(s.m, pc.ref, pc.index, v))), t, Idle) else s
    case Leave(t) => if pc.Holding? then Goto(s, t, Idle) else s
    case Refresh(t) =>
      s.(agents := s.agents[t := s.agents[t].(handle := s.agents[t].handle.(arena := |s.m.arena|))])
    case GrowBy(t, delta) =>
      if !pc.Idle? then s else
      var m := Grow(s.m, delta);
      State(m, s.agents[t := s.agents[t].(handle := s.agents[t].handle.(pages := m.pages, chunks := |m.chunks|))])
  }

  // ----- the invariant -----

  ghost predicate PcOk(m: Mem, pc: Pc)
    requires Valid(m)
  {
    match pc
    case Idle => true
    case Wanting(_, _) => true
    case Claiming(i) => i < 8192 * |m.img|
    case Claimed(i, n) => i < 8192 * |m.img| && n <= m.claimed
    case Taking(i, n) => i < 8192 * |m.img| && n + 1 <= ArenaSlots(m.published)
    case Extending(i, target) => i < 8192 * |m.img|
    case Raising(i, to) => i < 8192 * |m.img| && to <= |m.arena|
    case RaisingFrom(i, to, was) => i < 8192 * |m.img| && was < to <= |m.arena|
    case Filling(i, e, x) => i < 8192 * |m.img| && x < 512 && Spare(m, e) && PartFilled(m, i / 512, e, x)
    case Publishing(i, e) => i < 8192 * |m.img| && Spare(m, e) && Holds(m, i / 512, e)
    case Holding(i, ref, index) => i < 8192 * m.pages && PlaceOf(m, i) == At(ref, index)
  }

  ghost predicate AgentOk(m: Mem, a: Agent)
    requires Valid(m)
  {
    HandleOk(m, a.handle) && Translates(m, a.first) && Translates(m, a.second) && PcOk(m, a.pc)
  }

  predicate Owns(pc: Pc) { pc.Filling? || pc.Publishing? }

  predicate Separate(agents: seq<Agent>) {
    forall t, u :: 0 <= t < u < |agents| && Owns(agents[t].pc) && Owns(agents[u].pc) ==>
      agents[t].pc.e != agents[u].pc.e
  }

  ghost predicate AgentsOk(m: Mem, agents: seq<Agent>)
    requires Valid(m)
  {
    forall t :: 0 <= t < |agents| ==> AgentOk(m, agents[t])
  }

  ghost predicate Inv(s: State) {
    Valid(s.m) && FreshZero(s.m) && ZeroTail(s.m) && AgentsOk(s.m, s.agents) && Separate(s.agents)
  }

  lemma Within(s: State, t: nat)
    requires Inv(s) && t < |s.agents|
    ensures AgentOk(s.m, s.agents[t])
  {
  }

  lemma HoldingExists(s: State, t: nat)
    requires Inv(s) && t < |s.agents| && s.agents[t].pc.Holding?
    ensures var pc := s.agents[t].pc; Exists(s.m, pc.ref) && pc.index < |ArrayAt(s.m, pc.ref)|
  {
    Within(s, t);
    Placed(s.m, s.agents[t].pc.i);
  }

  /** A memory just restored: every page the image's, no slot claimed, nobody under way, every cache empty. */
  ghost predicate Init(s: State) {
    && Valid(s.m) && ZeroTail(s.m)
    && s.m.claimed == 0 && s.m.published == 0 && s.m.arena == []
    && (forall p :: 0 <= p < |s.m.tab| ==> s.m.tab[p] == 0)
    && forall t :: 0 <= t < |s.agents| ==> Starting(s.m, s.agents[t])
  }

  ghost predicate Starting(m: Mem, a: Agent)
    requires Valid(m)
  {
    a.pc == Idle && a.first.page == -1 && a.second.page == -1 && a.handle == Handle(m.pages, |m.chunks|, 0)
  }

  lemma InitHolds(s: State)
    requires Init(s)
    ensures Inv(s)
  {
    forall t | 0 <= t < |s.agents| ensures AgentOk(s.m, s.agents[t]) {
      assert Starting(s.m, s.agents[t]);
    }
  }

  // ----- one agent's step, as the others see it -----

  ghost predicate KeepsSlot(m: Mem, after: Mem, e: nat)
    requires Valid(m) && Valid(after) && InArena(m.arena, e) && InArena(after.arena, e)
  {
    && e !in after.tab
    && forall x: nat :: x < 512 ==> SlotWord(after.arena, e, x) == SlotWord(m.arena, e, x)
  }

  lemma OtherAgent(m: Mem, after: Mem, a: Agent)
    requires Stays(m, after) && AgentOk(m, a)
    requires Owns(a.pc) ==> InArena(m.arena, a.pc.e) && InArena(after.arena, a.pc.e) && KeepsSlot(m, after, a.pc.e)
    ensures AgentOk(after, a)
  {
    if m.published < after.published { ArenaGrows(m.published, after.published); }
    assert HandleOk(after, a.handle);
    assert Translates(after, a.first);
    assert Translates(after, a.second);
    assert PcOk(after, a.pc);
  }

  /** A change to memory leaves alone every slot an agent other than `t` is filling. */
  ghost predicate OthersKeep(s: State, t: nat, after: Mem)
    requires Valid(s.m) && Valid(after)
  {
    forall u :: 0 <= u < |s.agents| && u != t && Owns(s.agents[u].pc) ==>
      && InArena(s.m.arena, s.agents[u].pc.e) && InArena(after.arena, s.agents[u].pc.e)
      && KeepsSlot(s.m, after, s.agents[u].pc.e)
  }

  /** No agent other than `t` is filling the slot `e`. */
  predicate OthersApart(agents: seq<Agent>, t: nat, e: nat) {
    forall u :: 0 <= u < |agents| && u != t && Owns(agents[u].pc) ==> agents[u].pc.e != e
  }

  /** Agent `t` moved on, perhaps changing memory. */
  lemma Moved(s: State, t: nat, after: Mem, a: Agent)
    requires Inv(s) && t < |s.agents| && Stays(s.m, after) && FreshZero(after) && ZeroTail(after)
    requires AgentOk(after, a) && OthersKeep(s, t, after)
    requires Owns(a.pc) ==> OthersApart(s.agents, t, a.pc.e)
    ensures Inv(State(after, s.agents[t := a]))
  {
    var agents := s.agents[t := a];
    forall u | 0 <= u < |agents| ensures AgentOk(after, agents[u]) {
      if u != t {
        Within(s, u);
        OtherAgent(s.m, after, s.agents[u]);
      }
    }
  }

  /** An agent's handle and cache outlive any change. */
  lemma Elsewhere(s: State, t: nat, after: Mem)
    requires Inv(s) && t < |s.agents| && Stays(s.m, after)
    ensures AgentOk(after, s.agents[t].(pc := Idle))
  {
    Within(s, t);
    OtherAgent(s.m, after, s.agents[t].(pc := Idle));
  }

  lemma MovedTo(s: State, t: nat, after: Mem, pc: Pc)
    requires Inv(s) && t < |s.agents| && Stays(s.m, after) && FreshZero(after) && ZeroTail(after)
    requires PcOk(after, pc) && OthersKeep(s, t, after)
    requires Owns(pc) ==> OthersApart(s.agents, t, pc.e)
    ensures Inv(State(after, s.agents[t := s.agents[t].(pc := pc)]))
  {
    Elsewhere(s, t, after);
    Moved(s, t, after, s.agents[t].(pc := pc));
  }

  /** Memory as it is leaves everything alone. */
  lemma Unmoved(s: State, t: nat)
    requires Inv(s) && t < |s.agents|
    ensures Stays(s.m, s.m) && OthersKeep(s, t, s.m)
    ensures Owns(s.agents[t].pc) ==> OthersApart(s.agents, t, s.agents[t].pc.e)
  {
    forall u | 0 <= u < |s.agents| && u != t && Owns(s.agents[u].pc)
      ensures InArena(s.m.arena, s.agents[u].pc.e) && KeepsSlot(s.m, s.m, s.agents[u].pc.e)
    {
      Within(s, u);
    }
  }

  lemma Went(s: State, t: nat, pc: Pc)
    requires Inv(s) && t < |s.agents| && PcOk(s.m, pc)
    requires Owns(pc) ==> OthersApart(s.agents, t, pc.e)
    ensures Inv(Goto(s, t, pc))
  {
    Unmoved(s, t);
    MovedTo(s, t, s.m, pc);
  }

  // ----- the cache -----

  lemma RefillSafe(s: State, t: nat, i: nat, ref: Ref, index: nat)
    requires Inv(s) && t < |s.agents| && i < 8192 * s.m.pages && PlaceOf(s.m, i) == At(ref, index)
    ensures i % 512 <= index && Inv(Refill(s, t, i, ref, index))
  {
    RefillTranslates(s.m, i);
    Unmoved(s, t);
    Within(s, t);
    var a := s.agents[t];
    Moved(s, t, s.m, Agent(Holding(i, ref, index), Entry(i / 512, ref, index - i % 512), a.first, a.handle));
  }

  /** A hit needs no bounds test: its word is in bounds, and is where the entry says. */
  lemma HitIsRight(s: State, t: nat, c: Entry, i: nat)
    requires Inv(s) && t < |s.agents| && (c == s.agents[t].first || c == s.agents[t].second) && i / 512 == c.page
    ensures i < 8192 * s.m.pages && PlaceOf(s.m, i) == At(c.ref, c.base + i % 512)
    ensures Exists(s.m, c.ref) && c.base + i % 512 < |ArrayAt(s.m, c.ref)|
    ensures ArrayAt(s.m, c.ref)[c.base + i % 512] == WordOf(s.m, i)
  {
    Within(s, t);
    assert Translates(s.m, c);
    Placed(s.m, i);
  }

  lemma SecondHit(s: State, t: nat, i: nat)
    requires Inv(s) && t < |s.agents| && i / 512 == s.agents[t].second.page
    ensures var a := s.agents[t];
      Inv(s.(agents := s.agents[t :=
        Agent(Holding(i, a.second.ref, a.second.base + i % 512), a.second, a.first, a.handle)]))
  {
    var a := s.agents[t];
    HitIsRight(s, t, a.second, i);
    Unmoved(s, t);
    Within(s, t);
    Moved(s, t, s.m, Agent(Holding(i, a.second.ref, a.second.base + i % 512), a.second, a.first, a.handle));
  }

  lemma BeginSafe(s: State, t: nat, i: nat, write: bool)
    requires Inv(s) && t < |s.agents| && s.agents[t].pc.Idle?
    ensures AgentOk(s.m, s.agents[t]) && Inv(Begin(s, t, i, write))
  {
    Within(s, t);
    var a := s.agents[t];
    if i / 512 == a.first.page {
      HitIsRight(s, t, a.first, i);
      Went(s, t, Holding(i, a.first.ref, a.first.base + i % 512));
    } else if i / 512 == a.second.page {
      SecondHit(s, t, i);
    } else {
      MissSafe(s, t, i, write);
    }
  }

  lemma MissSafe(s: State, t: nat, i: nat, write: bool)
    requires Inv(s) && t < |s.agents| && s.agents[t].pc.Idle?
    ensures AgentOk(s.m, s.agents[t]) && Inv(Miss(s, t, i, write))
  {
    Within(s, t);
    if i >= 8192 * s.agents[t].handle.pages {
      Went(s, t, Wanting(i, write));
    } else if i >= 8192 * |s.m.img| {
      RefillSafe(s, t, i, Chunk(ChunkAt(s.m.shift, i)), IndexAt(s.m.shift, i));
    } else {
      var e := s.m.tab[i / 512];
      if e != 0 && ChunkIn(e) <= s.agents[t].handle.arena {
        RefillSafe(s, t, i, Arena(ChunkIn(e) - 1), IndexIn(e) * 512 + i % 512);
      } else {
        Went(s, t, Wanting(i, write));
      }
    }
  }

  // ----- the first write -----

  lemma SilentForOthers(s: State, t: nat, after: Mem)
    requires Inv(s) && t < |s.agents| && Stays(s.m, after) && after.tab == s.m.tab && s.m.arena <= after.arena
    ensures OthersKeep(s, t, after)
  {
    forall u | 0 <= u < |s.agents| && u != t && Owns(s.agents[u].pc)
      ensures InArena(s.m.arena, s.agents[u].pc.e) && InArena(after.arena, s.agents[u].pc.e)
           && KeepsSlot(s.m, after, s.agents[u].pc.e)
    {
      Within(s, u);
    }
  }

  lemma TakeSafe(s: State, t: nat, i: nat, n: nat)
    requires Inv(s) && t < |s.agents| && s.agents[t].pc == Taking(i, n)
    ensures var after := Take(s, t, i, n); Inv(after) && Silent(s.m, after.m)
  {
    Within(s, t);
    if s.m.claimed == n {
      var after, e := Claim(s.m), Located(n + 1);
      ClaimIsSilent(s.m);
      TakenSlot(s.m, i / 512, n);
      TailKept(s.m, after);
      SilentForOthers(s, t, after);
      forall u | 0 <= u < |s.agents| && u != t && Owns(s.agents[u].pc) ensures s.agents[u].pc.e != e {
        Within(s, u);
      }
      MovedTo(s, t, after, Filling(i, e, 0));
    } else {
      NoChangeIsSilent(s.m);
      Went(s, t, Claiming(i));
    }
  }

  lemma ExtendSafe(s: State, t: nat, target: nat)
    requires Inv(s) && t < |s.agents| && |s.m.arena| <= target
    ensures Silent(s.m, Extend(s.m, target)) && Inv(s.(m := Extend(s.m, target)))
  {
    var after := Extend(s.m, target);
    ExtendIsSilent(s.m, target);
    TailKept(s.m, after);
    SilentForOthers(s, t, after);
    Within(s, t);
    assert s.agents[t := s.agents[t]] == s.agents;
    Unmoved(s, t);
    OwnSilent(s, t, after);
    Moved(s, t, after, s.agents[t]);
  }

  lemma OwnSilent(s: State, t: nat, after: Mem)
    requires Inv(s) && t < |s.agents| && Stays(s.m, after) && after.tab == s.m.tab && s.m.arena <= after.arena
    ensures AgentOk(after, s.agents[t])
  {
    Within(s, t);
    OtherAgent(s.m, after, s.agents[t]);
  }

  lemma RaiseSafe(s: State, t: nat, i: nat, to: nat, was: nat)
    requires Inv(s) && t < |s.agents| && s.agents[t].pc == RaisingFrom(i, to, was) && s.m.published == was
    ensures Silent(s.m, Raise(s.m, to)) && Inv(Goto(s.(m := Raise(s.m, to)), t, Claiming(i)))
  {
    Within(s, t);
    var after := Raise(s.m, to);
    RaiseIsSilent(s.m, to);
    TailKept(s.m, after);
    SilentForOthers(s, t, after);
    MovedTo(s, t, after, Claiming(i));
  }

  lemma FillingSafe(s: State, t: nat, i: nat, e: nat, x: nat)
    requires Inv(s) && t < |s.agents| && s.agents[t].pc == Filling(i, e, x)
    ensures AgentOk(s.m, s.agents[t]) && var after := Fill(s, t, i, e, x); Silent(s.m, after.m) && Inv(after)
  {
    Within(s, t);
    if x == 0 && ZeroPage(s.m.img, i / 512) {
      ZeroHolds(s.m, i / 512, e);
      Unmoved(s, t);
      Went(s, t, Publishing(i, e));
      NoChangeIsSilent(s.m);
    } else {
      var _ := CopySafe(s, t, i, e, x);
    }
  }

  lemma CopySafe(s: State, t: nat, i: nat, e: nat, x: nat) returns (after: State)
    requires Inv(s) && t < |s.agents| && s.agents[t].pc == Filling(i, e, x) && PcOk(s.m, s.agents[t].pc)
    ensures after == Copy(s, t, i, e, x) && Silent(s.m, after.m) && Inv(after)
  {
    var p := PageOf(i, |s.m.img|);
    var v := ImageWord(s.m.img, 512 * p + x);
    var m := FillWord(s.m, e, x, v);
    var pc := if x + 1 == 512 then Publishing(i, e) else Filling(i, e, x + 1);
    CopiedPc(s.m, i, p, e, x, m, pc);
    OwnApart(s, t);
    FillForOthers(s, t, e, x, v);
    MovedTo(s, t, m, pc);
    after := State(m, s.agents[t := s.agents[t].(pc := pc)]);
  }

  lemma PageOf(i: nat, n: nat) returns (p: nat)
    requires i < 8192 * n
    ensures p == i / 512 && p < 16 * n
  {
    p := i / 512;
  }

  /** One word copied, seen from the agent that copies it. */
  lemma CopiedPc(before: Mem, i: nat, p: nat, e: nat, x: nat, after: Mem, pc: Pc)
    requires Valid(before) && FreshZero(before) && ZeroTail(before) && PcOk(before, Filling(i, e, x))
    requires p == i / 512 && p < 16 * |before.img|
    requires after == FillWord(before, e, x, ImageWord(before.img, 512 * p + x))
    requires pc == if x + 1 == 512 then Publishing(i, e) else Filling(i, e, x + 1)
    ensures Silent(before, after) && FreshZero(after) && ZeroTail(after) && PcOk(after, pc)
  {
    CopiedWord(before, p, e, x);
  }

  lemma OwnApart(s: State, t: nat)
    requires Inv(s) && t < |s.agents| && Owns(s.agents[t].pc)
    ensures OthersApart(s.agents, t, s.agents[t].pc.e)
  {
  }

  lemma FillForOthers(s: State, t: nat, e: nat, x: nat, v: Word)
    requires Inv(s) && t < |s.agents| && x < 512 && Spare(s.m, e) && OthersApart(s.agents, t, e)
    ensures Valid(FillWord(s.m, e, x, v)) && OthersKeep(s, t, FillWord(s.m, e, x, v))
  {
    var after := FillWord(s.m, e, x, v);
    PutValid(s.m, Arena(ChunkIn(e) - 1), IndexIn(e) * 512 + x, v);
    forall u | 0 <= u < |s.agents| && u != t && Owns(s.agents[u].pc)
      ensures InArena(s.m.arena, s.agents[u].pc.e) && InArena(after.arena, s.agents[u].pc.e)
           && KeepsSlot(s.m, after, s.agents[u].pc.e)
    {
      Within(s, u);
      var f := s.agents[u].pc.e;
      forall y: nat | y < 512 ensures SlotWord(after.arena, f, y) == SlotWord(s.m.arena, f, y) {
        FillOthers(s.m, e, x, v, f, y);
      }
    }
  }

  /** Whether the exchange is won or lost, what is held afterwards is the page's place. */
  lemma PublishSafe(s: State, t: nat, i: nat, e: nat)
    requires Inv(s) && t < |s.agents| && s.agents[t].pc == Publishing(i, e) && s.m.tab[i / 512] == 0
    ensures Silent(s.m, PublishPage(s.m, i / 512, e))
    ensures Inv(Goto(s.(m := PublishPage(s.m, i / 512, e)), t,
                     Holding(i, Arena(ChunkIn(e) - 1), IndexIn(e) * 512 + i % 512)))
  {
    Within(s, t);
    var p := i / 512;
    var after := PublishPage(s.m, p, e);
    PublishIsSilent(s.m, p, e);
    TailKept(s.m, after);
    Unmoved(s, t);
    forall u | 0 <= u < |s.agents| && u != t && Owns(s.agents[u].pc)
      ensures InArena(s.m.arena, s.agents[u].pc.e) && InArena(after.arena, s.agents[u].pc.e)
           && KeepsSlot(s.m, after, s.agents[u].pc.e)
    {
      Within(s, u);
    }
    MovedTo(s, t, after, Holding(i, Arena(ChunkIn(e) - 1), IndexIn(e) * 512 + i % 512));
  }

  // ----- the word itself -----

  /** What an agent that holds a word's place reads there is the word. */
  lemma HeldIsRight(s: State, t: nat)
    requires Inv(s) && t < |s.agents| && s.agents[t].pc.Holding?
    ensures var pc := s.agents[t].pc;
      && pc.i < 8192 * s.m.pages && Exists(s.m, pc.ref) && pc.index < |ArrayAt(s.m, pc.ref)|
      && ArrayAt(s.m, pc.ref)[pc.index] == WordOf(s.m, pc.i)
  {
    Within(s, t);
    Placed(s.m, s.agents[t].pc.i);
  }

  lemma WriteForOthers(s: State, t: nat, i: nat, v: Word)
    requires Inv(s) && t < |s.agents| && i < 8192 * s.m.pages && PlaceOf(s.m, i).At?
    ensures var at := PlaceOf(s.m, i);
      && Exists(s.m, at.ref) && at.index < |ArrayAt(s.m, at.ref)|
      && var after := Put(s.m, at.ref, at.index, v); Valid(after) && OthersKeep(s, t, after)
  {
    PutWord(s.m, i, v);
    var at := PlaceOf(s.m, i);
    var after := Put(s.m, at.ref, at.index, v);
    forall u | 0 <= u < |s.agents| && u != t && Owns(s.agents[u].pc)
      ensures InArena(s.m.arena, s.agents[u].pc.e) && InArena(after.arena, s.agents[u].pc.e)
           && KeepsSlot(s.m, after, s.agents[u].pc.e)
    {
      Within(s, u);
      WriteMissesSlot(s.m, i, v, s.agents[u].pc.e);
    }
  }

  /** A slot no page is in is not written. */
  lemma WriteMissesSlot(m: Mem, i: nat, v: Word, f: nat)
    requires Valid(m) && i < 8192 * m.pages && PlaceOf(m, i).At? && InArena(m.arena, f) && f !in m.tab
    ensures var at := PlaceOf(m, i);
      && Exists(m, at.ref) && at.index < |ArrayAt(m, at.ref)|
      && var after := Put(m, at.ref, at.index, v);
      Valid(after) && InArena(after.arena, f) && KeepsSlot(m, after, f)
  {
    PutWord(m, i, v);
    if i < 8192 * |m.img| {
      SlotWithin(m, i / 512);
      var e := m.tab[i / 512];
      forall y: nat | y < 512
        ensures ArenaSized(FillWord(m, e, i % 512, v).arena)
        ensures SlotWord(FillWord(m, e, i % 512, v).arena, f, y) == SlotWord(m.arena, f, y)
      {
        FillOthers(m, e, i % 512, v, f, y);
      }
    }
  }

  lemma WriteSafe(s: State, t: nat, v: Word)
    requires Inv(s) && t < |s.agents| && s.agents[t].pc.Holding?
    ensures var after := Step(s, Write(t, v)); Inv(after) && Stays(s.m, after.m)
  {
    Within(s, t);
    var pc := s.agents[t].pc;
    HoldingExists(s, t);
    var after := Put(s.m, pc.ref, pc.index, v);
    PutKeepsZeros(s.m, pc.i, v);
    WriteForOthers(s, t, pc.i, v);
    MovedTo(s, t, after, Idle);
  }

  lemma GrowSafe(s: State, t: nat, delta: nat)
    requires Inv(s) && t < |s.agents| && s.agents[t].pc.Idle?
    ensures var after := Step(s, GrowBy(t, delta)); Inv(after) && Stays(s.m, after.m)
  {
    Within(s, t);
    var m := Grow(s.m, delta);
    GrowKeeps(s.m, delta);
    SilentForOthers(s, t, m);
    Elsewhere(s, t, m);
    var a := s.agents[t];
    Moved(s, t, m, a.(handle := a.handle.(pages := m.pages, chunks := |m.chunks|)));
  }

  lemma RefreshSafe(s: State, t: nat)
    requires Inv(s) && t < |s.agents|
    ensures var after := Step(s, Refresh(t)); Inv(after) && after.m == s.m
  {
    Within(s, t);
    Unmoved(s, t);
    var a := s.agents[t];
    Moved(s, t, s.m, a.(handle := a.handle.(arena := |s.m.arena|)));
  }

  // ----- any step -----

  lemma LookSafe(s: State, t: nat, i: nat, write: bool)
    requires Inv(s) && t < |s.agents|
    ensures Inv(Look(s, t, i, write)) && Look(s, t, i, write).m == s.m
  {
    if i >= 8192 * s.m.pages {
      Went(s, t, Idle);
    } else {
      match PlaceOf(s.m, i)
      case At(ref, index) => Went(s, t, Holding(i, ref, index));
      case InImage => Went(s, t, if write then Claiming(i) else Idle);
    }
  }

  lemma PublishEither(s: State, t: nat, i: nat, e: nat)
    requires Inv(s) && t < |s.agents| && s.agents[t].pc == Publishing(i, e)
    ensures i / 512 < |s.m.tab| && ChunkIn(e) >= 1 && (s.m.tab[i / 512] != 0 ==> ChunkIn(s.m.tab[i / 512]) >= 1)
    ensures var after := Publish(s, t, i, e); Inv(after) && Silent(s.m, after.m)
  {
    Within(s, t);
    if s.m.tab[i / 512] == 0 {
      PublishSafe(s, t, i, e);
    } else {
      NoChangeIsSilent(s.m);
      var winner := s.m.tab[i / 512];
      Went(s, t, Holding(i, Arena(ChunkIn(winner) - 1), IndexIn(winner) * 512 + i % 512));
    }
  }

  lemma ClaimSafe(s: State, t: nat)
    requires Inv(s) && t < |s.agents|
    ensures var after := ClaimStep(s, t); Inv(after) && Silent(s.m, after.m)
  {
    Within(s, t);
    NoChangeIsSilent(s.m);
    match s.agents[t].pc
    case Claiming(i) => Went(s, t, Claimed(i, s.m.claimed));
    case Claimed(i, n) =>
      if n + 1 <= ArenaSlots(s.m.published) { Went(s, t, Taking(i, n)); }
      else { Went(s, t, Extending(i, ChunkOf(n + 1))); }
    case _ =>
  }

  lemma ExtensionSafe(s: State, t: nat, granted: bool)
    requires Inv(s) && t < |s.agents|
    ensures var after := ExtendStep(s, t, granted); Inv(after) && Silent(s.m, after.m)
  {
    Within(s, t);
    NoChangeIsSilent(s.m);
    match s.agents[t].pc
    case Extending(i, target) =>
      if |s.m.arena| >= target { Went(s, t, Raising(i, |s.m.arena|)); }
      else if granted { ExtendSafe(s, t, target); }
      else { Went(s, t, Idle); }
    case Raising(i, to) =>
      if s.m.published >= to { Went(s, t, Claiming(i)); } else { Went(s, t, RaisingFrom(i, to, s.m.published)); }
    case RaisingFrom(i, to, was) =>
      if s.m.published == was { RaiseSafe(s, t, i, to, was); } else { Went(s, t, Raising(i, to)); }
    case _ =>
  }

  /** Nothing an agent does on its way to a word can be read. */
  lemma AdvanceSafe(s: State, t: nat, granted: bool)
    requires Inv(s) && t < |s.agents|
    ensures var after := Advance(s, t, granted); Inv(after) && Silent(s.m, after.m)
  {
    Within(s, t);
    NoChangeIsSilent(s.m);
    match s.agents[t].pc
    case Idle =>
    case Holding(_, _, _) =>
    case Wanting(i, write) => LookSafe(s, t, i, write);
    case Filling(i, e, x) => FillingSafe(s, t, i, e, x);
    case Publishing(i, e) => PublishEither(s, t, i, e);
    case Claiming(_) => ClaimSafe(s, t);
    case Claimed(_, _) => ClaimSafe(s, t);
    case Taking(i, n) => TakeSafe(s, t, i, n);
    case _ => ExtensionSafe(s, t, granted);
  }

  lemma BeginKeeps(s: State, t: nat, i: nat, write: bool)
    requires Inv(s) && t < |s.agents| && AgentOk(s.m, s.agents[t])
    ensures Begin(s, t, i, write).m == s.m
  {
  }

  /** Every step keeps the invariant, and nothing that has been found moves. */
  lemma StepSafe(s: State, a: Action)
    requires Inv(s)
    ensures var after := Step(s, a); Inv(after) && Stays(s.m, after.m)
  {
    NoChangeIsSilent(s.m);
    if a.t < |s.agents| {
      Within(s, a.t);
      match a
      case Access(t, i, write) =>
        if s.agents[t].pc.Idle? { BeginSafe(s, t, i, write); BeginKeeps(s, t, i, write); }
      case Next(t, granted) => AdvanceSafe(s, t, granted);
      case Write(t, v) => if s.agents[t].pc.Holding? { WriteSafe(s, t, v); }
      case Leave(t) => if s.agents[t].pc.Holding? { Went(s, t, Idle); }
      case Refresh(t) => RefreshSafe(s, t);
      case GrowBy(t, delta) => if s.agents[t].pc.Idle? { GrowSafe(s, t, delta); }
    }
  }

  // ----- what can be read, over whole runs -----

  /** The memory as the guest sees it: a flat string of words. */
  ghost function Flat(m: Mem): (flat: seq<Word>)
    requires Valid(m)
  {
    seq(8192 * m.pages, i requires 0 <= i < 8192 * m.pages => WordOf(m, i))
  }

  /** What a step does to a flat memory. */
  datatype Effect = Nothing | Wrote(i: nat, v: Word) | Grew(delta: nat)

  function EffectOf(s: State, a: Action): Effect {
    if a.t >= |s.agents| then Nothing
    else if a.Write? && s.agents[a.t].pc.Holding? then Wrote(s.agents[a.t].pc.i, a.v)
    else if a.GrowBy? && s.agents[a.t].pc.Idle? then Grew(a.delta)
    else Nothing
  }

  function FlatStep(flat: seq<Word>, e: Effect): seq<Word> {
    match e
    case Nothing => flat
    case Wrote(i, v) => if i < |flat| then With(flat, i, v) else flat
    case Grew(delta) => flat + Zeros(8192 * delta)
  }

  /** Every step is one flat write, one flat growth, or cannot be seen at all. */
  lemma StepIsFlat(s: State, a: Action)
    requires Inv(s)
    ensures Inv(Step(s, a)) && Flat(Step(s, a).m) == FlatStep(Flat(s.m), EffectOf(s, a))
  {
    StepSafe(s, a);
    if a.t < |s.agents| {
      Within(s, a.t);
      match a
      case Access(t, i, write) => if s.agents[t].pc.Idle? { BeginKeeps(s, t, i, write); }
      case Next(t, granted) => AdvanceSafe(s, t, granted); SilentIsFlat(s.m, Step(s, a).m);
      case Write(t, v) => if s.agents[t].pc.Holding? { WriteIsFlat(s, t, v); }
      case Leave(t) =>
      case Refresh(t) =>
      case GrowBy(t, delta) => if s.agents[t].pc.Idle? { GrowIsFlat(s, t, delta); }
    }
  }

  lemma SilentIsFlat(m: Mem, after: Mem)
    requires Silent(m, after)
    ensures Flat(after) == Flat(m)
  {
  }

  lemma WriteIsFlat(s: State, t: nat, v: Word)
    requires Inv(s) && t < |s.agents| && s.agents[t].pc.Holding?
    ensures var after := Step(s, Write(t, v)).m;
      Valid(after) && Flat(after) == FlatStep(Flat(s.m), Wrote(s.agents[t].pc.i, v))
  {
    Within(s, t);
    HoldingExists(s, t);
    PutWord(s.m, s.agents[t].pc.i, v);
  }

  lemma GrowIsFlat(s: State, t: nat, delta: nat)
    requires Inv(s) && t < |s.agents| && s.agents[t].pc.Idle?
    ensures var after := Step(s, GrowBy(t, delta)).m; Valid(after) && Flat(after) == FlatStep(Flat(s.m), Grew(delta))
  {
    GrowKeeps(s.m, delta);
  }

  ghost function Run(s: State, actions: seq<Action>): (end: State)
    requires Inv(s)
    ensures Inv(end)
    decreases |actions|
  {
    if actions == [] then s else
      StepSafe(s, actions[0]);
      Run(Step(s, actions[0]), actions[1..])
  }

  ghost function Effects(s: State, actions: seq<Action>): seq<Effect>
    requires Inv(s)
    decreases |actions|
  {
    if actions == [] then [] else
      StepSafe(s, actions[0]);
      [EffectOf(s, actions[0])] + Effects(Step(s, actions[0]), actions[1..])
  }

  function FlatRun(flat: seq<Word>, effects: seq<Effect>): seq<Word>
    decreases |effects|
  {
    if effects == [] then flat else FlatRun(FlatStep(flat, effects[0]), effects[1..])
  }

  /**
   * Over any run of any number of agents the paged memory is a flat one: it
   * holds what its writes and growths, in the order they happened, leave in a
   * flat memory. No fault, lost race, extension or stale handle can be seen.
   */
  lemma {:induction false} RunIsFlat(s: State, actions: seq<Action>)
    requires Inv(s)
    ensures Flat(Run(s, actions).m) == FlatRun(Flat(s.m), Effects(s, actions))
    decreases |actions|
  {
    if actions != [] {
      StepIsFlat(s, actions[0]);
      RunIsFlat(Step(s, actions[0]), actions[1..]);
      var effects := Effects(s, actions);
      assert effects[0] == EffectOf(s, actions[0]) && effects[1..] == Effects(Step(s, actions[0]), actions[1..]);
    }
  }

  /**
   * A page's entry is set once: whatever it is at one moment, it is from then
   * on, so a slot or chunk that has been found never moves.
   */
  lemma {:induction false} RunStays(s: State, actions: seq<Action>)
    requires Inv(s)
    ensures Stays(s.m, Run(s, actions).m)
    decreases |actions|
  {
    if actions == [] {
      NoChangeIsSilent(s.m);
    } else {
      StepSafe(s, actions[0]);
      RunStays(Step(s, actions[0]), actions[1..]);
      StaysOn(s.m, Step(s, actions[0]).m, Run(s, actions).m);
    }
  }

  /**
   * From a memory just restored, at the end of any run: no two pages share a
   * slot, no slot being filled is in the page table, no two agents fill the
   * same one, every word in the table's slots was put there, and a hit on
   * either entry of any cache is in bounds and is the word of the address.
   */
  lemma EveryRun(s: State, actions: seq<Action>, t: nat, i: nat)
    requires Init(s) && t < |s.agents|
    ensures Inv(s)
    ensures var end := Run(s, actions);
      && |end.agents| == |s.agents| && Unshared(end.m.tab) && Separate(end.agents)
      && (Owns(end.agents[t].pc) ==> end.agents[t].pc.e !in end.m.tab)
      && forall c :: c in [end.agents[t].first, end.agents[t].second] && i / 512 == c.page ==>
           && i < 8192 * end.m.pages && Exists(end.m, c.ref) && c.base + i % 512 < |ArrayAt(end.m, c.ref)|
           && ArrayAt(end.m, c.ref)[c.base + i % 512] == WordOf(end.m, i)
  {
    InitHolds(s);
    var end := Run(s, actions);
    AgentsKept(s, actions);
    Within(end, t);
    forall c | c in [end.agents[t].first, end.agents[t].second] && i / 512 == c.page
      ensures i < 8192 * end.m.pages && Exists(end.m, c.ref) && c.base + i % 512 < |ArrayAt(end.m, c.ref)|
           && ArrayAt(end.m, c.ref)[c.base + i % 512] == WordOf(end.m, i)
    {
      HitIsRight(end, t, c, i);
    }
  }

  lemma {:induction false} AgentsKept(s: State, actions: seq<Action>)
    requires Inv(s)
    ensures |Run(s, actions).agents| == |s.agents|
    decreases |actions|
  {
    if actions != [] {
      StepSafe(s, actions[0]);
      StepAgents(s, actions[0]);
      AgentsKept(Step(s, actions[0]), actions[1..]);
    }
  }

  lemma StepAgents(s: State, a: Action)
    requires Inv(s)
    ensures |Step(s, a).agents| == |s.agents|
  {
    if a.t < |s.agents| { Within(s, a.t); }
  }
}
