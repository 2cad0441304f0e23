/**
 File handles shared by many processes, each with a lock and a descriptor.

 Every NIF call is broken into the steps another thread can come between: taking
 the lock, looking at the descriptor, one system call, giving the lock back. The
 kernel recycles descriptor numbers as it likes, and code outside this module
 opens and closes descriptors of its own at any moment.
 */
module WasiHandles {
  type File = nat

  /** Who is responsible for closing a descriptor. */
  datatype Owner = HandleFd(h: nat) | HandleDir(h: nat) | Thread(t: nat) | Foreign

  /** One opening of a file: `serial` tells apart two uses of one number. */
  datatype Open = Open(serial: nat, file: File, owner: Owner)

  /** `fd` and `dirp` are -1 when closed; `dirp` is the number inside the directory stream.
      `lock` is the thread holding the lock, or -1. `file` is what the handle was opened on. */
  datatype Handle = Handle(fd: int, dirp: int, isDir: bool, lock: int, file: File)

  /** `Use` is any call on the descriptor itself: pread, pwrite, fstat, fsync and their like.
      `Copy` is dup, for a new handle or for a walk. */
  datatype Op = Use | Copy(forWalk: bool) | ReadDir | Shutdown

  datatype Pc =
    | Idle
    | Wants(op: Op, h: nat)                 // about to take the lock
    | Holds(op: Op, h: nat)                 // has it, has not looked at the descriptor
    | Uses(op: Op, h: nat, n: nat)          // found number n open, about to use it
    | Streams(h: nat, n: nat)               // about to read the directory stream on n
    | Adopts(h: nat, n: nat, file: File)    // made n for a stream, fdopendir not yet called
    | Finishes(h: nat)                      // close: the stream is gone, the descriptor is next
    | Leaves(h: nat)                        // about to give the lock back
    | LeavesWith(h: nat, n: nat, file: File, isDir: bool, forWalk: bool)

  /** A descriptor a thread holds outside any call: a file just opened, a handle's copy, or a step of a walk. */
  datatype Held = Held(t: nat, file: File, isDir: bool, forWalk: bool)

  datatype Seen = Nothing | Reached(file: File)

  datatype Event =
    | Touched(h: nat, file: File, seen: Seen)   // a call through handle h, opened on `file`
    | Walked(file: File, seen: Seen)            // a call through a walk's own copy
    | Shut(wasOpen: bool)                       // close(n)
    | Closed(h: nat)                            // handle h no longer has a descriptor
    | Refused(h: nat)                           // EBADF

  datatype State = State(
    fds: map<nat, Open>, next: nat,
    handles: map<nat, Handle>, nextHandle: nat,
    pcs: map<nat, Pc>, held: map<nat, Held>,
    shut: multiset<nat>, log: seq<Event>)

  datatype Action =
    | DoOpen(t: nat, n: nat, file: File, isDir: bool, forWalk: bool)
    | DoMake(t: nat, n: nat)
    | DoWalk(t: nat, n: nat)
    | DoDrop(t: nat, n: nat)
    | DoStart(t: nat, op: Op, h: nat)
    | DoLock(t: nat)
    | DoCheck(t: nat)
    | DoCall(t: nat, n: nat, ok: bool)
    | DoAdopt(t: nat, ok: bool)
    | DoFinish(t: nat)
    | DoUnlock(t: nat)
    | DoDestroy(h: nat)
    | ForeignOpen(n: nat, file: File)
    | ForeignClose(n: nat)

  // ------------------------------------------------------------ steps

  function See(s: State, n: nat): Seen {
    if n in s.fds then Reached(s.fds[n].file) else Nothing
  }

  function Pick(s: State, n: nat, file: File, owner: Owner): State
  {
    s.(fds := s.fds[n := Open(s.next, file, owner)], next := s.next + 1)
  }

  /** close(n): the number goes back to the kernel, if it was open at all. */
  function Shutting(s: State, n: nat): State {
    if n in s.fds then
      s.(fds := s.fds - {n}, shut := s.shut + multiset{s.fds[n].serial}, log := s.log + [Shut(true)])
    else s.(log := s.log + [Shut(false)])
  }

  function Goto(s: State, t: nat, pc: Pc): State {
    s.(pcs := s.pcs[t := pc])
  }

  function Log(s: State, e: Event): State {
    s.(log := s.log + [e])
  }

  function SetHandle(s: State, h: nat, x: Handle): State {
    s.(handles := s.handles[h := x])
  }

  predicate Idles(s: State, t: nat) { t in s.pcs && s.pcs[t].Idle? }

  predicate Has(s: State, t: nat, n: nat) { n in s.held && s.held[n].t == t }

  function Hold(s: State, n: nat, x: Held): State {
    s.(held := s.held[n := x])
  }

  function Step(s: State, a: Action): State {
    match a
    case DoOpen(t, n, file, isDir, forWalk) =>
      if Idles(s, t) && n !in s.fds then Hold(Pick(s, n, file, Thread(t)), n, Held(t, file, isDir, forWalk)) else s
    case DoMake(t, n) =>
      if Idles(s, t) && Has(s, t, n) && !s.held[n].forWalk then Make(s, n, s.held[n]) else s
    case DoWalk(t, n) =>
      if Idles(s, t) && Has(s, t, n) then Log(s, Walked(s.held[n].file, See(s, n))) else s
    case DoDrop(t, n) =>
      if Idles(s, t) && Has(s, t, n) then Shutting(s, n).(held := s.held - {n}) else s
    case DoStart(t, op, h) =>
      if t in s.pcs && s.pcs[t].Idle? && h in s.handles then Goto(s, t, Wants(op, h)) else s
    case DoLock(t) =>
      if t in s.pcs && s.pcs[t].Wants? && s.pcs[t].h in s.handles && s.handles[s.pcs[t].h].lock == -1
      then Lock(s, t, s.pcs[t].op, s.pcs[t].h) else s
    case DoCheck(t) =>
      if t in s.pcs && s.pcs[t].Holds? && s.pcs[t].h in s.handles
      then Check(s, t, s.pcs[t].op, s.pcs[t].h) else s
    case DoCall(t, n, ok) =>
      if t in s.pcs then Call(s, t, s.pcs[t], n, ok) else s
    case DoAdopt(t, ok) =>
      if t in s.pcs && s.pcs[t].Adopts? && s.pcs[t].h in s.handles
      then Adopt(s, t, s.pcs[t].h, s.pcs[t].n, ok) else s
    case DoFinish(t) =>
      if t in s.pcs && s.pcs[t].Finishes? && s.pcs[t].h in s.handles
      then Finish(s, t, s.pcs[t].h) else s
    case DoUnlock(t) =>
      if t in s.pcs && (s.pcs[t].Leaves? || s.pcs[t].LeavesWith?) && s.pcs[t].h in s.handles
      then Unlock(s, t, s.pcs[t]) else s
    case DoDestroy(h) =>
      if h in s.handles && Unreferenced(s, h) then Destroy(s, h) else s
    case ForeignOpen(n, file) =>
      if n !in s.fds then Pick(s, n, file, Foreign) else s
    case ForeignClose(n) =>
      if n in s.fds && s.fds[n].owner.Foreign? then Shutting(s, n) else s
  }

  /** new_handle: the descriptor moves from the thread into a handle nobody else has seen. */
  function Make(s: State, n: nat, x: Held): State {
    var h := s.nextHandle;
    var s1 := if n in s.fds then s.(fds := s.fds[n := s.fds[n].(owner := HandleFd(h))]) else s;
    SetHandle(s1, h, Handle(n, -1, x.isDir, -1, x.file)).(held := s.held - {n}, nextHandle := h + 1)
  }

  function Lock(s: State, t: nat, op: Op, h: nat): State
    requires h in s.handles
  {
    Goto(SetHandle(s, h, s.handles[h].(lock := t)), t, Holds(op, h))
  }

  /** The test of handle_lock, and the first half of close. */
  function Check(s: State, t: nat, op: Op, h: nat): State
    requires h in s.handles
  {
    var x := s.handles[h];
    if op.Shutdown? then
      if x.dirp >= 0
      then Goto(SetHandle(Shutting(s, x.dirp), h, x.(dirp := -1)), t, Finishes(h))
      else Goto(s, t, Finishes(h))
    else if x.fd < 0 then
      Goto(SetHandle(Log(s, Refused(h)), h, x.(lock := -1)), t, Idle)
    else Goto(s, t, Uses(op, h, x.fd))
  }

  function Call(s: State, t: nat, pc: Pc, m: nat, ok: bool): State {
    match pc
    case Uses(op, h, n) =>
      if h !in s.handles then s
      else
        var x := s.handles[h];
        var s1 := Log(s, Touched(h, x.file, See(s, n)));
        (match op
         case Use => Goto(s1, t, Leaves(h))
         case Shutdown => s
         case Copy(forWalk) =>
           if !ok || n !in s.fds then Goto(s1, t, Leaves(h))
           else if m in s.fds then s
           else Goto(Pick(s1, m, s.fds[n].file, Thread(t)), t,
                     LeavesWith(h, m, s.fds[n].file, x.isDir, forWalk))
         case ReadDir =>
           if !x.isDir then Goto(s, t, Leaves(h))
           else if x.dirp >= 0 then Goto(s, t, Streams(h, x.dirp))
           else if !ok || n !in s.fds then Goto(s1, t, Leaves(h))
           else if m in s.fds then s
           else Goto(Pick(s1, m, s.fds[n].file, Thread(t)), t, Adopts(h, m, s.fds[n].file)))
    case Streams(h, n) =>
      if h !in s.handles then s
      else Goto(Log(s, Touched(h, s.handles[h].file, See(s, n))), t, Leaves(h))
    case _ => s
  }

  /** fdopendir takes the copy over, or fails and the copy is closed. */
  function Adopt(s: State, t: nat, h: nat, n: nat, ok: bool): State
    requires h in s.handles
  {
    if ok && n in s.fds then
      Goto(SetHandle(s.(fds := s.fds[n := s.fds[n].(owner := HandleDir(h))]), h, s.handles[h].(dirp := n)),
           t, Streams(h, n))
    else Goto(Shutting(s, n), t, Leaves(h))
  }

  function Finish(s: State, t: nat, h: nat): State
    requires h in s.handles
  {
    var x := s.handles[h];
    if x.fd >= 0
    then Goto(SetHandle(Log(Shutting(s, x.fd), Closed(h)), h, x.(fd := -1)), t, Leaves(h))
    else Goto(s, t, Leaves(h))
  }

  function Unlock(s: State, t: nat, pc: Pc): State
    requires (pc.Leaves? || pc.LeavesWith?) && pc.h in s.handles
  {
    var s1 := Goto(SetHandle(s, pc.h, s.handles[pc.h].(lock := -1)), t, Idle);
    if pc.Leaves? then s1 else Hold(s1, pc.n, Held(t, pc.file, pc.isDir, pc.forWalk))
  }

  predicate Refers(pc: Pc, h: nat) {
    !pc.Idle? && pc.h == h
  }

  predicate Unreferenced(s: State, h: nat) {
    forall t :: t in s.pcs ==> !Refers(s.pcs[t], h)
  }

  /** The destructor, run when the last reference is gone: no lock is taken. */
  function Destroy(s: State, h: nat): State
    requires h in s.handles
  {
    var x := s.handles[h];
    var s1 := if x.dirp >= 0 then Shutting(s, x.dirp) else s;
    var s2 := if x.fd >= 0 then Log(Shutting(s1, x.fd), Closed(h)) else s1;
    s2.(handles := s2.handles - {h})
  }

  // ------------------------------------------------------------ what always holds

  type Fds = map<nat, Open>
  type Handles = map<nat, Handle>
  type Pcs = map<nat, Pc>
  type Bag = map<nat, Held>

  predicate InSection(pc: Pc) {
    !pc.Idle? && !pc.Wants?
  }

  predicate Bears(pc: Pc, n: nat) {
    (pc.Adopts? || pc.LeavesWith?) && pc.n == n
  }

  ghost predicate HasFd(fds: Fds, n: int, owner: Owner, file: File) {
    n >= 0 ==> n in fds && fds[n].owner == owner && fds[n].file == file
  }

  ghost predicate Placed(fds: Fds, handles: Handles) {
    forall h :: h in handles ==>
      && HasFd(fds, handles[h].fd, HandleFd(h), handles[h].file)
      && HasFd(fds, handles[h].dirp, HandleDir(h), handles[h].file)
  }

  /** Every open descriptor has someone who will close it. */
  ghost predicate Owned(fds: Fds, handles: Handles, pcs: Pcs, held: Bag) {
    forall n :: n in fds ==> Answers(handles, pcs, held, n, fds[n].owner)
  }

  ghost predicate Answers(handles: Handles, pcs: Pcs, held: Bag, n: nat, owner: Owner) {
    match owner
    case HandleFd(h) => h in handles && handles[h].fd == n
    case HandleDir(h) => h in handles && handles[h].dirp == n
    case Thread(t) => (t in pcs && Bears(pcs[t], n)) || (n in held && held[n].t == t)
    case Foreign => true
  }

  /** A thread inside a call has the lock, and a handle somebody refers to exists. */
  ghost predicate Entitled(handles: Handles, t: nat, pc: Pc) {
    && (InSection(pc) ==> pc.h in handles && handles[pc.h].lock == t)
    && (pc.Wants? ==> pc.h in handles)
  }

  /** A number a thread has read is still the number it read. */
  ghost predicate Current(fds: Fds, handles: Handles, t: nat, pc: Pc) {
    match pc
    case Uses(_, h, n) => h in handles && handles[h].fd == n
    case Streams(h, n) => h in handles && handles[h].dirp == n
    case Adopts(h, n, file) =>
      h in handles && handles[h].fd >= 0 && handles[h].dirp < 0 && handles[h].file == file && Mine(fds, t, n, file)
    case Finishes(h) => h in handles && handles[h].dirp < 0
    case LeavesWith(h, n, file, _, _) => Mine(fds, t, n, file)
    case _ => true
  }

  ghost predicate Mine(fds: Fds, t: nat, n: nat, file: File) {
    n in fds && fds[n].owner == Thread(t) && fds[n].file == file
  }

  /** A number made inside a call is not one held between calls. */
  ghost predicate Once(pcs: Pcs, held: Bag) {
    forall t, n :: t in pcs && n in held ==> !Bears(pcs[t], n)
  }

  ghost predicate Threads(fds: Fds, handles: Handles, pcs: Pcs) {
    forall t :: t in pcs ==> Entitled(handles, t, pcs[t]) && Current(fds, handles, t, pcs[t])
  }

  /** What a thread holds between calls is open and is its own. */
  ghost predicate Kept(fds: Fds, held: Bag) {
    forall n :: n in held ==> Mine(fds, held[n].t, n, held[n].file)
  }

  ghost predicate Control(fds: Fds, handles: Handles, nextHandle: nat, pcs: Pcs, held: Bag) {
    && Placed(fds, handles)
    && Owned(fds, handles, pcs, held)
    && Threads(fds, handles, pcs)
    && Kept(fds, held)
    && Once(pcs, held)
    && (forall h :: h in handles ==> h < nextHandle)
  }

  /** Each opening is closed at most once, and openings are closings plus what is open. */
  ghost predicate Counted(fds: Fds, next: nat, shut: multiset<nat>) {
    && (forall n :: n in fds ==> fds[n].serial < next && shut[fds[n].serial] == 0)
    && (forall n, m :: n in fds && m in fds && n != m ==> fds[n].serial != fds[m].serial)
    && (forall x :: shut[x] <= 1 && (x >= next ==> shut[x] == 0))
    && |shut| + |fds| == next
  }

  ghost predicate Good(e: Event) {
    match e
    case Touched(_, file, seen) => seen == Reached(file)
    case Walked(file, seen) => seen == Reached(file)
    case Shut(wasOpen) => wasOpen
    case _ => true
  }

  ghost predicate Gone(handles: Handles, nextHandle: nat, h: nat) {
    h < nextHandle && (h in handles ==> handles[h].fd < 0 && handles[h].dirp < 0)
  }

  /** Once a handle is closed, nothing reaches a file through it and it is not closed again. */
  ghost predicate NoUseAfterClose(log: seq<Event>) {
    forall i, j :: 0 <= i < j < |log| && log[i].Closed? && (log[j].Touched? || log[j].Closed?) ==> log[j].h != log[i].h
  }

  ghost predicate GoodLog(handles: Handles, nextHandle: nat, log: seq<Event>) {
    && (forall i :: 0 <= i < |log| ==> Good(log[i]))
    && (forall i :: 0 <= i < |log| && log[i].Closed? ==> Gone(handles, nextHandle, log[i].h))
    && NoUseAfterClose(log)
  }

  ghost predicate Inv(s: State) {
    && Control(s.fds, s.handles, s.nextHandle, s.pcs, s.held)
    && Counted(s.fds, s.next, s.shut)
    && GoodLog(s.handles, s.nextHandle, s.log)
  }

  /** Any number of threads, none of them inside a call. */
  ghost predicate Init(s: State) {
    && s == State(map[], 0, map[], 0, s.pcs, map[], multiset{}, [])
    && forall t :: t in s.pcs ==> s.pcs[t].Idle?
  }

  lemma InitHolds(s: State)
    requires Init(s)
    ensures Inv(s)
  {
  }

  // ------------------------------------------------------------ counting

  lemma PickCounted(fds: Fds, next: nat, shut: multiset<nat>, n: nat, file: File, owner: Owner)
    requires Counted(fds, next, shut) && n !in fds
    ensures Counted(fds[n := Open(next, file, owner)], next + 1, shut)
  {
    assert fds[n := Open(next, file, owner)].Keys == fds.Keys + {n};
  }

  lemma ShutCounted(fds: Fds, next: nat, shut: multiset<nat>, n: nat)
    requires Counted(fds, next, shut) && n in fds
    ensures Counted(fds - {n}, next, shut + multiset{fds[n].serial})
  {
    assert fds.Keys == (fds - {n}).Keys + {n};
  }

  lemma ReownCounted(fds: Fds, next: nat, shut: multiset<nat>, n: nat, owner: Owner)
    requires Counted(fds, next, shut) && n in fds
    ensures Counted(fds[n := fds[n].(owner := owner)], next, shut)
  {
    assert fds[n := fds[n].(owner := owner)].Keys == fds.Keys;
  }

  ghost predicate CountedIn(s: State) {
    Counted(s.fds, s.next, s.shut)
  }

  /** A call opens one descriptor or none. */
  lemma CallOpens(s: State, t: nat, pc: Pc, m: nat, ok: bool)
    ensures var s' := Call(s, t, pc, m, ok);
      && s'.shut == s.shut
      && ((s'.fds == s.fds && s'.next == s.next)
          || (pc.Uses? && pc.n in s.fds && m !in s.fds && s'.next == s.next + 1
              && s'.fds == s.fds[m := Open(s.next, s.fds[pc.n].file, Thread(t))]))
  {
  }

  lemma CallCounted(s: State, t: nat, pc: Pc, m: nat, ok: bool)
    requires CountedIn(s)
    ensures CountedIn(Call(s, t, pc, m, ok))
  {
    CallOpens(s, t, pc, m, ok);
    if pc.Uses? && pc.n in s.fds && m !in s.fds {
      PickCounted(s.fds, s.next, s.shut, m, s.fds[pc.n].file, Thread(t));
    }
  }

  lemma ShuttingCounted(s: State, n: nat)
    requires CountedIn(s)
    ensures CountedIn(Shutting(s, n))
  {
    if n in s.fds {
      ShutCounted(s.fds, s.next, s.shut, n);
    }
  }

  lemma DestroyCounted(s: State, h: nat)
    requires CountedIn(s) && h in s.handles
    ensures CountedIn(Destroy(s, h))
  {
    var x := s.handles[h];
    var s1 := if x.dirp >= 0 then Shutting(s, x.dirp) else s;
    if x.dirp >= 0 { ShuttingCounted(s, x.dirp); }
    if x.fd >= 0 { ShuttingCounted(s1, x.fd); }
  }

  lemma CheckCounted(s: State, t: nat, op: Op, h: nat)
    requires CountedIn(s) && h in s.handles
    ensures CountedIn(Check(s, t, op, h))
  {
    if op.Shutdown? && s.handles[h].dirp >= 0 { ShuttingCounted(s, s.handles[h].dirp); }
  }

  lemma AdoptCounted(s: State, t: nat, h: nat, n: nat, ok: bool)
    requires CountedIn(s) && h in s.handles
    ensures CountedIn(Adopt(s, t, h, n, ok))
  {
    if ok && n in s.fds {
      ReownCounted(s.fds, s.next, s.shut, n, HandleDir(h));
    } else {
      ShuttingCounted(s, n);
    }
  }

  lemma FinishCounted(s: State, t: nat, h: nat)
    requires CountedIn(s) && h in s.handles
    ensures CountedIn(Finish(s, t, h))
  {
    if s.handles[h].fd >= 0 { ShuttingCounted(s, s.handles[h].fd); }
  }

  lemma MakeCounted(s: State, n: nat, x: Held)
    requires CountedIn(s)
    ensures CountedIn(Make(s, n, x))
  {
    if n in s.fds { ReownCounted(s.fds, s.next, s.shut, n, HandleFd(s.nextHandle)); }
  }

  lemma HeldCounted(s: State, t: nat, n: nat)
    requires CountedIn(s)
    ensures CountedIn(Step(s, DoMake(t, n))) && CountedIn(Step(s, DoDrop(t, n)))
  {
    if Has(s, t, n) {
      MakeCounted(s, n, s.held[n]);
      ShuttingCounted(s, n);
    }
  }

  lemma OpenCounted(s: State, t: nat, n: nat, file: File, isDir: bool, forWalk: bool)
    requires CountedIn(s)
    ensures CountedIn(Step(s, DoOpen(t, n, file, isDir, forWalk)))
  {
    if n !in s.fds { PickCounted(s.fds, s.next, s.shut, n, file, Thread(t)); }
  }

  lemma ForeignCounted(s: State, n: nat, file: File)
    requires CountedIn(s)
    ensures CountedIn(Step(s, ForeignOpen(n, file)))
  {
    if n !in s.fds { PickCounted(s.fds, s.next, s.shut, n, file, Foreign); }
  }

  /** The steps of an operation inside a handle's lock. */
  lemma SectionCounted(s: State, t: nat, m: nat, ok: bool)
    requires CountedIn(s)
    ensures CountedIn(Step(s, DoCheck(t))) && CountedIn(Step(s, DoCall(t, m, ok)))
    ensures CountedIn(Step(s, DoAdopt(t, ok))) && CountedIn(Step(s, DoFinish(t)))
  {
    if t in s.pcs {
      var pc := s.pcs[t];
      CallCounted(s, t, pc, m, ok);
      if !pc.Idle? && pc.h in s.handles {
        if pc.Holds? { CheckCounted(s, t, pc.op, pc.h); }
        if pc.Adopts? { AdoptCounted(s, t, pc.h, pc.n, ok); }
        if pc.Finishes? { FinishCounted(s, t, pc.h); }
      }
    }
  }

  /** Whatever a step does, openings are still closings plus what is open. */
  lemma StepCounted(s: State, a: Action)
    requires CountedIn(s)
    ensures CountedIn(Step(s, a))
  {
    match a
    case DoOpen(t, n, file, isDir, forWalk) => OpenCounted(s, t, n, file, isDir, forWalk);
    case DoMake(t, n) => HeldCounted(s, t, n);
    case DoDrop(t, n) => HeldCounted(s, t, n);
    case DoCheck(t) => SectionCounted(s, t, 0, true);
    case DoCall(t, n, ok) => SectionCounted(s, t, n, ok);
    case DoAdopt(t, ok) => SectionCounted(s, t, 0, ok);
    case DoFinish(t) => SectionCounted(s, t, 0, true);
    case DoDestroy(h) =>
      if h in s.handles { DestroyCounted(s, h); }
    case ForeignOpen(n, file) => ForeignCounted(s, n, file);
    case ForeignClose(n) => ShuttingCounted(s, n);
    case _ =>
  }

  // ------------------------------------------------------------ control

  ghost predicate Ctl(s: State) {
    Control(s.fds, s.handles, s.nextHandle, s.pcs, s.held)
  }

  /** Nobody is in the middle of using handle `h`. */
  ghost predicate Quiet(pcs: Pcs, h: nat) {
    forall t :: t in pcs && InSection(pcs[t]) && pcs[t].h == h ==> pcs[t].Holds? || pcs[t].Finishes?
  }

  lemma MoveControl(s: State, t: nat, pc: Pc)
    requires Ctl(s) && t in s.pcs && !s.pcs[t].Adopts? && !s.pcs[t].LeavesWith?
    requires !pc.Adopts? && !pc.LeavesWith? && Entitled(s.handles, t, pc) && Current(s.fds, s.handles, t, pc)
    ensures Ctl(Goto(s, t, pc))
  {
  }

  lemma TakeControl(s: State, t: nat, n: nat, file: File, pc: Pc)
    requires Ctl(s) && t in s.pcs && n !in s.fds && !s.pcs[t].Adopts? && !s.pcs[t].LeavesWith?
    requires Bears(pc, n) && Entitled(s.handles, t, pc) && Current(Pick(s, n, file, Thread(t)).fds, s.handles, t, pc)
    ensures Ctl(Goto(Pick(s, n, file, Thread(t)), t, pc))
  {
  }

  lemma OpenPlaced(s: State, n: nat, x: Held)
    requires Ctl(s) && n !in s.fds
    ensures var s' := Hold(Pick(s, n, x.file, Thread(x.t)), n, x);
      Placed(s'.fds, s'.handles) && Owned(s'.fds, s'.handles, s'.pcs, s'.held)
  {
  }

  lemma OpenThreads(s: State, n: nat, x: Held)
    requires Ctl(s) && n !in s.fds
    ensures var s' := Hold(Pick(s, n, x.file, Thread(x.t)), n, x);
      Threads(s'.fds, s'.handles, s'.pcs) && Kept(s'.fds, s'.held) && Once(s'.pcs, s'.held)
  {
  }

  lemma OpenControl(s: State, n: nat, x: Held)
    requires Ctl(s) && n !in s.fds
    ensures Ctl(Hold(Pick(s, n, x.file, Thread(x.t)), n, x))
  {
    OpenPlaced(s, n, x);
    OpenThreads(s, n, x);
  }

  lemma DropPlaced(s: State, t: nat, n: nat, pc: Pc)
    requires Ctl(s) && t in s.pcs && Bears(s.pcs[t], n) && pc.Leaves? && Entitled(s.handles, t, pc)
    ensures var s' := Goto(Shutting(s, n), t, pc);
      Placed(s'.fds, s'.handles) && Owned(s'.fds, s'.handles, s'.pcs, s'.held)
  {
    assert Current(s.fds, s.handles, t, s.pcs[t]);
  }

  lemma DropThreads(s: State, t: nat, n: nat, pc: Pc)
    requires Ctl(s) && t in s.pcs && Bears(s.pcs[t], n) && pc.Leaves? && Entitled(s.handles, t, pc)
    ensures var s' := Goto(Shutting(s, n), t, pc);
      Threads(s'.fds, s'.handles, s'.pcs) && Kept(s'.fds, s'.held) && Once(s'.pcs, s'.held)
  {
    assert Current(s.fds, s.handles, t, s.pcs[t]);
  }

  lemma DropControl(s: State, t: nat, n: nat, pc: Pc)
    requires Ctl(s) && t in s.pcs && Bears(s.pcs[t], n) && pc.Leaves? && Entitled(s.handles, t, pc)
    ensures Ctl(Goto(Shutting(s, n), t, pc))
    ensures n in s.fds
  {
    assert Current(s.fds, s.handles, t, s.pcs[t]);
    DropPlaced(s, t, n, pc);
    DropThreads(s, t, n, pc);
  }

  lemma LetGoControl(s: State, n: nat)
    requires Ctl(s) && n in s.held
    ensures Ctl(Shutting(s, n).(held := s.held - {n}))
    ensures n in s.fds
  {
    assert Mine(s.fds, s.held[n].t, n, s.held[n].file);
  }

  lemma MakePlaced(s: State, n: nat)
    requires Ctl(s) && n in s.held
    ensures var s' := Make(s, n, s.held[n]);
      Placed(s'.fds, s'.handles) && Owned(s'.fds, s'.handles, s'.pcs, s'.held)
  {
    var s' := Make(s, n, s.held[n]);
    assert Mine(s.fds, s.held[n].t, n, s.held[n].file);
    forall h | h in s'.handles
      ensures HasFd(s'.fds, s'.handles[h].fd, HandleFd(h), s'.handles[h].file)
      ensures HasFd(s'.fds, s'.handles[h].dirp, HandleDir(h), s'.handles[h].file)
    {
    }
    forall m | m in s'.fds
      ensures Answers(s'.handles, s'.pcs, s'.held, m, s'.fds[m].owner)
    {
      if m != n {
        assert Answers(s.handles, s.pcs, s.held, m, s.fds[m].owner);
      }
    }
  }

  lemma MakeThreads(s: State, n: nat)
    requires Ctl(s) && n in s.held
    ensures var s' := Make(s, n, s.held[n]);
      Threads(s'.fds, s'.handles, s'.pcs) && Kept(s'.fds, s'.held)
  {
    assert Mine(s.fds, s.held[n].t, n, s.held[n].file);
  }

  lemma MakeControl(s: State, n: nat)
    requires Ctl(s) && n in s.held
    ensures Ctl(Make(s, n, s.held[n]))
  {
    MakePlaced(s, n);
    MakeThreads(s, n);
  }

  lemma LockPlaced(s: State, t: nat)
    requires Ctl(s) && t in s.pcs && s.pcs[t].Wants? && s.handles[s.pcs[t].h].lock == -1
    ensures var s' := Lock(s, t, s.pcs[t].op, s.pcs[t].h);
      Placed(s'.fds, s'.handles) && Owned(s'.fds, s'.handles, s'.pcs, s'.held)
  {
  }

  lemma LockThreads(s: State, t: nat)
    requires Ctl(s) && t in s.pcs && s.pcs[t].Wants? && s.handles[s.pcs[t].h].lock == -1
    ensures var s' := Lock(s, t, s.pcs[t].op, s.pcs[t].h);
      Threads(s'.fds, s'.handles, s'.pcs) && Kept(s'.fds, s'.held) && Once(s'.pcs, s'.held)
  {
  }

  lemma LockControl(s: State, t: nat)
    requires Ctl(s) && t in s.pcs && s.pcs[t].Wants? && s.handles[s.pcs[t].h].lock == -1
    ensures Ctl(Lock(s, t, s.pcs[t].op, s.pcs[t].h))
  {
    LockPlaced(s, t);
    LockThreads(s, t);
  }

  lemma ReleasePlaced(s: State, t: nat)
    requires Ctl(s) && t in s.pcs && InSection(s.pcs[t]) && !s.pcs[t].Adopts? && !s.pcs[t].LeavesWith?
    ensures var s' := Goto(SetHandle(s, s.pcs[t].h, s.handles[s.pcs[t].h].(lock := -1)), t, Idle);
      Placed(s'.fds, s'.handles) && Owned(s'.fds, s'.handles, s'.pcs, s'.held)
  {
  }

  lemma ReleaseThreads(s: State, t: nat)
    requires Ctl(s) && t in s.pcs && InSection(s.pcs[t]) && !s.pcs[t].Adopts? && !s.pcs[t].LeavesWith?
    ensures var s' := Goto(SetHandle(s, s.pcs[t].h, s.handles[s.pcs[t].h].(lock := -1)), t, Idle);
      Threads(s'.fds, s'.handles, s'.pcs) && Kept(s'.fds, s'.held) && Once(s'.pcs, s'.held)
  {
  }

  lemma ReleaseControl(s: State, t: nat)
    requires Ctl(s) && t in s.pcs && InSection(s.pcs[t]) && !s.pcs[t].Adopts? && !s.pcs[t].LeavesWith?
    ensures Ctl(Goto(SetHandle(s, s.pcs[t].h, s.handles[s.pcs[t].h].(lock := -1)), t, Idle))
  {
    ReleasePlaced(s, t);
    ReleaseThreads(s, t);
  }

  lemma ReleaseWithPlaced(s: State, t: nat)
    requires Ctl(s) && t in s.pcs && s.pcs[t].LeavesWith? && s.pcs[t].h in s.handles
    ensures var s' := Unlock(s, t, s.pcs[t]);
      Placed(s'.fds, s'.handles) && Owned(s'.fds, s'.handles, s'.pcs, s'.held)
  {
    assert Entitled(s.handles, t, s.pcs[t]) && Current(s.fds, s.handles, t, s.pcs[t]);
  }

  lemma ReleaseWithThreads(s: State, t: nat)
    requires Ctl(s) && t in s.pcs && s.pcs[t].LeavesWith? && s.pcs[t].h in s.handles
    ensures var s' := Unlock(s, t, s.pcs[t]);
      Threads(s'.fds, s'.handles, s'.pcs) && Kept(s'.fds, s'.held) && Once(s'.pcs, s'.held)
  {
    assert Entitled(s.handles, t, s.pcs[t]) && Current(s.fds, s.handles, t, s.pcs[t]);
  }

  lemma ReleaseWithControl(s: State, t: nat)
    requires Ctl(s) && t in s.pcs && s.pcs[t].LeavesWith? && s.pcs[t].h in s.handles
    ensures Ctl(Unlock(s, t, s.pcs[t]))
  {
    assert Entitled(s.handles, t, s.pcs[t]) && Current(s.fds, s.handles, t, s.pcs[t]);
    ReleaseWithPlaced(s, t);
    ReleaseWithThreads(s, t);
  }

  lemma CloseDirPlaced(s: State, h: nat)
    requires Ctl(s) && h in s.handles && s.handles[h].dirp >= 0 && Quiet(s.pcs, h)
    ensures var s' := SetHandle(Shutting(s, s.handles[h].dirp), h, s.handles[h].(dirp := -1));
      Placed(s'.fds, s'.handles) && Owned(s'.fds, s'.handles, s'.pcs, s'.held)
  {
  }

  lemma CloseDirThreads(s: State, h: nat)
    requires Ctl(s) && h in s.handles && s.handles[h].dirp >= 0 && Quiet(s.pcs, h)
    ensures var s' := SetHandle(Shutting(s, s.handles[h].dirp), h, s.handles[h].(dirp := -1));
      Threads(s'.fds, s'.handles, s'.pcs) && Kept(s'.fds, s'.held)
  {
  }

  lemma CloseDirControl(s: State, h: nat)
    requires Ctl(s) && h in s.handles && s.handles[h].dirp >= 0 && Quiet(s.pcs, h)
    ensures Ctl(SetHandle(Shutting(s, s.handles[h].dirp), h, s.handles[h].(dirp := -1)))
    ensures s.handles[h].dirp in s.fds
  {
    CloseDirPlaced(s, h);
    CloseDirThreads(s, h);
  }

  lemma CloseFdPlaced(s: State, h: nat)
    requires Ctl(s) && h in s.handles && s.handles[h].fd >= 0 && Quiet(s.pcs, h)
    ensures var s' := SetHandle(Shutting(s, s.handles[h].fd), h, s.handles[h].(fd := -1));
      Placed(s'.fds, s'.handles) && Owned(s'.fds, s'.handles, s'.pcs, s'.held)
  {
  }

  lemma CloseFdThreads(s: State, h: nat)
    requires Ctl(s) && h in s.handles && s.handles[h].fd >= 0 && Quiet(s.pcs, h)
    ensures var s' := SetHandle(Shutting(s, s.handles[h].fd), h, s.handles[h].(fd := -1));
      Threads(s'.fds, s'.handles, s'.pcs) && Kept(s'.fds, s'.held)
  {
  }

  lemma CloseFdControl(s: State, h: nat)
    requires Ctl(s) && h in s.handles && s.handles[h].fd >= 0 && Quiet(s.pcs, h)
    ensures Ctl(SetHandle(Shutting(s, s.handles[h].fd), h, s.handles[h].(fd := -1)))
    ensures s.handles[h].fd in s.fds
  {
    CloseFdPlaced(s, h);
    CloseFdThreads(s, h);
  }

  lemma AdoptPlaced(s: State, t: nat)
    requires Ctl(s) && t in s.pcs && s.pcs[t].Adopts?
    ensures var s' := Adopt(s, t, s.pcs[t].h, s.pcs[t].n, true);
      Placed(s'.fds, s'.handles) && Owned(s'.fds, s'.handles, s'.pcs, s'.held)
  {
  }

  lemma AdoptThreads(s: State, t: nat)
    requires Ctl(s) && t in s.pcs && s.pcs[t].Adopts?
    ensures var s' := Adopt(s, t, s.pcs[t].h, s.pcs[t].n, true);
      Threads(s'.fds, s'.handles, s'.pcs) && Kept(s'.fds, s'.held)
  {
  }

  lemma AdoptControl(s: State, t: nat)
    requires Ctl(s) && t in s.pcs && s.pcs[t].Adopts?
    ensures Ctl(Adopt(s, t, s.pcs[t].h, s.pcs[t].n, true))
  {
    AdoptPlaced(s, t);
    AdoptThreads(s, t);
  }

  lemma ForgetControl(s: State, h: nat)
    requires Ctl(s) && h in s.handles && s.handles[h].fd < 0 && s.handles[h].dirp < 0 && Unreferenced(s, h)
    ensures Ctl(s.(handles := s.handles - {h}))
  {
  }

  lemma ForeignControl(s: State, n: nat, file: File)
    requires Ctl(s)
    ensures n !in s.fds ==> Ctl(Pick(s, n, file, Foreign))
    ensures n in s.fds && s.fds[n].owner.Foreign? ==> Ctl(Shutting(s, n))
  {
  }

  lemma SectionQuiet(s: State, t: nat)
    requires Ctl(s) && t in s.pcs && (s.pcs[t].Holds? || s.pcs[t].Finishes?)
    ensures Quiet(s.pcs, s.pcs[t].h)
  {
    var h := s.pcs[t].h;
    assert Entitled(s.handles, t, s.pcs[t]);
    forall u | u in s.pcs && InSection(s.pcs[u]) && s.pcs[u].h == h
      ensures s.pcs[u].Holds? || s.pcs[u].Finishes?
    {
      assert Entitled(s.handles, u, s.pcs[u]);
      assert s.handles[h].lock == t == u;
    }
  }

  lemma CheckControl(s: State, t: nat)
    requires Ctl(s) && t in s.pcs && s.pcs[t].Holds?
    ensures Ctl(Check(s, t, s.pcs[t].op, s.pcs[t].h))
  {
    var h := s.pcs[t].h;
    assert Entitled(s.handles, t, s.pcs[t]);
    var x := s.handles[h];
    if s.pcs[t].op.Shutdown? {
      if x.dirp >= 0 {
        SectionQuiet(s, t);
        CloseDirControl(s, h);
        MoveControl(SetHandle(Shutting(s, x.dirp), h, x.(dirp := -1)), t, Finishes(h));
      } else {
        MoveControl(s, t, Finishes(h));
      }
    } else if x.fd < 0 {
      ReleaseControl(s, t);
    } else {
      MoveControl(s, t, Uses(s.pcs[t].op, h, x.fd));
    }
  }

  lemma CallControl(s: State, t: nat, m: nat, ok: bool)
    requires Ctl(s) && t in s.pcs
    ensures Ctl(Call(s, t, s.pcs[t], m, ok))
  {
    var pc := s.pcs[t];
    if pc.Uses? || pc.Streams? {
      assert Entitled(s.handles, t, pc) && Current(s.fds, s.handles, t, pc);
      MoveControl(s, t, Leaves(pc.h));
      assert HasFd(s.fds, s.handles[pc.h].fd, HandleFd(pc.h), s.handles[pc.h].file);
      if pc.Uses? && pc.n in s.fds {
        var x := s.handles[pc.h];
        if pc.op.ReadDir? && x.dirp >= 0 {
          MoveControl(s, t, Streams(pc.h, x.dirp));
        } else if m !in s.fds && pc.op.ReadDir? {
          TakeControl(s, t, m, s.fds[pc.n].file, Adopts(pc.h, m, s.fds[pc.n].file));
        } else if m !in s.fds && pc.op.Copy? {
          TakeControl(s, t, m, s.fds[pc.n].file, LeavesWith(pc.h, m, s.fds[pc.n].file, x.isDir, pc.op.forWalk));
        }
      }
    }
  }

  lemma FinishControl(s: State, t: nat)
    requires Ctl(s) && t in s.pcs && s.pcs[t].Finishes?
    ensures Ctl(Finish(s, t, s.pcs[t].h))
  {
    var h := s.pcs[t].h;
    assert Entitled(s.handles, t, s.pcs[t]);
    var x := s.handles[h];
    if x.fd >= 0 {
      SectionQuiet(s, t);
      CloseFdControl(s, h);
      MoveControl(SetHandle(Shutting(s, x.fd), h, x.(fd := -1)), t, Leaves(h));
    } else {
      MoveControl(s, t, Leaves(h));
    }
  }

  lemma Overwritten(handles: Handles, h: nat, x: Handle)
    ensures handles[h := x] - {h} == handles - {h}
  {
  }

  lemma DestroyDirControl(s: State, h: nat) returns (s1: State)
    requires Ctl(s) && h in s.handles && Unreferenced(s, h)
    ensures s1 == if s.handles[h].dirp >= 0
                  then SetHandle(Shutting(s, s.handles[h].dirp), h, s.handles[h].(dirp := -1)) else s
    ensures Ctl(s1) && s1.handles[h] == s.handles[h].(dirp := s1.handles[h].dirp) && s1.handles[h].dirp < 0
    ensures s1.handles - {h} == s.handles - {h}
  {
    s1 := s;
    if s.handles[h].dirp >= 0 {
      CloseDirControl(s, h);
      Overwritten(s.handles, h, s.handles[h].(dirp := -1));
      s1 := SetHandle(Shutting(s, s.handles[h].dirp), h, s.handles[h].(dirp := -1));
    }
  }

  /** The log has no part in control. */
  lemma SameControl(s: State, s': State)
    requires Ctl(s) && s'.fds == s.fds && s'.handles == s.handles && s'.nextHandle == s.nextHandle
    requires s'.pcs == s.pcs && s'.held == s.held
    ensures Ctl(s')
  {
  }

  lemma DestroyControl(s: State, h: nat)
    requires Ctl(s) && h in s.handles && Unreferenced(s, h)
    ensures Ctl(Destroy(s, h))
  {
    var s1 := DestroyDirControl(s, h);
    var x := s.handles[h];
    var s2 := s1;
    if x.fd >= 0 {
      CloseFdControl(s1, h);
      s2 := SetHandle(Shutting(s1, x.fd), h, s1.handles[h].(fd := -1));
      Overwritten(s1.handles, h, s1.handles[h].(fd := -1));
    }
    ForgetControl(s2, h);
    SameControl(s2.(handles := s2.handles - {h}), Destroy(s, h));
  }

  lemma StepControl(s: State, a: Action)
    requires Ctl(s)
    ensures Ctl(Step(s, a))
  {
    match a
    case DoOpen(t, n, file, isDir, forWalk) =>
      if n !in s.fds { OpenControl(s, n, Held(t, file, isDir, forWalk)); }
    case DoMake(t, n) =>
      if Has(s, t, n) { MakeControl(s, n); }
    case DoDrop(t, n) =>
      if Has(s, t, n) { LetGoControl(s, n); }
    case DoStart(t, op, h) =>
      if t in s.pcs && s.pcs[t].Idle? && h in s.handles { MoveControl(s, t, Wants(op, h)); }
    case DoLock(t) =>
      if t in s.pcs && s.pcs[t].Wants? && s.pcs[t].h in s.handles && s.handles[s.pcs[t].h].lock == -1 {
        LockControl(s, t);
      }
    case DoCheck(t) =>
      if t in s.pcs && s.pcs[t].Holds? { CheckControl(s, t); }
    case DoCall(t, n, ok) =>
      if t in s.pcs { CallControl(s, t, n, ok); }
    case DoAdopt(t, ok) =>
      if t in s.pcs && s.pcs[t].Adopts? { AdoptAnyControl(s, t, ok); }
    case DoFinish(t) =>
      if t in s.pcs && s.pcs[t].Finishes? { FinishControl(s, t); }
    case DoUnlock(t) =>
      if t in s.pcs && (s.pcs[t].Leaves? || s.pcs[t].LeavesWith?) { UnlockControl(s, t); }
    case DoDestroy(h) =>
      if h in s.handles && Unreferenced(s, h) { DestroyControl(s, h); }
    case ForeignOpen(n, file) => ForeignControl(s, n, file);
    case ForeignClose(n) => ForeignControl(s, n, 0);
    case _ =>
  }

  lemma AdoptAnyControl(s: State, t: nat, ok: bool)
    requires Ctl(s) && t in s.pcs && s.pcs[t].Adopts?
    ensures s.pcs[t].h in s.handles
    ensures Ctl(Adopt(s, t, s.pcs[t].h, s.pcs[t].n, ok))
  {
    assert Entitled(s.handles, t, s.pcs[t]) && Current(s.fds, s.handles, t, s.pcs[t]);
    if ok { AdoptControl(s, t); } else { DropControl(s, t, s.pcs[t].n, Leaves(s.pcs[t].h)); }
  }

  lemma UnlockControl(s: State, t: nat)
    requires Ctl(s) && t in s.pcs && (s.pcs[t].Leaves? || s.pcs[t].LeavesWith?)
    ensures s.pcs[t].h in s.handles
    ensures Ctl(Unlock(s, t, s.pcs[t]))
  {
    assert Entitled(s.handles, t, s.pcs[t]);
    if s.pcs[t].Leaves? { ReleaseControl(s, t); } else { ReleaseWithControl(s, t); }
  }

  // ------------------------------------------------------------ the log

  ghost predicate Lg(s: State) {
    GoodLog(s.handles, s.nextHandle, s.log)
  }

  lemma LogGood(handles: Handles, nextHandle: nat, log: seq<Event>, e: Event)
    requires GoodLog(handles, nextHandle, log) && Good(e) && !e.Closed?
    requires e.Touched? ==> !Gone(handles, nextHandle, e.h)
    ensures GoodLog(handles, nextHandle, log + [e])
  {
  }

  lemma LogClosed(handles: Handles, nextHandle: nat, log: seq<Event>, h: nat, handles': Handles)
    requires GoodLog(handles, nextHandle, log) && !Gone(handles, nextHandle, h)
    requires Gone(handles', nextHandle, h) && KeepsGone(handles, nextHandle, handles', nextHandle)
    ensures GoodLog(handles', nextHandle, log + [Closed(h)])
  {
  }

  ghost predicate KeepsGone(handles: Handles, nextHandle: nat, handles': Handles, nextHandle': nat) {
    forall h :: Gone(handles, nextHandle, h) ==> Gone(handles', nextHandle', h)
  }

  lemma HandlesGood(handles: Handles, nextHandle: nat, log: seq<Event>, handles': Handles, nextHandle': nat)
    requires GoodLog(handles, nextHandle, log) && KeepsGone(handles, nextHandle, handles', nextHandle')
    ensures GoodLog(handles', nextHandle', log)
  {
  }

  lemma CallGood(s: State, t: nat, m: nat, ok: bool)
    requires Ctl(s) && Lg(s) && t in s.pcs
    ensures Lg(Call(s, t, s.pcs[t], m, ok))
  {
    var pc := s.pcs[t];
    if pc.Uses? || pc.Streams? {
      assert Current(s.fds, s.handles, t, pc);
      var x := s.handles[pc.h];
      assert HasFd(s.fds, x.fd, HandleFd(pc.h), x.file) && HasFd(s.fds, x.dirp, HandleDir(pc.h), x.file);
      LogGood(s.handles, s.nextHandle, s.log, Touched(pc.h, x.file, See(s, pc.n)));
    }
  }

  lemma ShuttingGood(s: State, n: nat)
    requires Lg(s) && n in s.fds
    ensures Lg(Shutting(s, n))
  {
    LogGood(s.handles, s.nextHandle, s.log, Shut(true));
  }

  lemma CheckGood(s: State, t: nat)
    requires Ctl(s) && Lg(s) && t in s.pcs && s.pcs[t].Holds? && s.pcs[t].h in s.handles
    ensures Lg(Check(s, t, s.pcs[t].op, s.pcs[t].h))
  {
    var h := s.pcs[t].h;
    var x := s.handles[h];
    var s' := Check(s, t, s.pcs[t].op, h);
    if s.pcs[t].op.Shutdown? {
      if x.dirp >= 0 {
        assert HasFd(s.fds, x.dirp, HandleDir(h), x.file);
        ShuttingGood(s, x.dirp);
        HandlesGood(s.handles, s.nextHandle, s'.log, s'.handles, s.nextHandle);
      }
    } else if x.fd < 0 {
      LogGood(s.handles, s.nextHandle, s.log, Refused(h));
      HandlesGood(s.handles, s.nextHandle, s'.log, s'.handles, s.nextHandle);
    }
  }

  lemma FinishGood(s: State, t: nat)
    requires Ctl(s) && Lg(s) && t in s.pcs && s.pcs[t].Finishes?
    ensures s.pcs[t].h in s.handles && Lg(Finish(s, t, s.pcs[t].h))
  {
    assert Current(s.fds, s.handles, t, s.pcs[t]);
    var h := s.pcs[t].h;
    var x := s.handles[h];
    if x.fd >= 0 {
      assert HasFd(s.fds, x.fd, HandleFd(h), x.file);
      ShuttingGood(s, x.fd);
      LogClosed(s.handles, s.nextHandle, Shutting(s, x.fd).log, h, s.handles[h := x.(fd := -1)]);
    }
  }

  lemma DestroyGood(s: State, h: nat)
    requires Ctl(s) && Lg(s) && h in s.handles
    ensures Lg(Destroy(s, h))
  {
    var x := s.handles[h];
    assert HasFd(s.fds, x.fd, HandleFd(h), x.file) && HasFd(s.fds, x.dirp, HandleDir(h), x.file);
    var s1 := if x.dirp >= 0 then Shutting(s, x.dirp) else s;
    if x.dirp >= 0 { ShuttingGood(s, x.dirp); }
    if x.fd >= 0 {
      ShuttingGood(s1, x.fd);
      LogClosed(s.handles, s.nextHandle, Shutting(s1, x.fd).log, h, s.handles - {h});
    } else {
      HandlesGood(s.handles, s.nextHandle, s1.log, s.handles - {h}, s.nextHandle);
    }
  }

  lemma AdoptGood(s: State, t: nat, ok: bool)
    requires Ctl(s) && Lg(s) && t in s.pcs && s.pcs[t].Adopts?
    ensures s.pcs[t].h in s.handles && Lg(Adopt(s, t, s.pcs[t].h, s.pcs[t].n, ok))
  {
    var pc := s.pcs[t];
    assert Current(s.fds, s.handles, t, pc);
    if ok {
      HandlesGood(s.handles, s.nextHandle, s.log, s.handles[pc.h := s.handles[pc.h].(dirp := pc.n)], s.nextHandle);
    } else {
      ShuttingGood(s, pc.n);
    }
  }

  lemma HeldGood(s: State, t: nat, n: nat)
    requires Ctl(s) && Lg(s) && Has(s, t, n)
    ensures Lg(Make(s, n, s.held[n])) && Lg(Log(s, Walked(s.held[n].file, See(s, n)))) && Lg(Shutting(s, n))
  {
    assert Mine(s.fds, t, n, s.held[n].file);
    HandlesGood(s.handles, s.nextHandle, s.log, Make(s, n, s.held[n]).handles, s.nextHandle + 1);
    LogGood(s.handles, s.nextHandle, s.log, Walked(s.held[n].file, See(s, n)));
    ShuttingGood(s, n);
  }

  lemma LocksGood(s: State, t: nat)
    requires Lg(s)
    ensures Lg(Step(s, DoLock(t))) && Lg(Step(s, DoUnlock(t)))
  {
    HandlesGood(s.handles, s.nextHandle, s.log, Step(s, DoLock(t)).handles, s.nextHandle);
    HandlesGood(s.handles, s.nextHandle, s.log, Step(s, DoUnlock(t)).handles, s.nextHandle);
  }

  /** The steps inside a handle's lock. */
  lemma SectionGood(s: State, t: nat, m: nat, ok: bool)
    requires Ctl(s) && Lg(s)
    ensures Lg(Step(s, DoCheck(t))) && Lg(Step(s, DoCall(t, m, ok)))
    ensures Lg(Step(s, DoAdopt(t, ok))) && Lg(Step(s, DoFinish(t)))
  {
    if t in s.pcs {
      CallGood(s, t, m, ok);
      if s.pcs[t].Holds? && s.pcs[t].h in s.handles { CheckGood(s, t); }
      if s.pcs[t].Adopts? { AdoptGood(s, t, ok); }
      if s.pcs[t].Finishes? { FinishGood(s, t); }
    }
  }

  lemma OwnedGood(s: State, t: nat, n: nat)
    requires Ctl(s) && Lg(s)
    ensures Lg(Step(s, DoMake(t, n))) && Lg(Step(s, DoWalk(t, n))) && Lg(Step(s, DoDrop(t, n)))
    ensures Lg(Step(s, ForeignClose(n)))
  {
    if Has(s, t, n) { HeldGood(s, t, n); }
    if n in s.fds { ShuttingGood(s, n); }
  }

  lemma StepGood(s: State, a: Action)
    requires Ctl(s) && Lg(s)
    ensures Lg(Step(s, a))
  {
    match a
    case DoMake(t, n) => OwnedGood(s, t, n);
    case DoWalk(t, n) => OwnedGood(s, t, n);
    case DoDrop(t, n) => OwnedGood(s, t, n);
    case DoLock(t) => LocksGood(s, t);
    case DoCheck(t) => SectionGood(s, t, 0, true);
    case DoCall(t, n, ok) => SectionGood(s, t, n, ok);
    case DoAdopt(t, ok) => SectionGood(s, t, 0, ok);
    case DoFinish(t) => SectionGood(s, t, 0, true);
    case DoUnlock(t) => LocksGood(s, t);
    case DoDestroy(h) =>
      if h in s.handles { DestroyGood(s, h); }
    case ForeignClose(n) => OwnedGood(s, 0, n);
    case _ =>
  }

  // ------------------------------------------------------------ every run

  lemma StepHolds(s: State, a: Action)
    requires Inv(s)
    ensures Inv(Step(s, a))
  {
    StepControl(s, a);
    StepCounted(s, a);
    StepGood(s, a);
  }

  function Run(s: State, acts: seq<Action>): State
    decreases |acts|
  {
    if acts == [] then s else Run(Step(s, acts[0]), acts[1..])
  }

  lemma {:induction false} RunHolds(s: State, acts: seq<Action>)
    requires Inv(s)
    ensures Inv(Run(s, acts))
    decreases |acts|
  {
    if acts != [] {
      StepHolds(s, acts[0]);
      RunHolds(Step(s, acts[0]), acts[1..]);
    }
  }

  /** In every interleaving: each call made through a handle reaches the file the handle was opened
      on, each close is of an open descriptor, no opening is closed twice and none is lost, and
      nothing is reached through a handle that has been closed. */
  lemma EveryRun(s: State, acts: seq<Action>)
    requires Init(s)
    ensures var s' := Run(s, acts);
      && (forall i :: 0 <= i < |s'.log| ==> Good(s'.log[i]))
      && NoUseAfterClose(s'.log)
      && (forall x :: s'.shut[x] <= 1)
      && |s'.shut| + |s'.fds| == s'.next
      && (forall n :: n in s'.fds ==> Answers(s'.handles, s'.pcs, s'.held, n, s'.fds[n].owner))
  {
    InitHolds(s);
    RunHolds(s, acts);
  }

  /** After close, an operation that gets the lock answers EBADF and gives the lock back. */
  lemma ClosedAnswersEbadf(s: State, i: nat, t: nat)
    requires Inv(s) && i < |s.log| && s.log[i].Closed?
    requires t in s.pcs && s.pcs[t].Holds? && s.pcs[t].h == s.log[i].h && !s.pcs[t].op.Shutdown?
    ensures var s' := Step(s, DoCheck(t));
      s'.log == s.log + [Refused(s.log[i].h)] && s'.pcs[t] == Idle && s'.handles[s.log[i].h].lock == -1
  {
    assert Entitled(s.handles, t, s.pcs[t]);
  }

  // ------------------------------------------------------------ what close does

  /** Close, of a handle that is open: its number goes back to the kernel, that opening is counted as closed, and the
      handle is left with no descriptor at all. */
  lemma CloseCloses(s: State, t: nat)
    requires Inv(s) && t in s.pcs && s.pcs[t].Finishes?
    ensures var h := s.pcs[t].h;
      var s' := Step(s, DoFinish(t));
      && h in s.handles && h in s'.handles && s'.handles[h].fd < 0 && s'.handles[h].dirp < 0
      && (s.handles[h].fd >= 0 ==>
            var n := s.handles[h].fd;
            && n in s.fds && s.fds[n].file == s.handles[h].file && s.shut[s.fds[n].serial] == 0
            && n !in s'.fds && s'.shut[s.fds[n].serial] == 1
            && s'.log == s.log + [Shut(true), Closed(h)])
      && (s.handles[h].fd < 0 ==> s'.fds == s.fds && s'.log == s.log)
      && (forall m :: m in s.fds && m != s.handles[h].fd ==> m in s'.fds && s'.fds[m] == s.fds[m])
  {
    var h := s.pcs[t].h;
    assert Entitled(s.handles, t, s.pcs[t]) && Current(s.fds, s.handles, t, s.pcs[t]);
    assert HasFd(s.fds, s.handles[h].fd, HandleFd(h), s.handles[h].file);
  }

  /** And its first half: the directory stream and the descriptor inside it. */
  lemma CloseClosesStream(s: State, t: nat)
    requires Inv(s) && t in s.pcs && s.pcs[t].Holds? && s.pcs[t].op.Shutdown?
    ensures var h := s.pcs[t].h;
      var s' := Step(s, DoCheck(t));
      && h in s.handles && h in s'.handles && s'.handles[h].dirp < 0 && s'.handles[h].fd == s.handles[h].fd
      && s'.pcs[t] == Finishes(h)
      && (s.handles[h].dirp >= 0 ==>
            var n := s.handles[h].dirp;
            n in s.fds && s.shut[s.fds[n].serial] == 0 && n !in s'.fds && s'.shut[s.fds[n].serial] == 1)
  {
    var h := s.pcs[t].h;
    assert Entitled(s.handles, t, s.pcs[t]);
    assert HasFd(s.fds, s.handles[h].dirp, HandleDir(h), s.handles[h].file);
  }

  /** A thread is in a call of close on h, or that call is over and h has no descriptor. */
  ghost predicate ClosingOrGone(s: State, t: nat, h: nat) {
    || (t in s.pcs && (s.pcs[t] == Wants(Shutdown, h) || s.pcs[t] == Holds(Shutdown, h) || s.pcs[t] == Finishes(h)))
    || Gone(s.handles, s.nextHandle, h)
  }

  /** Nothing was reached through h since, nor was it closed. */
  ghost predicate Silent(log: seq<Event>, log': seq<Event>, h: nat) {
    && log <= log'
    && forall i :: |log| <= i < |log'| && (log'[i].Touched? || log'[i].Closed?) ==> log'[i].h != h
  }

  ghost predicate StaysGone(s: State, s': State, h: nat) {
    Gone(s'.handles, s'.nextHandle, h) && Silent(s.log, s'.log, h)
  }

  ghost predicate IsGone(s: State, h: nat) {
    Gone(s.handles, s.nextHandle, h)
  }

  lemma SilentJoins(a: seq<Event>, b: seq<Event>, c: seq<Event>, h: nat)
    requires Silent(a, b, h) && Silent(b, c, h)
    ensures Silent(a, c, h)
  {
  }

  lemma LockStaysGone(s: State, t: nat, h: nat)
    requires IsGone(s, h)
    ensures StaysGone(s, Step(s, DoLock(t)), h) && StaysGone(s, Step(s, DoUnlock(t)), h)
  {
  }

  lemma CheckStaysGone(s: State, t: nat, h: nat)
    requires IsGone(s, h)
    ensures StaysGone(s, Step(s, DoCheck(t)), h)
  {
  }

  lemma FinishStaysGone(s: State, t: nat, h: nat)
    requires IsGone(s, h)
    ensures StaysGone(s, Step(s, DoFinish(t)), h)
  {
  }

  lemma CallStaysGone(s: State, t: nat, m: nat, ok: bool, h: nat)
    requires IsGone(s, h) && Threads(s.fds, s.handles, s.pcs)
    ensures StaysGone(s, Step(s, DoCall(t, m, ok)), h)
  {
    if t in s.pcs { assert Current(s.fds, s.handles, t, s.pcs[t]); }
  }

  lemma AdoptStaysGone(s: State, t: nat, ok: bool, h: nat)
    requires IsGone(s, h) && Threads(s.fds, s.handles, s.pcs)
    ensures StaysGone(s, Step(s, DoAdopt(t, ok)), h)
  {
    if t in s.pcs { assert Current(s.fds, s.handles, t, s.pcs[t]); }
  }

  lemma ShuttingSilent(s: State, n: nat, h: nat)
    ensures Silent(s.log, Shutting(s, n).log, h)
    ensures Shutting(s, n).handles == s.handles && Shutting(s, n).nextHandle == s.nextHandle
  {
  }

  lemma DestroySilent(s: State, g: nat, h: nat)
    requires IsGone(s, h) && g in s.handles
    ensures Silent(s.log, Destroy(s, g).log, h)
    ensures Destroy(s, g).handles == s.handles - {g} && Destroy(s, g).nextHandle == s.nextHandle
  {
    var x := s.handles[g];
    var s1 := if x.dirp >= 0 then Shutting(s, x.dirp) else s;
    if x.dirp >= 0 { ShuttingSilent(s, x.dirp, h); }
    if x.fd >= 0 {
      ShuttingSilent(s1, x.fd, h);
      SilentJoins(s.log, s1.log, Shutting(s1, x.fd).log, h);
    }
  }

  lemma DestroyStaysGone(s: State, g: nat, h: nat)
    requires IsGone(s, h)
    ensures StaysGone(s, Step(s, DoDestroy(g)), h)
  {
    if g in s.handles { DestroySilent(s, g, h); }
  }

  lemma HeldStaysGone(s: State, t: nat, n: nat, h: nat)
    requires IsGone(s, h)
    ensures StaysGone(s, Step(s, DoMake(t, n)), h) && StaysGone(s, Step(s, DoWalk(t, n)), h)
    ensures StaysGone(s, Step(s, DoDrop(t, n)), h)
  {
  }

  /** Nothing gives a closed handle a descriptor again, and nothing goes through it. */
  lemma GoneStays(s: State, a: Action, h: nat)
    requires Inv(s) && IsGone(s, h)
    ensures StaysGone(s, Step(s, a), h)
  {
    match a
    case DoMake(t, n) => HeldStaysGone(s, t, n, h);
    case DoWalk(t, n) => HeldStaysGone(s, t, n, h);
    case DoDrop(t, n) => HeldStaysGone(s, t, n, h);
    case DoLock(t) => LockStaysGone(s, t, h);
    case DoCheck(t) => CheckStaysGone(s, t, h);
    case DoCall(t, n, ok) => CallStaysGone(s, t, n, ok, h);
    case DoAdopt(t, ok) => AdoptStaysGone(s, t, ok, h);
    case DoFinish(t) => FinishStaysGone(s, t, h);
    case DoUnlock(t) => LockStaysGone(s, t, h);
    case DoDestroy(g) => DestroyStaysGone(s, g, h);
    case _ =>
  }

  /** Whose step it is. */
  function Who(a: Action): int {
    match a
    case DoOpen(t, _, _, _, _) => t
    case DoMake(t, _) => t
    case DoWalk(t, _) => t
    case DoDrop(t, _) => t
    case DoStart(t, _, _) => t
    case DoLock(t) => t
    case DoCheck(t) => t
    case DoCall(t, _, _) => t
    case DoAdopt(t, _) => t
    case DoFinish(t) => t
    case DoUnlock(t) => t
    case _ => -1
  }

  lemma CallLeavesOthers(s: State, u: nat, m: nat, ok: bool, t: nat)
    requires t in s.pcs && u != t
    ensures t in Step(s, DoCall(u, m, ok)).pcs && Step(s, DoCall(u, m, ok)).pcs[t] == s.pcs[t]
  {
  }

  lemma CheckLeavesOthers(s: State, u: nat, t: nat)
    requires t in s.pcs && u != t
    ensures t in Step(s, DoCheck(u)).pcs && Step(s, DoCheck(u)).pcs[t] == s.pcs[t]
  {
    if u in s.pcs && s.pcs[u].Holds? && s.pcs[u].h in s.handles {
      LooksAlone(s, u, s.pcs[u].op, s.pcs[u].h, t);
    }
  }

  lemma LooksAlone(s: State, u: nat, op: Op, h: nat, t: nat)
    requires t in s.pcs && u != t && h in s.handles
    ensures t in Check(s, u, op, h).pcs && Check(s, u, op, h).pcs[t] == s.pcs[t]
  {
  }

  lemma AdoptLeavesOthers(s: State, u: nat, ok: bool, t: nat)
    requires t in s.pcs && u != t
    ensures t in Step(s, DoAdopt(u, ok)).pcs && Step(s, DoAdopt(u, ok)).pcs[t] == s.pcs[t]
  {
  }

  lemma FinishLeavesOthers(s: State, u: nat, t: nat)
    requires t in s.pcs && u != t
    ensures t in Step(s, DoFinish(u)).pcs && Step(s, DoFinish(u)).pcs[t] == s.pcs[t]
  {
  }

  lemma OthersLeave(s: State, a: Action, t: nat)
    requires t in s.pcs && Who(a) != t
    ensures t in Step(s, a).pcs && Step(s, a).pcs[t] == s.pcs[t]
  {
    match a
    case DoCall(u, m, ok) => CallLeavesOthers(s, u, m, ok, t);
    case DoCheck(u) => CheckLeavesOthers(s, u, t);
    case DoAdopt(u, ok) => AdoptLeavesOthers(s, u, ok, t);
    case DoFinish(u) => FinishLeavesOthers(s, u, t);
    case _ =>
  }

  /** Inside a call of close a thread can only go on with it. */
  lemma ClosingGoesOn(s: State, a: Action, t: nat)
    requires t in s.pcs && Who(a) == t && (s.pcs[t].Wants? || s.pcs[t].Holds? || s.pcs[t].Finishes?)
    ensures t in Step(s, a).pcs
    ensures Step(s, a).pcs[t] == s.pcs[t] || match s.pcs[t]
      case Wants(_, _) => a == DoLock(t)
      case Holds(_, _) => a == DoCheck(t)
      case _ => a == DoFinish(t)
  {
  }

  lemma ClosingStep(s: State, a: Action, t: nat, h: nat)
    requires Inv(s) && ClosingOrGone(s, t, h)
    ensures ClosingOrGone(Step(s, a), t, h)
  {
    if Gone(s.handles, s.nextHandle, h) {
      GoneStays(s, a, h);
    } else if Who(a) != t {
      OthersLeave(s, a, t);
    } else {
      ClosingGoesOn(s, a, t);
      assert Entitled(s.handles, t, s.pcs[t]);
      if s.pcs[t].Finishes? && a == DoFinish(t) {
        CloseCloses(s, t);
        assert h < s.nextHandle;
      }
    }
  }

  lemma {:induction false} ClosingRun(s: State, acts: seq<Action>, t: nat, h: nat)
    requires Inv(s) && ClosingOrGone(s, t, h)
    ensures ClosingOrGone(Run(s, acts), t, h)
    decreases |acts|
  {
    if acts != [] {
      StepHolds(s, acts[0]);
      ClosingStep(s, acts[0], t, h);
      ClosingRun(Step(s, acts[0]), acts[1..], t, h);
    }
  }

  lemma {:induction false} GoneRun(s: State, acts: seq<Action>, h: nat)
    requires Inv(s) && IsGone(s, h)
    ensures StaysGone(s, Run(s, acts), h)
    decreases |acts|
  {
    if acts != [] {
      var s1 := Step(s, acts[0]);
      StepHolds(s, acts[0]);
      GoneStays(s, acts[0], h);
      GoneRun(s1, acts[1..], h);
      SilentJoins(s.log, s1.log, Run(s1, acts[1..]).log, h);
    }
  }

  /** A thread that is in no call calls close on h, and later is in no call again. */
  ghost predicate ClosedBy(s: State, before: seq<Action>, during: seq<Action>, t: nat, h: nat) {
    var s1 := Run(s, before);
    && Idles(s1, t) && h in s1.handles
    && Idles(Run(Step(s1, DoStart(t, Shutdown, h)), during), t)
  }

  lemma CloseHolds(s: State, before: seq<Action>, during: seq<Action>, t: nat, h: nat)
    requires Init(s) && ClosedBy(s, before, during, t, h)
    ensures var s2 := Run(Step(Run(s, before), DoStart(t, Shutdown, h)), during);
      Inv(s2) && IsGone(s2, h)
  {
    InitHolds(s);
    RunHolds(s, before);
    var s1 := Run(s, before);
    StepHolds(s1, DoStart(t, Shutdown, h));
    assert Step(s1, DoStart(t, Shutdown, h)).pcs[t] == Wants(Shutdown, h);
    RunHolds(Step(s1, DoStart(t, Shutdown, h)), during);
    ClosingRun(Step(s1, DoStart(t, Shutdown, h)), during, t, h);
  }

  /** In every interleaving, once any call of close on h has returned, nothing is reached through h or closed as its
      descriptor ever again, and every other operation that gets as far as looking at h answers EBADF and gives the
      lock back. */
  lemma AfterClose(s: State, before: seq<Action>, during: seq<Action>, after: seq<Action>, t: nat, h: nat, u: nat)
    requires Init(s) && ClosedBy(s, before, during, t, h)
    ensures var s2 := Run(Step(Run(s, before), DoStart(t, Shutdown, h)), during);
      var s3 := Run(s2, after);
      && Silent(s2.log, s3.log, h)
      && (h in s3.handles ==> s3.handles[h].fd < 0 && s3.handles[h].dirp < 0)
      && (forall n :: n in s3.fds ==> s3.fds[n].owner != HandleFd(h) && s3.fds[n].owner != HandleDir(h))
      && (u in s3.pcs && s3.pcs[u].Holds? && s3.pcs[u].h == h && !s3.pcs[u].op.Shutdown? ==>
            var s4 := Step(s3, DoCheck(u));
            s4.log == s3.log + [Refused(h)] && s4.pcs[u] == Idle && h in s4.handles && s4.handles[h].lock == -1)
  {
    CloseHolds(s, before, during, t, h);
    var s2 := Run(Step(Run(s, before), DoStart(t, Shutdown, h)), during);
    RunHolds(s2, after);
    GoneRun(s2, after, h);
    GoneAnswers(Run(s2, after), h, u);
  }

  lemma GoneAnswers(s: State, h: nat, u: nat)
    requires Inv(s) && IsGone(s, h)
    ensures forall n :: n in s.fds ==> s.fds[n].owner != HandleFd(h) && s.fds[n].owner != HandleDir(h)
    ensures u in s.pcs && s.pcs[u].Holds? && s.pcs[u].h == h && !s.pcs[u].op.Shutdown? ==>
      var s4 := Step(s, DoCheck(u));
      s4.log == s.log + [Refused(h)] && s4.pcs[u] == Idle && h in s4.handles && s4.handles[h].lock == -1
  {
    forall n | n in s.fds ensures s.fds[n].owner != HandleFd(h) && s.fds[n].owner != HandleDir(h) {
      assert Answers(s.handles, s.pcs, s.held, n, s.fds[n].owner);
    }
    if u in s.pcs { assert Entitled(s.handles, u, s.pcs[u]); }
  }

  // ------------------------------------------------------------ what an open handle answers

  /** An operation that looks at an open handle goes on with its number. */
  lemma OpenGoesOn(s: State, t: nat)
    requires Inv(s) && t in s.pcs && s.pcs[t].Holds? && !s.pcs[t].op.Shutdown?
    ensures s.pcs[t].h in s.handles
    ensures s.handles[s.pcs[t].h].fd >= 0 ==>
      var s' := Step(s, DoCheck(t));
      s'.pcs[t] == Uses(s.pcs[t].op, s.pcs[t].h, s.handles[s.pcs[t].h].fd) && s'.log == s.log && s'.fds == s.fds
  {
    assert Entitled(s.handles, t, s.pcs[t]);
  }

  /** A call on the descriptor is made, once, and reaches the file the handle was opened on. */
  lemma UseReaches(s: State, t: nat, m: nat, ok: bool)
    requires Inv(s) && t in s.pcs && s.pcs[t].Uses? && s.pcs[t].op.Use?
    ensures s.pcs[t].h in s.handles
    ensures var h := s.pcs[t].h;
      var s' := Step(s, DoCall(t, m, ok));
      && s'.log == s.log + [Touched(h, s.handles[h].file, Reached(s.handles[h].file))]
      && s'.fds == s.fds && s'.handles == s.handles && s'.pcs[t] == Leaves(h)
  {
    assert Current(s.fds, s.handles, t, s.pcs[t]);
    assert HasFd(s.fds, s.handles[s.pcs[t].h].fd, HandleFd(s.pcs[t].h), s.handles[s.pcs[t].h].file);
  }

  /** A copy is a new number for the same file, which the thread then holds; when it cannot be made there is none. */
  lemma CopyCopies(s: State, t: nat, m: nat, ok: bool)
    requires Inv(s) && t in s.pcs && s.pcs[t].Uses? && s.pcs[t].op.Copy? && m !in s.fds
    ensures s.pcs[t].h in s.handles
    ensures var h := s.pcs[t].h;
      var x := s.handles[h];
      var s' := Step(s, DoCall(t, m, ok));
      && s'.log == s.log + [Touched(h, x.file, Reached(x.file))]
      && (!ok ==> s'.fds == s.fds && s'.pcs[t] == Leaves(h))
      && (ok ==>
            && s'.fds == s.fds[m := Open(s.next, x.file, Thread(t))]
            && s'.pcs[t] == LeavesWith(h, m, x.file, x.isDir, s.pcs[t].op.forWalk))
  {
    assert Current(s.fds, s.handles, t, s.pcs[t]);
    assert HasFd(s.fds, s.handles[s.pcs[t].h].fd, HandleFd(s.pcs[t].h), s.handles[s.pcs[t].h].file);
  }

  /** Giving the lock back frees the handle, and the copy is the thread's. */
  lemma UnlockFrees(s: State, t: nat)
    requires Inv(s) && t in s.pcs && (s.pcs[t].Leaves? || s.pcs[t].LeavesWith?)
    ensures s.pcs[t].h in s.handles
    ensures var s' := Step(s, DoUnlock(t));
      && s'.pcs[t] == Idle && s'.handles[s.pcs[t].h] == s.handles[s.pcs[t].h].(lock := -1) && s'.fds == s.fds
      && (s.pcs[t].LeavesWith? ==>
            && s.pcs[t].n in s'.held
            && s'.held[s.pcs[t].n] == Held(t, s.pcs[t].file, s.pcs[t].isDir, s.pcs[t].forWalk))
      && (s.pcs[t].Leaves? ==> s'.held == s.held)
  {
    assert Entitled(s.handles, t, s.pcs[t]);
  }

  /** A new handle is on the file the thread held, under its number, and is open and free. */
  lemma MadeIsOpen(s: State, t: nat, n: nat)
    requires Inv(s) && Idles(s, t) && Has(s, t, n) && !s.held[n].forWalk
    ensures var h := s.nextHandle;
      var s' := Step(s, DoMake(t, n));
      && h !in s.handles && h in s'.handles
      && s'.handles[h] == Handle(n, -1, s.held[n].isDir, -1, s.held[n].file)
      && n in s'.fds && s'.fds[n].file == s.held[n].file && s'.fds[n].owner == HandleFd(h) && n !in s'.held
  {
    assert Mine(s.fds, s.held[n].t, n, s.held[n].file);
  }

  /** Reading a directory reads the stream of the handle's own directory, which is opened on a copy the first time. */
  lemma StreamReaches(s: State, t: nat, m: nat, ok: bool)
    requires Inv(s) && t in s.pcs && s.pcs[t].Streams?
    ensures s.pcs[t].h in s.handles
    ensures var h := s.pcs[t].h;
      var s' := Step(s, DoCall(t, m, ok));
      s'.log == s.log + [Touched(h, s.handles[h].file, Reached(s.handles[h].file))] && s'.pcs[t] == Leaves(h)
  {
    assert Current(s.fds, s.handles, t, s.pcs[t]);
    assert HasFd(s.fds, s.handles[s.pcs[t].h].dirp, HandleDir(s.pcs[t].h), s.handles[s.pcs[t].h].file);
  }

  lemma DirOpens(s: State, t: nat, m: nat, ok: bool)
    requires Inv(s) && t in s.pcs && s.pcs[t].Uses? && s.pcs[t].op.ReadDir? && m !in s.fds
    ensures s.pcs[t].h in s.handles
    ensures var h := s.pcs[t].h;
      var x := s.handles[h];
      var s' := Step(s, DoCall(t, m, ok));
      && (!x.isDir ==> s'.pcs[t] == Leaves(h) && s'.fds == s.fds)
      && (x.isDir && x.dirp >= 0 ==> s'.pcs[t] == Streams(h, x.dirp) && s'.fds == s.fds)
      && (x.isDir && x.dirp < 0 && ok ==>
            s'.pcs[t] == Adopts(h, m, x.file) && s'.fds == s.fds[m := Open(s.next, x.file, Thread(t))])
      && (x.isDir && x.dirp < 0 && !ok ==> s'.pcs[t] == Leaves(h) && s'.fds == s.fds)
  {
    assert Current(s.fds, s.handles, t, s.pcs[t]);
    assert HasFd(s.fds, s.handles[s.pcs[t].h].fd, HandleFd(s.pcs[t].h), s.handles[s.pcs[t].h].file);
  }

  /** The copy becomes the handle's stream, or is closed. */
  lemma AdoptAdopts(s: State, t: nat, ok: bool)
    requires Inv(s) && t in s.pcs && s.pcs[t].Adopts?
    ensures s.pcs[t].h in s.handles
    ensures var h := s.pcs[t].h;
      var n := s.pcs[t].n;
      var s' := Step(s, DoAdopt(t, ok));
      && (ok ==> s'.handles[h] == s.handles[h].(dirp := n) && s'.pcs[t] == Streams(h, n) && n in s'.fds)
      && (!ok ==> s'.handles == s.handles && s'.pcs[t] == Leaves(h) && n !in s'.fds)
  {
    assert Entitled(s.handles, t, s.pcs[t]) && Current(s.fds, s.handles, t, s.pcs[t]);
  }

  /** A call made on a handle waits for its lock, and a free lock is taken by whoever comes. */
  lemma LockTakes(s: State, t: nat, op: Op, h: nat)
    requires h in s.handles && t in s.pcs
    ensures s.pcs[t].Idle? ==> Step(s, DoStart(t, op, h)) == s.(pcs := s.pcs[t := Wants(op, h)])
    ensures s.pcs[t] == Wants(op, h) && s.handles[h].lock == -1 ==>
      var s' := Step(s, DoLock(t));
      s'.pcs[t] == Holds(op, h) && s'.handles[h] == s.handles[h].(lock := t) && s'.fds == s.fds
    ensures s.pcs[t] == Wants(op, h) && s.handles[h].lock != -1 ==> Step(s, DoLock(t)) == s
  {
  }

  /** What a thread holds is closed when it lets it go, and what a handle has when nobody refers to it any more. */
  lemma LetGoCloses(s: State, t: nat, n: nat)
    requires Inv(s) && Idles(s, t) && Has(s, t, n)
    ensures n in s.fds && n !in Step(s, DoDrop(t, n)).fds && n !in Step(s, DoDrop(t, n)).held
  {
    assert Mine(s.fds, t, n, s.held[n].file);
  }

  lemma DestroyCloses(s: State, h: nat)
    requires Inv(s) && h in s.handles && Unreferenced(s, h)
    ensures var s' := Step(s, DoDestroy(h));
      && h !in s'.handles
      && (s.handles[h].fd >= 0 ==> s.handles[h].fd in s.fds && s.handles[h].fd !in s'.fds)
      && (s.handles[h].dirp >= 0 ==> s.handles[h].dirp in s.fds && s.handles[h].dirp !in s'.fds)
  {
    var x := s.handles[h];
    assert HasFd(s.fds, x.fd, HandleFd(h), x.file) && HasFd(s.fds, x.dirp, HandleDir(h), x.file);
  }
}
