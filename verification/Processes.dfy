/** The life of a process: fork(), exit(), wait(), kill() and the scheduler, as they interleave under
    wait_lock and the p->lock of each process. */
module Processes {

  datatype Status = UNUSED | USED | SLEEPING | RUNNABLE | RUNNING | ZOMBIE

  /** Where a process is in the kernel. */
  datatype Pc =
    | Off                          // UNUSED: there is no process
    | Born(maker: nat)             // USED: being made by fork() of another
    | User                         // in user space, or in a call that is not modelled
    | Elsewhere                    // in a sleep() on some other channel
    | ForkCopy(c: nat)             // in fork(), with the p->lock of the child
    | ForkLink(c: nat)             // before acquire(&wait_lock)
    | ForkGo(c: nat)               // before the child is made RUNNABLE
    | Reparent(k: nat)             // in exit(), in reparent() at process k, with wait_lock
    | WakeInit(k: nat, j: nat)     // ... in wakeup() of init at process j, having moved process k
    | WakeParent(j: nat)           // ... in wakeup() of its own parent at process j
    | Last                         // ... about to become a zombie
    | Departing                    // ZOMBIE, still on its stack, with its own p->lock
    | Dead                         // ZOMBIE, off its stack
    | Scan(k: nat, have: bool)     // in wait(), at process k, with wait_lock
    | WaitLate                     // ... at the end of the table: there are children, and it was not killed
    | WaitSleep                    // in the sleep() of wait(), with its own p->lock
    | WaitAsleep                   // asleep there, or woken and not yet back

  datatype State = State(st: seq<Status>, pc: seq<Pc>, parent: seq<int>, pid: seq<int>, killed: seq<bool>,
                         waitLock: int, nextPid: int, reaps: seq<int>)

  datatype Action =
    | ForkAlloc(p: nat, c: nat) | ForkFail(p: nat) | ForkRelease(p: nat) | ForkSetParent(p: nat) | ForkRun(p: nat)
    | ExitStart(p: nat) | ReparentNext(p: nat) | WakeInitNext(p: nat) | WakeParentNext(p: nat) | BecomeZombie(p: nat)
    | Depart(p: nat)
    | WaitStart(p: nat) | ScanNext(p: nat) | WaitFail(p: nat) | WaitFault(p: nat) | WaitBlock(p: nat)
    | WaitLock(p: nat) | FallAsleep(p: nat)
    | SleepElsewhere(p: nat) | WakeElsewhere(p: nat) | Resume(p: nat)
    | Kill(p: nat) | Schedule(p: nat) | Yield(p: nat)

  const INIT := 0

  ghost predicate Shape(s: State) {
    0 < |s.st| == |s.pc| == |s.parent| == |s.pid| == |s.killed|
  }

  /** Has its own p->lock. */
  predicate OwnLock(pc: Pc) { pc == Departing || pc == WaitSleep }

  /** The p->lock of q is free: neither q nor a fork() that makes q has it. */
  predicate LockFree(s: State, q: nat)
    requires q < |s.pc|
  {
    !OwnLock(s.pc[q]) && (s.pc[q].Born? && s.pc[q].maker < |s.pc| ==> s.pc[s.pc[q].maker] != ForkCopy(q))
  }

  predicate HasWaitLock(pc: Pc) {
    pc.Reparent? || pc.WakeInit? || pc.WakeParent? || pc == Last || pc.Scan? || pc == WaitLate
  }

  /** wakeup() takes the p->lock of every process but its caller in turn. */
  predicate MayLook(s: State, p: nat, j: nat)
    requires Shape(s)
  {
    j < |s.pc| && j != p ==> LockFree(s, j)
  }

  /** Where a process holds no lock. */
  predicate MayYield(pc: Pc) { pc == User || pc.ForkLink? || pc.ForkGo? || pc == Elsewhere || pc == WaitAsleep }

  predicate Enabled(s: State, a: Action)
    requires Shape(s)
  {
    && a.p < |s.st|
    && match a
       case ForkAlloc(p, c) => s.st[p] == RUNNING && s.pc[p] == User && c < |s.st| && s.st[c] == UNUSED
       case ForkFail(p) => s.st[p] == RUNNING && s.pc[p].ForkCopy?
       case ForkRelease(p) => s.st[p] == RUNNING && s.pc[p].ForkCopy?
       case ForkSetParent(p) => s.st[p] == RUNNING && s.pc[p].ForkLink? && s.waitLock == -1
       case ForkRun(p) => s.st[p] == RUNNING && s.pc[p].ForkGo?
       case ExitStart(p) => s.st[p] == RUNNING && s.pc[p] == User && p != INIT && s.waitLock == -1
       case ReparentNext(p) => s.st[p] == RUNNING && s.pc[p].Reparent?
       case WakeInitNext(p) => s.st[p] == RUNNING && s.pc[p].WakeInit? && MayLook(s, p, s.pc[p].j)
       case WakeParentNext(p) => s.st[p] == RUNNING && s.pc[p].WakeParent? && MayLook(s, p, s.pc[p].j)
       case BecomeZombie(p) => s.st[p] == RUNNING && s.pc[p] == Last
       case Depart(p) => s.pc[p] == Departing
       case WaitStart(p) => s.st[p] == RUNNING && s.pc[p] == User && s.waitLock == -1
       case ScanNext(p) => s.st[p] == RUNNING && s.pc[p].Scan? && s.pc[p].k < |s.st|
         && (s.parent[s.pc[p].k] == p ==> LockFree(s, s.pc[p].k))
       case WaitFail(p) => s.st[p] == RUNNING && s.pc[p].Scan? && s.pc[p].k >= |s.st| && (!s.pc[p].have || s.killed[p])
       // a zombie is found, but the copy of its status to user space fails
       case WaitFault(p) => s.st[p] == RUNNING && s.pc[p].Scan? && s.pc[p].k < |s.st| && s.parent[s.pc[p].k] == p
         && s.st[s.pc[p].k] == ZOMBIE && LockFree(s, s.pc[p].k)
       case WaitBlock(p) => s.st[p] == RUNNING && s.pc[p].Scan? && s.pc[p].k >= |s.st| && s.pc[p].have && !s.killed[p]
       case WaitLock(p) => s.st[p] == RUNNING && s.pc[p] == WaitLate && LockFree(s, p)
       case FallAsleep(p) => s.pc[p] == WaitSleep
       case SleepElsewhere(p) => s.st[p] == RUNNING && s.pc[p] == User
       case WakeElsewhere(p) => s.st[p] == SLEEPING && s.pc[p] == Elsewhere
       case Resume(p) => s.st[p] == RUNNING && (s.pc[p] == Elsewhere || (s.pc[p] == WaitAsleep && s.waitLock == -1))
       case Kill(p) => LockFree(s, p) && s.st[p] != UNUSED
       case Schedule(p) => s.st[p] == RUNNABLE
       case Yield(p) => s.st[p] == RUNNING && MayYield(s.pc[p])
  }

  function Wake(s: State, q: nat): State
    requires Shape(s) && q < |s.st|
  {
    if s.st[q] == SLEEPING then s.(st := s.st[q := RUNNABLE]) else s
  }

  /** wakeup(q) by p, at process j: only q itself sleeps on q, in wait(). */
  function Look(s: State, p: nat, j: nat, q: int): State
    requires Shape(s) && j < |s.st|
  {
    if j != p && j == q && s.pc[j] == WaitAsleep then Wake(s, j) else s
  }

  /** freeproc() */
  function FreeProc(s: State, c: nat): State
    requires Shape(s) && c < |s.st|
  {
    s.(st := s.st[c := UNUSED], pc := s.pc[c := Off], parent := s.parent[c := -1], pid := s.pid[c := 0],
      killed := s.killed[c := false])
  }

  function Go(s: State, p: nat, pc: Pc): State
    requires p < |s.pc|
  {
    s.(pc := s.pc[p := pc])
  }

  function Do(s: State, a: Action): State
    requires Shape(s) && Enabled(s, a)
  {
    match a
    case ForkAlloc(p, c) => s.(st := s.st[c := USED], pc := s.pc[c := Born(p)][p := ForkCopy(c)],
      pid := s.pid[c := s.nextPid], nextPid := s.nextPid + 1)
    case ForkFail(p) => if s.pc[p].c < |s.st| then Go(FreeProc(s, s.pc[p].c), p, User) else s
    case ForkRelease(p) => Go(s, p, ForkLink(s.pc[p].c))
    case ForkSetParent(p) => if s.pc[p].c < |s.st| then Go(s.(parent := s.parent[s.pc[p].c := p]), p, ForkGo(s.pc[p].c))
      else s
    case ForkRun(p) => if s.pc[p].c < |s.st|
      then s.(st := s.st[s.pc[p].c := RUNNABLE], pc := s.pc[s.pc[p].c := User][p := User]) else s
    case ExitStart(p) => Go(s, p, Reparent(0)).(waitLock := p)
    case ReparentNext(p) =>
      var k := s.pc[p].k;
      if k >= |s.st| then Go(s, p, WakeParent(0))
      else if s.parent[k] == p then Go(s.(parent := s.parent[k := INIT]), p, WakeInit(k, 0))
      else Go(s, p, Reparent(k + 1))
    case WakeInitNext(p) =>
      var k, j := s.pc[p].k, s.pc[p].j;
      if j >= |s.st| then Go(s, p, Reparent(k + 1)) else Go(Look(s, p, j, INIT), p, WakeInit(k, j + 1))
    case WakeParentNext(p) =>
      var j := s.pc[p].j;
      if j >= |s.st| then Go(s, p, Last) else Go(Look(s, p, j, s.parent[p]), p, WakeParent(j + 1))
    case BecomeZombie(p) => Go(s, p, Departing).(st := s.st[p := ZOMBIE], waitLock := -1)
    case Depart(p) => Go(s, p, Dead)
    case WaitStart(p) => Go(s, p, Scan(0, false)).(waitLock := p)
    case ScanNext(p) =>
      var k := s.pc[p].k;
      if s.parent[k] == p
        && s.st[k] == ZOMBIE then Go(FreeProc(s, k), p, User).(waitLock := -1, reaps := s.reaps + [s.pid[k]])
      else Go(s, p, Scan(k + 1, s.pc[p].have || s.parent[k] == p))
    case WaitFail(p) => Go(s, p, User).(waitLock := -1)
    case WaitFault(p) => Go(s, p, User).(waitLock := -1)
    case WaitBlock(p) => Go(s, p, WaitLate)
    case WaitLock(p) => Go(s, p, WaitSleep).(waitLock := -1)
    case FallAsleep(p) => Go(s, p, WaitAsleep).(st := s.st[p := SLEEPING])
    case SleepElsewhere(p) => Go(s, p, Elsewhere).(st := s.st[p := SLEEPING])
    case WakeElsewhere(p) => Wake(s, p)
    case Resume(p) => if s.pc[p] == WaitAsleep then Go(s, p, Scan(0, false)).(waitLock := p) else Go(s, p, User)
    case Kill(p) => Wake(s, p).(killed := s.killed[p := true])
    case Schedule(p) => s.(st := s.st[p := RUNNING])
    case Yield(p) => s.(st := s.st[p := RUNNABLE])
  }

  /** Only init, with process number 0 and pid 1. */
  ghost predicate Init(s: State) {
    && Shape(s) && s.st[INIT] == RUNNABLE && s.pc[INIT] == User && s.pid[INIT] == 1 && s.parent[INIT] == -1
    && s.waitLock == -1 && s.nextPid == 2 && s.reaps == []
    && (forall p | 0 < p < |s.st| :: s.st[p] == UNUSED && s.pc[p] == Off && s.pid[p] == 0 && s.parent[p] == -1)
  }

  // ---------------------------------------------------------------- the invariant

  /** The state field fits where the process is. */
  predicate Fits(st: Status, pc: Pc) {
    match pc
    case Off => st == UNUSED
    case Born(_) => st == USED
    case User => st == RUNNABLE || st == RUNNING
    case Elsewhere => st == SLEEPING || st == RUNNABLE || st == RUNNING
    case ForkCopy(_) => st == RUNNING
    case ForkLink(_) => st == RUNNABLE || st == RUNNING
    case ForkGo(_) => st == RUNNABLE || st == RUNNING
    case Departing => st == ZOMBIE
    case Dead => st == ZOMBIE
    case WaitAsleep => st == SLEEPING || st == RUNNABLE || st == RUNNING
    case _ => st == RUNNING
  }

  function ChildOf(pc: Pc): int {
    match pc
    case ForkCopy(c) => c
    case ForkLink(c) => c
    case ForkGo(c) => c
    case _ => -1
  }

  ghost predicate Locking(s: State, p: nat)
    requires Shape(s) && p < |s.st|
  {
    && Fits(s.st[p], s.pc[p]) && (HasWaitLock(s.pc[p]) <==> s.waitLock == p)
    && (ChildOf(s.pc[p]) != -1 ==> 0 <= ChildOf(s.pc[p]) < |s.st| && s.pc[ChildOf(s.pc[p])] == Born(p))
    && (s.pc[p].Born? ==> s.pc[p].maker < |s.st| && ChildOf(s.pc[s.pc[p].maker]) == p)
    && (s.pc[p].WakeInit? ==> s.pc[p].k < |s.st|) && (s.pc[p].Scan? ==> s.pc[p].k <= |s.st|)
    && (p == INIT ==> !s.pc[p].Off? && !s.pc[p].Born? && !Exiting(s.pc[p]))
  }

  predicate Exiting(pc: Pc) {
    pc.Reparent? || pc.WakeInit? || pc.WakeParent? || pc == Last || pc == Departing || pc == Dead
  }

  predicate Alive(st: Status) { st == SLEEPING || st == RUNNABLE || st == RUNNING }

  function Linked(s: State, maker: nat, c: nat): int
    requires Shape(s) && maker < |s.st|
  {
    if s.pc[maker] == ForkGo(c) then maker else -1
  }

  /** The parent of c: alive, for a process that has started; for one in the making, the process
      that makes it, once it is linked. */
  ghost predicate Family(s: State, c: nat)
    requires Shape(s) && c < |s.st|
  {
    && (c != INIT && (Alive(s.st[c]) || s.st[c] == ZOMBIE) ==> 0 <= s.parent[c] < |s.st| && Alive(s.st[s.parent[c]]))
    && (s.st[c] == UNUSED ==> s.parent[c] == -1)
    && (s.pc[c].Born? && s.pc[c].maker < |s.st| ==> s.parent[c] == Linked(s, s.pc[c].maker, c))
    && (c == INIT ==> s.parent[c] == -1)
  }

  /** An exiting process has handed over its children, as far as it has come. */
  ghost predicate HandedOver(s: State, p: nat, c: nat)
    requires Shape(s) && p < |s.st| && c < |s.st|
  {
    match s.pc[p]
    case Reparent(k) => c < k ==> s.parent[c] != p
    case WakeInit(k, _) => c <= k ==> s.parent[c] != p
    case WakeParent(_) => s.parent[c] != p
    case Last => s.parent[c] != p
    case _ => true
  }

  /** Asleep in wait(), or past the point of no return. */
  predicate WaitsAsleep(s: State, q: nat)
    requires Shape(s) && q < |s.st|
  {
    s.pc[q] == WaitSleep || (s.pc[q] == WaitAsleep && s.st[q] == SLEEPING)
  }

  /** No child c of q is a zombie while q sleeps in wait(), but for a moment in reparent(). */
  ghost predicate Noticed(s: State, c: nat)
    requires Shape(s) && c < |s.st|
  {
    0 <= s.parent[c] < |s.st| && WaitsAsleep(s, s.parent[c]) ==>
      && s.pc[c] != Last && (s.pc[c].WakeParent? ==> s.pc[c].j <= s.parent[c])
      && (s.st[c] == ZOMBIE ==> s.parent[c] == INIT && 0 <= s.waitLock < |s.st| && s.pc[s.waitLock] == WakeInit(c,
        INIT))
  }

  /** What wait() has found out on its way through the table. */
  ghost predicate Scanned(s: State, p: nat, c: nat)
    requires Shape(s) && p < |s.st| && c < |s.st|
  {
    && (s.pc[p].Scan? && c < s.pc[p].k && s.parent[c] == p ==> s.pc[p].have && s.st[c] != ZOMBIE)
    && (s.pc[p] == WaitLate && s.parent[c] == p ==> s.st[c] != ZOMBIE)
  }

  ghost predicate Pids(s: State)
    requires Shape(s)
  {
    && 0 < s.nextPid
    && (forall p {:trigger s.pid[p]} | 0 <= p < |s.st| ::
          if s.st[p] == UNUSED then s.pid[p] == 0 else 0 < s.pid[p] < s.nextPid && s.pid[p] !in s.reaps)
    && (forall p, q {:trigger s.pid[p], s.pid[q]} | 0 <= p < |s.st| && 0 <= q < |s.st| && p != q && s.st[p] != UNUSED ::
          s.pid[p] != s.pid[q])
    && (forall i {:trigger s.reaps[i]} | 0 <= i < |s.reaps| :: 0 < s.reaps[i] < s.nextPid)
    && (forall i, j | 0 <= i < j < |s.reaps| :: s.reaps[i] != s.reaps[j])
  }

  ghost predicate Lockings(s: State)
    requires Shape(s)
  {
    forall p {:trigger Locking(s, p)} | 0 <= p < |s.st| :: Locking(s, p)
  }

  ghost predicate Families(s: State)
    requires Shape(s)
  {
    forall c {:trigger Family(s, c)} | 0 <= c < |s.st| :: Family(s, c)
  }

  ghost predicate HandOvers(s: State)
    requires Shape(s)
  {
    forall p, c {:trigger HandedOver(s, p, c)} | 0 <= p < |s.st| && 0 <= c < |s.st| :: HandedOver(s, p, c)
  }

  ghost predicate AllNoticed(s: State)
    requires Shape(s)
  {
    forall c {:trigger Noticed(s, c)} | 0 <= c < |s.st| :: Noticed(s, c)
  }

  ghost predicate AllScanned(s: State)
    requires Shape(s)
  {
    forall p, c {:trigger Scanned(s, p, c)} | 0 <= p < |s.st| && 0 <= c < |s.st| :: Scanned(s, p, c)
  }

  ghost predicate Inv(s: State) {
    && Shape(s) && Lockings(s) && Families(s) && HandOvers(s) && AllNoticed(s) && AllScanned(s) && Pids(s)
    && -1 <= s.waitLock < |s.st|
  }

  // ---------------------------------------------------------------- each step keeps it

  /** The steps by the part of the code that they belong to: fork(), from its allocation of a process on;
      exit(), from reparent() on; wait(), from its loop on; and what is left. */
  datatype Part =
    | InMake | InUnmake | InLink | InHand | InWakeInit | InWake | InLeave
    | InScan | InBegin | InGiveUp | InSleep | InResume | InOther

  function PartOf(a: Action): Part {
    match a
    case ForkAlloc(_, _) => InMake
    case ForkFail(_) => InUnmake
    case ForkRelease(_) => InLink
    case ForkSetParent(_) => InLink
    case ForkRun(_) => InLink
    case ReparentNext(_) => InHand
    case WakeInitNext(_) => InWakeInit
    case WakeParentNext(_) => InWake
    case ExitStart(_) => InLeave
    case BecomeZombie(_) => InLeave
    case Depart(_) => InLeave
    case WaitStart(_) => InBegin
    case ScanNext(_) => InScan
    case WaitFail(_) => InGiveUp
    case WaitFault(_) => InGiveUp
    case WaitBlock(_) => InSleep
    case WaitLock(_) => InSleep
    case FallAsleep(_) => InSleep
    case Resume(_) => InResume
    case SleepElsewhere(_) => InOther
    case WakeElsewhere(_) => InOther
    case Kill(_) => InOther
    case Schedule(_) => InOther
    case Yield(_) => InOther
  }

  /** The places of the processes that a step has to do with. */
  lemma Related(s: State, a: Action, p: nat)
    requires Shape(s) && Lockings(s) && Enabled(s, a) && p < |s.st|
    ensures Locking(s, p) && Locking(s, a.p) && Locking(s, INIT)
    ensures var c := ChildOf(s.pc[a.p]); c != -1 ==> 0 <= c < |s.st| && Locking(s, c)
    ensures var c := ChildOf(s.pc[p]); c != -1 ==> 0 <= c < |s.st| && Locking(s, c)
    ensures s.pc[p].Born? ==> s.pc[p].maker < |s.st| && Locking(s, s.pc[p].maker)
    ensures a.ForkAlloc? ==> Locking(s, a.c)
    ensures a.ScanNext? ==> Locking(s, s.pc[a.p].k)
  {
    assert Locking(s, p) && Locking(s, a.p);
  }

  ghost predicate SameShape(s: State, s': State) { Shape(s') && |s'.st| == |s.st| }

  lemma StepShape(s: State, a: Action)
    requires Shape(s) && Enabled(s, a)
    ensures SameShape(s, Do(s, a))
  {}

  lemma LockingUnmake(s: State, a: Action, p: nat)
    requires Shape(s) && Lockings(s) && Enabled(s, a) && p < |s.st| && PartOf(a) == InUnmake && SameShape(s, Do(s, a))
    ensures Locking(Do(s, a), p)
  {
    Related(s, a, p);
  }

  lemma LockingMake(s: State, a: Action, p: nat)
    requires Shape(s) && Lockings(s) && Enabled(s, a) && p < |s.st| && PartOf(a) == InMake && SameShape(s, Do(s, a))
    ensures Locking(Do(s, a), p)
  {
    Related(s, a, p);
  }

  lemma LockingLink(s: State, a: Action, p: nat)
    requires Shape(s) && Lockings(s) && Enabled(s, a) && p < |s.st| && PartOf(a) == InLink && SameShape(s, Do(s, a))
    ensures Locking(Do(s, a), p)
  {
    Related(s, a, p);
  }

  lemma LockingHand(s: State, a: Action, p: nat)
    requires Shape(s) && Lockings(s) && Enabled(s, a) && p < |s.st| && PartOf(a) == InHand && SameShape(s, Do(s, a))
    ensures Locking(Do(s, a), p)
  {
    Related(s, a, p);
  }

  lemma LockingWakeInit(s: State, a: Action, p: nat)
    requires Shape(s) && Lockings(s) && Enabled(s, a) && p < |s.st| && PartOf(a) == InWakeInit && SameShape(s, Do(s, a))
    ensures Locking(Do(s, a), p)
  {
    Related(s, a, p);
  }

  lemma LockingWake(s: State, a: Action, p: nat)
    requires Shape(s) && Lockings(s) && Enabled(s, a) && p < |s.st| && PartOf(a) == InWake && SameShape(s, Do(s, a))
    ensures Locking(Do(s, a), p)
  {
    Related(s, a, p);
  }

  lemma LockingLeave(s: State, a: Action, p: nat)
    requires Shape(s) && Lockings(s) && Enabled(s, a) && p < |s.st| && PartOf(a) == InLeave && SameShape(s, Do(s, a))
    ensures Locking(Do(s, a), p)
  {
    Related(s, a, p);
  }

  lemma LockingBegin(s: State, a: Action, p: nat)
    requires Shape(s) && Lockings(s) && Enabled(s, a) && p < |s.st| && PartOf(a) == InBegin && SameShape(s, Do(s, a))
    ensures Locking(Do(s, a), p)
  {
    Related(s, a, p);
  }

  lemma LockingScan(s: State, a: Action, p: nat)
    requires Shape(s) && Lockings(s) && Enabled(s, a) && p < |s.st| && PartOf(a) == InScan && SameShape(s, Do(s, a))
    ensures Locking(Do(s, a), p)
  {
    Related(s, a, p);
  }

  lemma LockingGiveUp(s: State, a: Action, p: nat)
    requires Shape(s) && Lockings(s) && Enabled(s, a) && p < |s.st| && PartOf(a) == InGiveUp && SameShape(s, Do(s, a))
    ensures Locking(Do(s, a), p)
  {
    Related(s, a, p);
  }

  lemma LockingResume(s: State, a: Action, p: nat)
    requires Shape(s) && Lockings(s) && Enabled(s, a) && p < |s.st| && PartOf(a) == InResume && SameShape(s, Do(s, a))
    ensures Locking(Do(s, a), p)
  {
    Related(s, a, p);
  }

  lemma LockingSleep(s: State, a: Action, p: nat)
    requires Shape(s) && Lockings(s) && Enabled(s, a) && p < |s.st| && PartOf(a) == InSleep && SameShape(s, Do(s, a))
    ensures Locking(Do(s, a), p)
  {
    Related(s, a, p);
  }

  lemma LockingOther(s: State, a: Action, p: nat)
    requires Shape(s) && Lockings(s) && Enabled(s, a) && p < |s.st| && PartOf(a) == InOther && SameShape(s, Do(s, a))
    ensures Locking(Do(s, a), p)
  {
    Related(s, a, p);
  }

  lemma StepLocking(s: State, a: Action, p: nat)
    requires Shape(s) && Lockings(s) && Enabled(s, a) && p < |s.st| && SameShape(s, Do(s, a))
    ensures Locking(Do(s, a), p)
  {
    match PartOf(a)
    case InUnmake => LockingUnmake(s, a, p);
    case InMake => LockingMake(s, a, p);
    case InLink => LockingLink(s, a, p);
    case InHand => LockingHand(s, a, p);
    case InWakeInit => LockingWakeInit(s, a, p);
    case InWake => LockingWake(s, a, p);
    case InLeave => LockingLeave(s, a, p);
    case InBegin => LockingBegin(s, a, p);
    case InScan => LockingScan(s, a, p);
    case InGiveUp => LockingGiveUp(s, a, p);
    case InResume => LockingResume(s, a, p);
    case InSleep => LockingSleep(s, a, p);
    case InOther => LockingOther(s, a, p);
  }

  /** The families that a step has to do with. */
  lemma Relatives(s: State, a: Action, c: nat)
    requires Inv(s) && Enabled(s, a) && c < |s.st|
    ensures Family(s, c) && HandedOver(s, a.p, c) && Noticed(s, c) && Scanned(s, a.p, c)
    ensures 0 <= s.parent[c] < |s.st| ==> Locking(s, s.parent[c])
    ensures a.ScanNext? ==> Family(s, s.pc[a.p].k)
    ensures 0 <= s.waitLock < |s.st| ==> Locking(s, s.waitLock)
  {
    assert Family(s, c) && HandedOver(s, a.p, c) && Noticed(s, c) && Scanned(s, a.p, c);
  }

  lemma FamilyUnmake(s: State, a: Action, c: nat)
    requires Inv(s) && Enabled(s, a) && c < |s.st| && SameShape(s, Do(s, a)) && PartOf(a) == InUnmake
    ensures Family(Do(s, a), c) && Noticed(Do(s, a), c)
  {
    Related(s, a, c);
    Relatives(s, a, c);
  }

  lemma FamilyMake(s: State, a: Action, c: nat)
    requires Inv(s) && Enabled(s, a) && c < |s.st| && SameShape(s, Do(s, a)) && PartOf(a) == InMake
    ensures Family(Do(s, a), c) && Noticed(Do(s, a), c)
  {
    Related(s, a, c);
    Relatives(s, a, c);
  }

  lemma FamilyLink(s: State, a: Action, c: nat)
    requires Inv(s) && Enabled(s, a) && c < |s.st| && SameShape(s, Do(s, a)) && PartOf(a) == InLink
    ensures Family(Do(s, a), c) && Noticed(Do(s, a), c)
  {
    Related(s, a, c);
    Relatives(s, a, c);
  }

  lemma FamilyHand(s: State, a: Action, c: nat)
    requires Inv(s) && Enabled(s, a) && c < |s.st| && SameShape(s, Do(s, a)) && PartOf(a) == InHand
    ensures Family(Do(s, a), c) && Noticed(Do(s, a), c)
  {
    Related(s, a, c);
    Relatives(s, a, c);
  }

  lemma FamilyWakeInit(s: State, a: Action, c: nat)
    requires Inv(s) && Enabled(s, a) && c < |s.st| && SameShape(s, Do(s, a)) && PartOf(a) == InWakeInit
    ensures Family(Do(s, a), c) && Noticed(Do(s, a), c)
  {
    Related(s, a, c);
    Relatives(s, a, c);
  }

  lemma FamilyWake(s: State, a: Action, c: nat)
    requires Inv(s) && Enabled(s, a) && c < |s.st| && SameShape(s, Do(s, a)) && PartOf(a) == InWake
    ensures Family(Do(s, a), c)
  {
    assert Family(s, c) && Locking(s, a.p) && Locking(s, c);
    assert 0 <= s.parent[c] < |s.st| ==> Locking(s, s.parent[c]);
  }

  lemma NoticedWake(s: State, a: Action, c: nat)
    requires Inv(s) && Enabled(s, a) && c < |s.st| && SameShape(s, Do(s, a)) && PartOf(a) == InWake
    ensures Noticed(Do(s, a), c)
  {
    assert Noticed(s, c) && Locking(s, a.p);
  }

  lemma FamilyLeave(s: State, a: Action, c: nat)
    requires Inv(s) && Enabled(s, a) && c < |s.st| && SameShape(s, Do(s, a)) && PartOf(a) == InLeave
    ensures Family(Do(s, a), c) && Noticed(Do(s, a), c)
  {
    Related(s, a, c);
    Relatives(s, a, c);
  }

  lemma FamilyBegin(s: State, a: Action, c: nat)
    requires Inv(s) && Enabled(s, a) && c < |s.st| && SameShape(s, Do(s, a)) && PartOf(a) == InBegin
    ensures Family(Do(s, a), c) && Noticed(Do(s, a), c)
  {
    Related(s, a, c);
    Relatives(s, a, c);
  }

  lemma FamilyScan(s: State, a: Action, c: nat)
    requires Inv(s) && Enabled(s, a) && c < |s.st| && SameShape(s, Do(s, a)) && PartOf(a) == InScan
    ensures Family(Do(s, a), c) && Noticed(Do(s, a), c)
  {
    Related(s, a, c);
    Relatives(s, a, c);
  }

  lemma FamilyGiveUp(s: State, a: Action, c: nat)
    requires Inv(s) && Enabled(s, a) && c < |s.st| && SameShape(s, Do(s, a)) && PartOf(a) == InGiveUp
    ensures Family(Do(s, a), c) && Noticed(Do(s, a), c)
  {
    Related(s, a, c);
    Relatives(s, a, c);
  }

  lemma FamilyResume(s: State, a: Action, c: nat)
    requires Inv(s) && Enabled(s, a) && c < |s.st| && SameShape(s, Do(s, a)) && PartOf(a) == InResume
    ensures Family(Do(s, a), c) && Noticed(Do(s, a), c)
  {
    Related(s, a, c);
    Relatives(s, a, c);
  }

  lemma FamilySleep(s: State, a: Action, c: nat)
    requires Inv(s) && Enabled(s, a) && c < |s.st| && SameShape(s, Do(s, a)) && PartOf(a) == InSleep
    ensures Family(Do(s, a), c) && Noticed(Do(s, a), c)
  {
    Related(s, a, c);
    Relatives(s, a, c);
  }

  lemma FamilyOther(s: State, a: Action, c: nat)
    requires Inv(s) && Enabled(s, a) && c < |s.st| && SameShape(s, Do(s, a)) && PartOf(a) == InOther
    ensures Family(Do(s, a), c)
  {
    Related(s, a, c);
    Relatives(s, a, c);
  }

  lemma NoticedOther(s: State, a: Action, c: nat)
    requires Inv(s) && Enabled(s, a) && c < |s.st| && SameShape(s, Do(s, a)) && PartOf(a) == InOther
    ensures Noticed(Do(s, a), c)
  {
    Relatives(s, a, c);
    assert Locking(s, a.p) && Locking(s, c);
  }

  lemma StepFamily(s: State, a: Action, c: nat)
    requires Inv(s) && Enabled(s, a) && c < |s.st| && SameShape(s, Do(s, a))
    ensures Family(Do(s, a), c) && Noticed(Do(s, a), c)
  {
    match PartOf(a)
    case InUnmake => FamilyUnmake(s, a, c);
    case InMake => FamilyMake(s, a, c);
    case InLink => FamilyLink(s, a, c);
    case InHand => FamilyHand(s, a, c);
    case InWakeInit => FamilyWakeInit(s, a, c);
    case InWake => FamilyWake(s, a, c); NoticedWake(s, a, c);
    case InLeave => FamilyLeave(s, a, c);
    case InBegin => FamilyBegin(s, a, c);
    case InScan => FamilyScan(s, a, c);
    case InGiveUp => FamilyGiveUp(s, a, c);
    case InResume => FamilyResume(s, a, c);
    case InSleep => FamilySleep(s, a, c);
    case InOther => FamilyOther(s, a, c); NoticedOther(s, a, c);
  }

  /** The steps that change who is in the process table, or who is whose child's maker. */
  predicate Rare(a: Action) {
    PartOf(a) == InMake || PartOf(a) == InUnmake || PartOf(a) == InLink || PartOf(a) == InScan
  }

  /** The steps of exit(). */
  predicate Exits(a: Action) {
    PartOf(a) == InHand || PartOf(a) == InWakeInit || PartOf(a) == InWake || PartOf(a) == InLeave
  }

  lemma HandedOverRare(s: State, a: Action, p: nat, c: nat)
    requires Inv(s) && Enabled(s, a) && p < |s.st| && c < |s.st| && SameShape(s, Do(s, a)) && Rare(a)
    ensures HandedOver(Do(s, a), p, c)
  {
    Bystanders(s, a, p, c);
  }

  lemma HandedOverExit(s: State, a: Action, p: nat, c: nat)
    requires Inv(s) && Enabled(s, a) && p < |s.st| && c < |s.st| && SameShape(s, Do(s, a)) && Exits(a)
    ensures HandedOver(Do(s, a), p, c)
  {
    Bystanders(s, a, p, c);
  }

  lemma HandedOverCommon(s: State, a: Action, p: nat, c: nat)
    requires Inv(s) && Enabled(s, a) && p < |s.st| && c < |s.st| && SameShape(s, Do(s, a)) && !Rare(a) && !Exits(a)
    ensures HandedOver(Do(s, a), p, c)
  {
    Bystanders(s, a, p, c);
  }

  lemma ScannedRare(s: State, a: Action, p: nat, c: nat)
    requires Inv(s) && Enabled(s, a) && p < |s.st| && c < |s.st| && SameShape(s, Do(s, a)) && Rare(a)
    requires PartOf(a) != InScan
    ensures Scanned(Do(s, a), p, c)
  {
    Bystanders(s, a, p, c);
  }

  lemma ScannedScan(s: State, a: Action, p: nat, c: nat)
    requires Inv(s) && Enabled(s, a) && p < |s.st| && c < |s.st| && SameShape(s, Do(s, a)) && PartOf(a) == InScan
    ensures Scanned(Do(s, a), p, c)
  {
    Bystanders(s, a, p, c);
  }

  lemma ScannedExit(s: State, a: Action, p: nat, c: nat)
    requires Inv(s) && Enabled(s, a) && p < |s.st| && c < |s.st| && SameShape(s, Do(s, a)) && Exits(a)
    ensures Scanned(Do(s, a), p, c)
  {
    Bystanders(s, a, p, c);
  }

  lemma ScannedCommon(s: State, a: Action, p: nat, c: nat)
    requires Inv(s) && Enabled(s, a) && p < |s.st| && c < |s.st| && SameShape(s, Do(s, a)) && !Rare(a) && !Exits(a)
    ensures Scanned(Do(s, a), p, c)
  {
    Bystanders(s, a, p, c);
  }

  lemma StepScanned(s: State, a: Action, p: nat, c: nat)
    requires Inv(s) && Enabled(s, a) && p < |s.st| && c < |s.st| && SameShape(s, Do(s, a))
    ensures Scanned(Do(s, a), p, c)
  {
    if PartOf(a) == InScan {
      ScannedScan(s, a, p, c);
    } else if Rare(a) {
      ScannedRare(s, a, p, c);
    } else if Exits(a) {
      ScannedExit(s, a, p, c);
    } else {
      ScannedCommon(s, a, p, c);
    }
  }

  lemma Bystanders(s: State, a: Action, p: nat, c: nat)
    requires Inv(s) && Enabled(s, a) && p < |s.st| && c < |s.st|
    ensures HandedOver(s, p, c) && Scanned(s, p, c) && Family(s, c)
    ensures Locking(s, p) && Locking(s, a.p) && Locking(s, INIT) && Locking(s, c)
    ensures var d := ChildOf(s.pc[a.p]); d != -1 ==> 0 <= d < |s.st| && Locking(s, d)
  {
    assert Locking(s, a.p);
  }

  lemma PidsRare(s: State, a: Action)
    requires Inv(s) && Enabled(s, a) && SameShape(s, Do(s, a)) && Rare(a)
    ensures Pids(Do(s, a))
  {
    Bystanders(s, a, a.p, INIT);
  }

  lemma PidsCommon(s: State, a: Action)
    requires Inv(s) && Enabled(s, a) && SameShape(s, Do(s, a)) && !Rare(a)
    ensures Pids(Do(s, a))
  {
    assert Locking(s, a.p);
  }

  lemma StepInv(s: State, a: Action)
    requires Inv(s) && Enabled(s, a)
    ensures Inv(Do(s, a)) && |Do(s, a).st| == |s.st|
  {
    StepShape(s, a);
    var s' := Do(s, a);
    forall p {:trigger Locking(s', p)} | 0 <= p < |s.st| ensures Locking(s', p) { StepLocking(s, a, p); }
    forall c {:trigger Family(s', c)} | 0 <= c < |s.st| ensures Family(s', c) { StepFamily(s, a, c); }
    forall p, c {:trigger HandedOver(s', p, c)} | 0 <= p < |s.st| && 0 <= c < |s.st| ensures HandedOver(s', p, c) {
      if Rare(a) {
        HandedOverRare(s, a, p, c);
      } else if Exits(a) {
        HandedOverExit(s, a, p, c);
      } else {
        HandedOverCommon(s, a, p, c);
      }
    }
    forall c {:trigger Noticed(s', c)} | 0 <= c < |s.st| ensures Noticed(s', c) { StepFamily(s, a, c); }
    forall p, c {:trigger Scanned(s', p, c)} | 0 <= p < |s.st| && 0 <= c < |s.st| ensures Scanned(s', p, c) {
      StepScanned(s, a, p, c);
    }
    if Rare(a) { PidsRare(s, a); } else { PidsCommon(s, a); }
  }

  // ---------------------------------------------------------------- in every run

  ghost predicate Run(run: seq<State>, acts: seq<Action>) {
    && |run| == |acts| + 1 && Init(run[0]) && (forall i {:trigger run[i]} | 0 <= i < |run| :: Shape(run[i]))
    && (forall i {:trigger acts[i]} | 0 <= i < |acts| :: Enabled(run[i], acts[i]) && run[i + 1] == Do(run[i], acts[i]))
  }

  lemma InitInv(s: State)
    requires Init(s)
    ensures Inv(s)
  {
    forall p {:trigger Locking(s, p)} | 0 <= p < |s.st| ensures Locking(s, p) {
      assert p == INIT || s.pc[p] == Off;
    }
    forall c {:trigger Family(s, c)} | 0 <= c < |s.st| ensures Family(s, c) {
      assert c == INIT || s.st[c] == UNUSED;
    }
    forall p, c {:trigger HandedOver(s, p, c)} | 0 <= p < |s.st| && 0 <= c < |s.st|
      ensures HandedOver(s, p, c) && Scanned(s, p, c)
    {
      assert p == INIT || s.pc[p] == Off;
    }
    forall p, c {:trigger Scanned(s, p, c)} | 0 <= p < |s.st| && 0 <= c < |s.st| ensures Scanned(s, p, c) {
      assert p == INIT || s.pc[p] == Off;
    }
    forall c {:trigger Noticed(s, c)} | 0 <= c < |s.st| ensures Noticed(s, c) {
      assert s.parent[c] == -1;
    }
  }

  lemma {:induction false} RunInv(run: seq<State>, acts: seq<Action>, i: nat)
    requires Run(run, acts) && i < |run|
    ensures Inv(run[i]) && |run[i].st| == |run[0].st|
  {
    if i == 0 {
      InitInv(run[0]);
    } else {
      RunInv(run, acts, i - 1);
      assert Enabled(run[i - 1], acts[i - 1]);
      StepInv(run[i - 1], acts[i - 1]);
    }
  }

  /** Every process that has started, or is a zombie, has a parent that is neither gone nor a zombie;
      init itself stays. */
  lemma ParentsLive(run: seq<State>, acts: seq<Action>, i: nat, c: nat)
    requires Run(run, acts) && i < |run| && c < |run[i].st|
    ensures Alive(run[i].st[INIT])
    ensures c != INIT && (Alive(run[i].st[c]) || run[i].st[c] == ZOMBIE) ==>
      0 <= run[i].parent[c] < |run[i].st| && Alive(run[i].st[run[i].parent[c]])
  {
    RunInv(run, acts, i);
    assert Family(run[i], c) && Locking(run[i], INIT);
  }

  /** While wait_lock is free, no process sleeps in wait() that has a zombie child: the wakeup of
      exit() is never lost. */
  lemma NoSleepOverZombie(run: seq<State>, acts: seq<Action>, i: nat, c: nat)
    requires Run(run, acts) && i < |run| && c < |run[i].st| && 0 <= run[i].parent[c] < |run[i].st|
    requires run[i].waitLock == -1 && WaitsAsleep(run[i], run[i].parent[c])
    ensures run[i].st[c] != ZOMBIE
  {
    RunInv(run, acts, i);
    assert Noticed(run[i], c);
  }

  /** No process is reaped twice, whoever waits, and none that is still there has been reaped. */
  lemma ReapedOnce(run: seq<State>, acts: seq<Action>, i: nat, j: nat, k: nat)
    requires Run(run, acts) && i < |run| && j < k < |run[i].reaps|
    ensures run[i].reaps[j] != run[i].reaps[k]
    ensures forall p | 0 <= p < |run[i].st| && run[i].st[p] != UNUSED :: run[i].pid[p] != run[i].reaps[j]
  {
    RunInv(run, acts, i);
  }

  /** What is reaped is a zombie child of the process that waits, and it has left its stack. */
  lemma ReapsOnlyTheDead(run: seq<State>, acts: seq<Action>, i: nat)
    requires Run(run, acts) && i < |acts| && |run[i + 1].reaps| != |run[i].reaps|
    ensures acts[i].ScanNext?
    ensures var s, p := run[i], acts[i].p;
            exists c {:trigger s.pid[c]} ::
              0 <= c < |s.st| && s.parent[c] == p && s.st[c] == ZOMBIE && s.pc[c] == Dead
              && run[i + 1].reaps == s.reaps + [s.pid[c]]
  {
    RunInv(run, acts, i);
    var s, a := run[i], acts[i];
    assert Enabled(s, a) && run[i + 1] == Do(s, a);
    var c := s.pc[a.p].k;
    assert Locking(s, c);
    assert s.pid[c] == s.pid[c];
  }

  /** wait() gives up only when it is killed or has no child. */
  lemma WaitFailsRightly(run: seq<State>, acts: seq<Action>, i: nat, c: nat)
    requires Run(run, acts) && i < |acts| && acts[i].WaitFail? && c < |run[i].st| && !run[i].killed[acts[i].p]
    ensures run[i].parent[c] != acts[i].p
  {
    RunInv(run, acts, i);
    assert Enabled(run[i], acts[i]);
    assert Scanned(run[i], acts[i].p, c);
  }

  /** Whoever has wait_lock can go on, at once or after one step of the process that has the p->lock it
      needs: one that is leaving its stack, one that is falling asleep in wait(), or a fork(). */
  lemma WaitLockMoves(run: seq<State>, acts: seq<Action>, i: nat)
    requires Run(run, acts) && i < |run| && 0 <= run[i].waitLock < |run[i].st|
    ensures exists a: Action {:trigger Moves(run[i], a)} :: a.p == run[i].waitLock && Moves(run[i], a)
  {
    RunInv(run, acts, i);
    var s := run[i];
    var p := s.waitLock;
    assert Locking(s, p);
    var a;
    if s.pc[p].Scan? {
      a := ScanMoves(s);
    } else {
      a := ExitMoves(s);
    }
    assert Moves(s, a);
  }

  lemma ExitMoves(s: State) returns (a: Action)
    requires Inv(s) && 0 <= s.waitLock < |s.st| && !s.pc[s.waitLock].Scan?
    ensures a.p == s.waitLock && Moves(s, a)
  {
    var p := s.waitLock;
    assert Locking(s, p);
    match s.pc[p]
    case Reparent(_) => a := ReparentNext(p);
    case WakeInit(_, j) =>
      a := WakeInitNext(p);
      if j < |s.st| && j != p {
        LockMoves(s, a, j);
      }
    case WakeParent(j) =>
      a := WakeParentNext(p);
      if j < |s.st| && j != p {
        LockMoves(s, a, j);
      }
    case Last => a := BecomeZombie(p);
    case WaitLate => a := WaitLock(p);
    case _ => assert false;
  }

  lemma ScanMoves(s: State) returns (a: Action)
    requires Inv(s) && 0 <= s.waitLock < |s.st| && s.pc[s.waitLock].Scan?
    ensures a.p == s.waitLock && Moves(s, a)
  {
    var p := s.waitLock;
    assert Locking(s, p);
    var k := s.pc[p].k;
    if k < |s.st| {
      a := ScanNext(p);
      if s.parent[k] == p {
        LockMoves(s, a, k);
      }
    } else {
      a := if Enabled(s, WaitFail(p)) then WaitFail(p) else WaitBlock(p);
    }
  }

  /** a is possible, or it is after one step of another process. */
  ghost predicate Moves(s: State, a: Action) {
    && Shape(s)
    && (Enabled(s, a) || exists b: Action :: Enabled(s, b) && b.p != a.p && Shape(Do(s, b)) && Enabled(Do(s, b), a))
  }

  /** A p->lock is free, or the process that has it lets go of it with its next step. */
  lemma LockMoves(s: State, a: Action, q: nat)
    requires Inv(s) && q < |s.st| && a.p < |s.st| && (a.WakeInitNext? || a.WakeParentNext? || a.ScanNext?)
    requires s.waitLock == a.p && Wants(s, a, q)
    ensures Moves(s, a)
  {
    assert Locking(s, q) && Locking(s, a.p);
    if OwnLock(s.pc[q]) {
      var b := if s.pc[q] == Departing then Depart(q) else FallAsleep(q);
      assert Enabled(s, b) && Enabled(Do(s, b), a);
    } else if !LockFree(s, q) {
      var m := s.pc[q].maker;
      assert Locking(s, m);
      assert Enabled(s, ForkRelease(m)) && Enabled(Do(s, ForkRelease(m)), a);
    }
  }

  /** All that a needs is the p->lock of q. */
  ghost predicate Wants(s: State, a: Action, q: nat)
    requires Shape(s) && a.p < |s.st|
  {
    && s.st[a.p] == RUNNING
    && match a
       case WakeInitNext(p) => s.pc[p].WakeInit? && s.pc[p].j == q
       case WakeParentNext(p) => s.pc[p].WakeParent? && s.pc[p].j == q
       case ScanNext(p) => s.pc[p].Scan? && s.pc[p].k == q < |s.st|
       case _ => false
  }
}
