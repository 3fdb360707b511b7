/** What the calls of a process come to: kill() and the sleep of wait(), and exit(), wait() and fork() to their
    ends. */
module ProcessRuns {
  import opened Basics
  import opened Processes

  // ---------------------------------------------------------------- kill()

  /** Between the killed() of wait() and its way back from sleep(). */
  predicate LateOrAsleep(s: State, p: nat)
    requires Shape(s) && p < |s.st|
  {
    s.pc[p] == WaitLate || WaitsAsleep(s, p)
  }

  /** A process that is killed where it may sleep has been so before, or is killed in the moment between
      killed() and sleep(); and one that is killed elsewhere goes nowhere where it may sleep. */
  lemma KilledStep(s: State, a: Action, p: nat)
    requires Inv(s) && Enabled(s, a) && p < |s.st| && Shape(Do(s, a)) && |Do(s, a).st| == |s.st|
    ensures Do(s, a).killed[p] && LateOrAsleep(Do(s, a), p) ==>
      if s.killed[p] then LateOrAsleep(s, p) else a == Kill(p) && s.pc[p] == WaitLate
    ensures s.killed[p] ==> Do(s, a).killed[p] || Do(s, a).st[p] == UNUSED
  {
    if PartOf(a) == InSleep || PartOf(a) == InOther {
      KilledSleep(s, a, p);
    } else if PartOf(a) == InWake || PartOf(a) == InWakeInit {
      KilledWake(s, a, p);
    } else if Exits(a) {
      KilledExit(s, a, p);
    } else if Rare(a) {
      KilledRare(s, a, p);
    } else {
      KilledElse(s, a, p);
    }
  }

  lemma KilledSleep(s: State, a: Action, p: nat)
    requires Inv(s) && Enabled(s, a) && p < |s.st| && Shape(Do(s, a)) && |Do(s, a).st| == |s.st|
    requires PartOf(a) == InSleep || PartOf(a) == InOther
    ensures Do(s, a).killed[p] && LateOrAsleep(Do(s, a), p) ==>
      if s.killed[p] then LateOrAsleep(s, p) else a == Kill(p) && s.pc[p] == WaitLate
    ensures s.killed[p] ==> Do(s, a).killed[p]
  {
    assert Locking(s, p);
  }

  lemma KilledWake(s: State, a: Action, p: nat)
    requires Inv(s) && Enabled(s, a) && p < |s.st| && Shape(Do(s, a)) && |Do(s, a).st| == |s.st|
    requires PartOf(a) == InWake || PartOf(a) == InWakeInit
    ensures LateOrAsleep(Do(s, a), p) ==> LateOrAsleep(s, p)
    ensures Do(s, a).killed[p] == s.killed[p]
  {
    assert Locking(s, p) && Locking(s, a.p);
  }

  lemma KilledExit(s: State, a: Action, p: nat)
    requires Inv(s) && Enabled(s, a) && p < |s.st| && Shape(Do(s, a)) && |Do(s, a).st| == |s.st|
    requires PartOf(a) == InHand || PartOf(a) == InLeave
    ensures LateOrAsleep(Do(s, a), p) ==> LateOrAsleep(s, p)
    ensures Do(s, a).killed[p] == s.killed[p]
  {
    assert Locking(s, p) && Locking(s, a.p);
  }

  lemma KilledRare(s: State, a: Action, p: nat)
    requires Inv(s) && Enabled(s, a) && p < |s.st| && Shape(Do(s, a)) && |Do(s, a).st| == |s.st| && Rare(a)
    ensures LateOrAsleep(Do(s, a), p) ==> LateOrAsleep(s, p)
    ensures Do(s, a).killed[p] == s.killed[p] || (!Do(s, a).killed[p] && Do(s, a).st[p] == UNUSED)
  {
    assert Locking(s, p) && Locking(s, a.p);
  }

  lemma KilledElse(s: State, a: Action, p: nat)
    requires Inv(s) && Enabled(s, a) && p < |s.st| && Shape(Do(s, a)) && |Do(s, a).st| == |s.st|
    requires PartOf(a) != InSleep && PartOf(a) != InOther && !Exits(a) && !Rare(a)
    ensures LateOrAsleep(Do(s, a), p) ==> LateOrAsleep(s, p)
    ensures Do(s, a).killed[p] == s.killed[p] || (!Do(s, a).killed[p] && Do(s, a).st[p] == UNUSED)
  {
    assert Locking(s, p) && Locking(s, a.p);
  }

  /** Run(), behind a trigger. */
  ghost predicate Ran(run: seq<State>, acts: seq<Action>) {
    forall k {:trigger Key(k, run)} | Key(k, run) :: Run(run, acts)
  }

  /** One step of a run, as far as kill() goes. */
  lemma KilledOne(run: seq<State>, acts: seq<Action>, j: nat, p: nat)
    requires Ran(run, acts) && |acts| + 1 == |run| && j < |acts| && Shape(run[j + 1]) && p < |run[j + 1].st|
    ensures Shape(run[j]) && p < |run[j].st|
    ensures run[j + 1].killed[p] && LateOrAsleep(run[j + 1], p) ==>
      if run[j].killed[p] then LateOrAsleep(run[j], p) else acts[j] == Kill(p) && run[j].pc[p] == WaitLate
    ensures run[j].killed[p] ==> run[j + 1].killed[p] || run[j + 1].st[p] == UNUSED
    ensures acts[j] == Kill(p) ==> run[j + 1].killed[p] && run[j + 1].st[p] != SLEEPING
    ensures acts[j] == Kill(p) && run[j].pc[p] != WaitLate ==> !LateOrAsleep(run[j + 1], p)
  {
    assert Key(0, run);
    RunInv(run, acts, j);
    assert Enabled(run[j], acts[j]) && run[j + 1] == Do(run[j], acts[j]);
    StepShape(run[j], acts[j]);
    KilledStep(run[j], acts[j], p);
    if acts[j] == Kill(p) {
      KillTakes(run[j], p);
    }
  }

  lemma KillTakes(s: State, p: nat)
    requires Inv(s) && Enabled(s, Kill(p))
    ensures var s' := Do(s, Kill(p));
            s'.killed[p] && s'.st[p] != SLEEPING && (s.pc[p] != WaitLate ==> !LateOrAsleep(s', p))
  {
    assert Locking(s, p);
  }

  lemma {:induction false} SleeperKilled(run: seq<State>, acts: seq<Action>, j: nat, p: nat) returns (i: nat)
    requires Ran(run, acts) && |acts| + 1 == |run| && j < |run| && Shape(run[j]) && p < |run[j].st|
    requires run[j].killed[p] && LateOrAsleep(run[j], p)
    ensures i < j && Shape(run[i]) && p < |run[i].st| && acts[i] == Kill(p) && run[i].pc[p] == WaitLate
    ensures forall l {:trigger run[l]} | i < l <= j ::
      Shape(run[l]) && p < |run[l].st| && run[l].killed[p] && LateOrAsleep(run[l], p)
  {
    if j == 0 {
      assert Key(0, run);
      assert false;
    }
    KilledOne(run, acts, j - 1, p);
    i := j - 1;
    if run[j - 1].killed[p] {
      i := SleeperKilled(run, acts, j - 1, p);
    }
  }

  /** A kill is lost only there: a process that sleeps in wait(), or is about to, although it is killed, was
      killed in that moment. */
  lemma KilledSleeper(run: seq<State>, acts: seq<Action>, j: nat, p: nat) returns (i: nat)
    requires Run(run, acts) && j < |run| && p < |run[j].st| && run[j].killed[p] && LateOrAsleep(run[j], p)
    ensures i < j && p < |run[i].st| && acts[i] == Kill(p) && run[i].pc[p] == WaitLate
    ensures forall l {:trigger run[l]} | i < l <= j :: p < |run[l].st| && run[l].killed[p] && LateOrAsleep(run[l], p)
  {
    i := SleeperKilled(run, acts, j, p);
  }

  /** It can be lost there: the process is killed in that moment, and goes to sleep all the same. */
  lemma KillLost(s: State, p: nat) returns (acts: seq<Action>, s': State)
    requires Inv(s) && p < |s.st| && s.pc[p] == WaitLate
    ensures acts != [] && acts[0] == Kill(p) && Leads(s, acts, s') && Inv(s')
    ensures |s'.st| == |s.st| && s'.killed[p] && s'.st[p] == SLEEPING && s'.pc[p] == WaitAsleep
  {
    assert Locking(s, p);
    var first, s1 := Take(s, Kill(p));
    var rest;
    rest, s' := LateSleeps(s1, p);
    LeadsThen(s, first, s1, rest, s');
    acts := first + rest;
  }

  lemma {:induction false} Lasts(run: seq<State>, acts: seq<Action>, i: nat, j: nat, p: nat)
    requires Ran(run, acts) && |acts| + 1 == |run| && i < j < |run| && acts[i] == Kill(p)
    requires forall l {:trigger run[l]} | i < l <= j :: Shape(run[l]) && p < |run[l].st| && run[l].st[p] != UNUSED
    requires Shape(run[i]) && p < |run[i].st| && Shape(run[j]) && p < |run[j].st| && run[i].pc[p] != WaitLate
    ensures run[j].killed[p] && !LateOrAsleep(run[j], p) && (j == i + 1 ==> run[j].st[p] != SLEEPING)
    decreases j
  {
    KilledOne(run, acts, j - 1, p);
    if j - 1 > i {
      Lasts(run, acts, i, j - 1, p);
    }
  }

  /** Everywhere else kill() takes effect: the process is awake, and while it lasts it is killed and does not
      sleep in wait(). */
  lemma KillLasts(run: seq<State>, acts: seq<Action>, i: nat, j: nat, p: nat)
    requires Run(run, acts) && i < j < |run| && p < |run[i].st| && acts[i] == Kill(p) && run[i].pc[p] != WaitLate
    requires forall l {:trigger run[l]} | i < l <= j :: p < |run[l].st| && run[l].st[p] != UNUSED
    ensures run[j].killed[p] && !LateOrAsleep(run[j], p) && (j == i + 1 ==> run[j].st[p] != SLEEPING)
  {
    assert Enabled(run[i], acts[i]);
    Lasts(run, acts, i, j, p);
  }

  // ---------------------------------------------------------------- calls come to an end

  /** The step a can be taken in s, and leads to s'.  Behind a trigger. */
  ghost predicate Next(s: State, a: Action, s': State) {
    forall k {:trigger Key(k, a)} | Key(k, a) :: Shape(s) && Enabled(s, a) && s' == Do(s, a)
  }

  /** From s these steps can be taken one after another, and lead to s'. */
  ghost predicate Leads(s: State, acts: seq<Action>, s': State)
    decreases |acts|
  {
    if acts == [] then s' == s else exists s1 {:trigger Next(s, acts[0], s1)} ::
      Next(s, acts[0], s1) && Leads(s1, acts[1..], s')
  }

  lemma LeadsFirst(s: State, a: Action, s1: State, acts: seq<Action>, s': State)
    requires Next(s, a, s1) && Leads(s1, acts, s')
    ensures Leads(s, [a] + acts, s')
  {
    assert ([a] + acts)[1..] == acts && ([a] + acts)[0] == a;
  }

  lemma {:induction false} LeadsThen(s: State, acts: seq<Action>, s': State, acts': seq<Action>, s'': State)
    requires Leads(s, acts, s') && Leads(s', acts', s'')
    ensures Leads(s, acts + acts', s'')
    decreases |acts|
  {
    if acts == [] {
      assert acts + acts' == acts';
    } else {
      var s1 :| Next(s, acts[0], s1) && Leads(s1, acts[1..], s');
      LeadsThen(s1, acts[1..], s', acts', s'');
      LeadsFirst(s, acts[0], s1, acts[1..] + acts', s'');
      assert [acts[0]] + (acts[1..] + acts') == acts + acts';
    }
  }

  /** One step by itself. */
  lemma Take(s: State, a: Action) returns (acts: seq<Action>, s': State)
    requires Inv(s) && Enabled(s, a)
    ensures acts == [a] && s' == Do(s, a) && Leads(s, acts, s') && Inv(s') && |s'.st| == |s.st|
  {
    StepInv(s, a);
    s' := Do(s, a);
    LeadsFirst(s, a, s', [], s');
    acts := [a];
  }

  lemma GetsCpu(s: State, p: nat) returns (acts: seq<Action>, s': State)
    requires Inv(s) && p < |s.st| && (s.st[p] == RUNNABLE || s.st[p] == RUNNING)
    ensures Leads(s, acts, s') && Inv(s') && s' == s.(st := s.st[p := RUNNING])
  {
    acts, s' := [], s;
    if s.st[p] == RUNNABLE {
      acts, s' := Take(s, Schedule(p));
    }
  }

  /** What happens while a process waits for a p->lock: others leave their stacks, fall asleep in wait(), or go on
      in fork(). */
  ghost predicate Aside(s: State, s': State) {
    && Shape(s) && Shape(s') && |s'.st| == |s.st| && s'.parent == s.parent && s'.waitLock == s.waitLock
    && s'.pid == s.pid && s'.reaps == s.reaps && s'.killed == s.killed
    && forall r {:trigger s'.pc[r]} {:trigger s'.st[r]} | 0 <= r < |s.st| ::
      && (s'.pc[r] == s.pc[r] || OwnLock(s.pc[r]) || s.pc[r].ForkCopy?)
      && (s'.st[r] == s.st[r] || s.pc[r] == WaitSleep) && (s'.st[r] == ZOMBIE <==> s.st[r] == ZOMBIE)
  }

  /** The p->lock of q becomes free. */
  lemma LetGo(s: State, q: nat) returns (acts: seq<Action>, s': State)
    requires Inv(s) && q < |s.st|
    ensures Leads(s, acts, s') && Inv(s') && Aside(s, s') && LockFree(s', q)
  {
    assert Locking(s, q);
    if OwnLock(s.pc[q]) {
      acts, s' := Take(s, if s.pc[q] == Departing then Depart(q) else FallAsleep(q));
    } else if LockFree(s, q) {
      acts, s' := [], s;
    } else {
      var m := s.pc[q].maker;
      assert Locking(s, m);
      acts, s' := Take(s, ForkRelease(m));
    }
  }

  // ---------------------------------------------------------------- exit()

  /** In exit(), with wait_lock. */
  predicate Leaving(pc: Pc) { pc.Reparent? || pc.WakeInit? || pc.WakeParent? || pc == Last }

  /** How far exit() still has to go: its loops, the processes of the outer one, and those of the inner. */
  function Phase(pc: Pc): nat { if pc.Reparent? || pc.WakeInit? then 3 else if pc.WakeParent? then 2 else 1 }

  function Outer(pc: Pc, n: nat): nat { if (pc.Reparent? || pc.WakeInit?) && pc.k < n then n - pc.k else 0 }

  function Inner(pc: Pc, n: nat): nat {
    if pc.Reparent? then n + 1 else if (pc.WakeInit? || pc.WakeParent?) && pc.j < n then n - pc.j else 0
  }

  predicate Nearer(pc': Pc, pc: Pc, n: nat) {
    || Phase(pc') < Phase(pc)
    || (Phase(pc') == Phase(pc) && Outer(pc', n) < Outer(pc, n))
    || (Phase(pc') == Phase(pc) && Outer(pc', n) == Outer(pc, n) && Inner(pc', n) < Inner(pc, n))
  }

  /** What one process does to others that are in fork(), from exit() or wait(): nothing. */
  ghost predicate Bystanders(s: State, s': State, p: nat) {
    && Shape(s) && Shape(s') && |s'.st| == |s.st|
    && forall r {:trigger s'.pc[r]} {:trigger s'.st[r]} | 0 <= r < |s.st| && r != p ::
      && (s.pc[r].ForkLink? ==> s'.pc[r] == s.pc[r] && s'.st[r] == s.st[r])
      && (s.pc[r].Born? ==> s'.pc[r] == s.pc[r] && s'.pid[r] == s.pid[r])
  }

  /** What exit() of p has done so far. */
  ghost predicate ExitSoFar(s: State, s': State, p: nat) {
    && Bystanders(s, s', p) && s'.pid == s.pid && s'.reaps == s.reaps && s'.killed == s.killed
    && (forall c {:trigger s'.parent[c]} | 0 <= c < |s.st| ::
          s'.parent[c] == s.parent[c] || (s.parent[c] == p && s'.parent[c] == INIT))
    && (forall c {:trigger s'.st[c]} | 0 <= c < |s.st| && c != p :: s'.st[c] == ZOMBIE <==> s.st[c] == ZOMBIE)
  }

  lemma ExitOne(s: State, p: nat) returns (acts: seq<Action>, s': State)
    requires Inv(s) && p < |s.st| && Leaving(s.pc[p]) && s.pc[p] != Last
    ensures Leads(s, acts, s') && Inv(s') && ExitSoFar(s, s', p)
    ensures Leaving(s'.pc[p]) && Nearer(s'.pc[p], s.pc[p], |s.st|)
  {
    assert Locking(s, p);
    match s.pc[p]
    case Reparent(_) =>
      acts, s' := Take(s, ReparentNext(p));
    case WakeInit(k, j) =>
      acts, s' := ExitWake(s, p, WakeInitNext(p), j);
    case WakeParent(j) =>
      acts, s' := ExitWake(s, p, WakeParentNext(p), j);
    case _ => assert false;
  }

  /** wakeup() in exit() looks at process j, if there is one. */
  lemma ExitWake(s: State, p: nat, a: Action, j: nat) returns (acts: seq<Action>, s': State)
    requires Inv(s) && p < |s.st| && Leaving(s.pc[p]) && s.st[p] == RUNNING
    requires (a == WakeInitNext(p) && s.pc[p].WakeInit?) || (a == WakeParentNext(p) && s.pc[p].WakeParent?)
    requires j == s.pc[p].j
    ensures Leads(s, acts, s') && Inv(s') && ExitSoFar(s, s', p)
    ensures Leaving(s'.pc[p]) && Nearer(s'.pc[p], s.pc[p], |s.st|)
  {
    var first, s1 := [], s;
    if j < |s.st| && j != p {
      first, s1 := LetGo(s, j);
    }
    var rest;
    rest, s' := WakeOne(s1, p, a, j);
    LeadsThen(s, first, s1, rest, s');
    acts := first + rest;
    AsideThen(s, s1, s', p);
  }

  lemma WakeOne(s: State, p: nat, a: Action, j: nat) returns (acts: seq<Action>, s': State)
    requires Inv(s) && p < |s.st| && Leaving(s.pc[p]) && s.st[p] == RUNNING
    requires (a == WakeInitNext(p) && s.pc[p].WakeInit?) || (a == WakeParentNext(p) && s.pc[p].WakeParent?)
    requires j == s.pc[p].j && MayLook(s, p, j)
    ensures Leads(s, acts, s') && Inv(s') && ExitSoFar(s, s', p)
    ensures Leaving(s'.pc[p]) && Nearer(s'.pc[p], s.pc[p], |s.st|)
  {
    assert Locking(s, p);
    acts, s' := Take(s, a);
  }

  lemma AsideThen(s: State, s1: State, s': State, p: nat)
    requires Aside(s, s1) && ExitSoFar(s1, s', p)
    ensures ExitSoFar(s, s', p)
  {
    assert forall r | 0 <= r < |s.st| && s.pc[r].ForkLink? :: s1.pc[r] == s.pc[r] && s1.st[r] == s.st[r];
  }

  lemma ExitThen(s: State, s1: State, s': State, p: nat)
    requires ExitSoFar(s, s1, p) && ExitSoFar(s1, s', p) && p < |s.st| && p != INIT
    ensures ExitSoFar(s, s', p)
  {
    forall c {:trigger s'.parent[c]} {:trigger s'.st[c]} {:trigger s'.pc[c]} | 0 <= c < |s.st|
      ensures s1.parent[c] == s.parent[c] || (s.parent[c] == p && s1.parent[c] == INIT)
      ensures c != p && s.pc[c].ForkLink? ==> s1.pc[c] == s.pc[c] && s1.st[c] == s.st[c]
    {}
  }

  /** From every state in which p is in exit() with wait_lock, steps of p and of those whose p->lock it meets bring it
      to its end: it is a zombie off its stack, and its children are those of init. */
  lemma {:induction false} ExitEnds(s: State, p: nat) returns (acts: seq<Action>, s': State)
    requires Inv(s) && p < |s.st| && Leaving(s.pc[p])
    ensures Leads(s, acts, s') && Inv(s') && ExitSoFar(s, s', p)
    ensures s'.pc[p] == Dead && s'.st[p] == ZOMBIE && s'.waitLock == -1
    ensures forall c {:trigger s'.parent[c]} | 0 <= c < |s.st| ::
      s'.parent[c] == if s.parent[c] == p then INIT else s.parent[c]
    decreases Phase(s.pc[p]), Outer(s.pc[p], |s.st|), Inner(s.pc[p], |s.st|)
  {
    assert Locking(s, p);
    var first, s1, rest;
    if s.pc[p] == Last {
      first, s1, rest, s' := ExitLast(s, p);
    } else {
      first, s1 := ExitOne(s, p);
      rest, s' := ExitEnds(s1, p);
      ExitThen(s, s1, s', p);
    }
    LeadsThen(s, first, s1, rest, s');
    acts := first + rest;
  }

  lemma ExitLast(s: State, p: nat) returns (first: seq<Action>, s1: State, rest: seq<Action>, s': State)
    requires Inv(s) && p < |s.st| && s.pc[p] == Last
    ensures Leads(s, first, s1) && Leads(s1, rest, s') && Inv(s') && ExitSoFar(s, s', p)
    ensures s'.pc[p] == Dead && s'.st[p] == ZOMBIE && s'.waitLock == -1
    ensures s'.parent == s.parent && forall c | 0 <= c < |s.st| :: s.parent[c] != p
  {
    assert Locking(s, p);
    first, s1 := Take(s, BecomeZombie(p));
    rest, s' := Take(s1, Depart(p));
    forall c | 0 <= c < |s.st| ensures s.parent[c] != p {
      assert HandedOver(s, p, c);
    }
  }

  /** The whole of exit(), from its call on: then nobody, and so neither init nor its own parent, sleeps in wait()
      over a zombie. */
  lemma ExitCompletes(s: State, p: nat) returns (acts: seq<Action>, s': State)
    requires Inv(s) && Enabled(s, ExitStart(p))
    ensures Leads(s, acts, s') && Inv(s') && ExitSoFar(s, s', p)
    ensures s'.pc[p] == Dead && s'.st[p] == ZOMBIE && s'.waitLock == -1
    ensures forall c {:trigger s'.parent[c]} | 0 <= c < |s.st| ::
      s'.parent[c] == if s.parent[c] == p then INIT else s.parent[c]
    ensures 0 <= s'.parent[p] < |s.st| && forall c {:trigger s'.parent[c]} ::
      0 <= c < |s.st| && s'.st[c] == ZOMBIE && 0 <= s'.parent[c] < |s.st| ==> !WaitsAsleep(s', s'.parent[c])
  {
    var first, s1 := Take(s, ExitStart(p));
    var rest;
    rest, s' := ExitEnds(s1, p);
    LeadsThen(s, first, s1, rest, s');
    acts := first + rest;
    assert Family(s', p) && s'.parent[p] == s'.parent[p];
    forall c {:trigger s'.parent[c]} | 0 <= c < |s.st| && s'.st[c] == ZOMBIE && 0 <= s'.parent[c] < |s.st|
      ensures !WaitsAsleep(s', s'.parent[c])
    {
      assert Noticed(s', c);
    }
  }

  // ---------------------------------------------------------------- wait()

  predicate ZombieChild(s: State, p: nat, c: int)
    requires Shape(s)
  {
    0 <= c < |s.st| && s.parent[c] == p && s.st[c] == ZOMBIE
  }

  predicate HasChild(s: State, p: nat, n: nat)
    requires Shape(s)
  {
    exists c {:trigger s.parent[c]} :: 0 <= c < |s.st| && c < n && s.parent[c] == p
  }

  /** What has happened to the others while p looks for a child. */
  ghost predicate WaitSoFar(s: State, s': State, p: nat) {
    && Bystanders(s, s', p) && s'.parent == s.parent && s'.pid == s.pid && s'.reaps == s.reaps && s'.killed == s.killed
    && (forall c {:trigger s'.st[c]} | 0 <= c < |s.st| :: s'.st[c] == ZOMBIE <==> s.st[c] == ZOMBIE)
  }

  lemma WaitThen(s: State, s1: State, s': State, p: nat)
    requires WaitSoFar(s, s1, p) && WaitSoFar(s1, s', p)
    ensures WaitSoFar(s, s', p)
  {
    assert forall r | 0 <= r < |s.st| && r != p && s.pc[r].ForkLink? :: s1.pc[r] == s.pc[r] && s1.st[r] == s.st[r];
    assert forall r | 0 <= r < |s.st| && r != p && s.pc[r].Born? :: s1.pc[r] == s.pc[r] && s1.pid[r] == s.pid[r];
    assert forall c | 0 <= c < |s.st| :: s1.st[c] == ZOMBIE <==> s.st[c] == ZOMBIE;
  }

  lemma AsideWaits(s: State, s': State, p: nat)
    requires Aside(s, s')
    ensures WaitSoFar(s, s', p)
  {}

  /** The p->lock of the process that wait() has come to is free. */
  lemma ScanLock(s: State, p: nat) returns (acts: seq<Action>, s': State)
    requires Inv(s) && p < |s.st| && s.pc[p].Scan? && s.pc[p].k < |s.st|
    ensures Leads(s, acts, s') && Inv(s') && WaitSoFar(s, s', p) && s'.pc[p] == s.pc[p] && Enabled(s', ScanNext(p))
  {
    var k := s.pc[p].k;
    assert Locking(s, p);
    acts, s' := [], s;
    if s.parent[k] == p {
      acts, s' := LetGo(s, k);
    }
    AsideWaits(s, s', p);
    assert Locking(s', p);
  }

  lemma ScanPasses(s: State, p: nat) returns (acts: seq<Action>, s': State)
    requires Inv(s) && Enabled(s, ScanNext(p)) && !ZombieChild(s, p, s.pc[p].k)
    ensures Leads(s, acts, s') && Inv(s') && WaitSoFar(s, s', p)
    ensures s'.pc[p] == Scan(s.pc[p].k + 1, s.pc[p].have || s.parent[s.pc[p].k] == p)
  {
    acts, s' := Take(s, ScanNext(p));
  }

  lemma ScanReaps(s: State, p: nat) returns (acts: seq<Action>, s': State)
    requires Inv(s) && Enabled(s, ScanNext(p)) && ZombieChild(s, p, s.pc[p].k)
    ensures Leads(s, acts, s') && Inv(s') && Bystanders(s, s', p) && s'.pc[p] == User && s'.waitLock == -1
    ensures s'.st[s.pc[p].k] == UNUSED && s'.reaps == s.reaps + [s.pid[s.pc[p].k]]
  {
    assert Locking(s, p) && Locking(s, s.pc[p].k);
    acts, s' := Take(s, ScanNext(p));
  }

  /** wait() comes to the first zombie child, or to the end of the table. */
  lemma {:induction false} ScanEnds(s: State, p: nat) returns (acts: seq<Action>, s': State, c: nat)
    requires Inv(s) && p < |s.st| && s.pc[p].Scan?
    ensures Leads(s, acts, s') && Inv(s') && WaitSoFar(s, s', p) && c <= |s.st|
    ensures s'.pc[p].Scan? && s'.pc[p].k == c
    ensures (s.pc[p].have ==> HasChild(s, p, s.pc[p].k)) ==> (s'.pc[p].have ==> HasChild(s, p, |s.st|))
    ensures c < |s.st| ==> ZombieChild(s, p, c) && Enabled(s', ScanNext(p))
    ensures forall d | d < c :: !ZombieChild(s, p, d)
    decreases if s.pc[p].k <= |s.st| then |s.st| - s.pc[p].k else 0
  {
    c := s.pc[p].k;
    assert Locking(s, p);
    forall d | d < c ensures !ZombieChild(s, p, d) {
      if 0 <= d { assert Scanned(s, p, d); }
    }
    if c == |s.st| {
      acts, s' := [], s;
    } else {
      var first, s1 := ScanLock(s, p);
      acts, s' := first, s1;
      if !ZombieChild(s, p, c) {
        var second, s2 := ScanPasses(s1, p);
        var rest;
        rest, s', c := ScanEnds(s2, p);
        LeadsThen(s1, second, s2, rest, s');
        LeadsThen(s, first, s1, second + rest, s');
        acts := first + (second + rest);
        WaitThen(s, s1, s2, p);
        WaitThen(s, s2, s', p);
        forall d | d < c ensures !ZombieChild(s, p, d) {
          assert !ZombieChild(s2, p, d);
          assert 0 <= d < |s.st| ==> (s2.st[d] == ZOMBIE <==> s.st[d] == ZOMBIE);
        }
      }
    }
  }

  /** wait() has looked at all, and gives up or goes to sleep. */
  lemma ScanStops(s: State, p: nat) returns (acts: seq<Action>, s': State)
    requires Inv(s) && p < |s.st| && s.pc[p].Scan? && s.pc[p].k == |s.st|
    ensures Leads(s, acts, s') && Inv(s') && Bystanders(s, s', p) && s'.waitLock == -1 && s'.reaps == s.reaps
    ensures if !s.pc[p].have || s.killed[p] then s'.pc[p] == User else s'.pc[p] == WaitAsleep && s'.st[p] == SLEEPING
  {
    assert Locking(s, p);
    if !s.pc[p].have || s.killed[p] {
      acts, s' := Take(s, WaitFail(p));
    } else {
      var first, s1 := Take(s, WaitBlock(p));
      var rest;
      rest, s' := LateSleeps(s1, p);
      LeadsThen(s, first, s1, rest, s');
      acts := first + rest;
    }
  }

  lemma LateSleeps(s: State, p: nat) returns (acts: seq<Action>, s': State)
    requires Inv(s) && p < |s.st| && s.pc[p] == WaitLate
    ensures Leads(s, acts, s') && Inv(s') && Bystanders(s, s', p) && s'.waitLock == -1 && s'.reaps == s.reaps
    ensures s'.pc[p] == WaitAsleep && s'.st[p] == SLEEPING && s'.killed == s.killed
  {
    assert Locking(s, p);
    var first, s1 := Take(s, WaitLock(p));
    var rest;
    rest, s' := Take(s1, FallAsleep(p));
    LeadsThen(s, first, s1, rest, s');
    acts := first + rest;
  }

  /** What a call of wait() comes to, from s on: it reaps the first zombie child, number c in the table; if there is
      none it gives up without children, or killed, and otherwise sleeps. */
  ghost predicate WaitComes(s: State, s': State, p: nat, c: nat) {
    && p < |s.st| && Bystanders(s, s', p) && s'.waitLock == -1 && c <= |s.st|
    && (c < |s.st| ==> ZombieChild(s, p, c)) && (forall d | d < c :: !ZombieChild(s, p, d))
    && (c < |s.st| ==> s'.pc[p] == User && s'.st[c] == UNUSED && s'.reaps == s.reaps + [s.pid[c]])
    && (c == |s.st| ==> s'.reaps == s.reaps)
    && (c == |s.st| && (s.killed[p] || !HasChild(s, p, |s.st|)) ==> s'.pc[p] == User)
    && (c == |s.st| && !s.killed[p] && HasChild(s, p, |s.st|) ==> s'.pc[p] == WaitAsleep && s'.st[p] == SLEEPING)
  }

  /** ... from its loop on. */
  lemma WaitLoop(s: State, p: nat) returns (acts: seq<Action>, s': State, c: nat)
    requires Inv(s) && p < |s.st| && s.pc[p] == Scan(0, false)
    ensures Leads(s, acts, s') && Inv(s') && WaitComes(s, s', p, c)
  {
    var first, s1;
    first, s1, c := ScanEnds(s, p);
    var rest;
    if c < |s.st| {
      assert ZombieChild(s1, p, c) by { assert s1.st[c] == ZOMBIE <==> s.st[c] == ZOMBIE; }
      rest, s' := ScanReaps(s1, p);
    } else {
      ChildSeen(s1, p);
      rest, s' := ScanStops(s1, p);
    }
    LeadsThen(s, first, s1, rest, s');
    acts := first + rest;
    BystandThen(s, s1, s', p);
    assert HasChild(s1, p, |s.st|) == HasChild(s, p, |s.st|);
  }

  /** The process takes wait_lock and begins to look: the same children, and the same zombies. */
  ghost predicate SameTable(s: State, s': State, p: nat) {
    && Bystanders(s, s', p) && s'.parent == s.parent && s'.pid == s.pid && s'.killed == s.killed && s'.reaps == s.reaps
    && forall c {:trigger s'.st[c]} | 0 <= c < |s.st| :: s'.st[c] == ZOMBIE <==> s.st[c] == ZOMBIE
  }

  lemma ComesFrom(s: State, s1: State, s': State, p: nat, c: nat)
    requires SameTable(s, s1, p) && WaitComes(s1, s', p, c)
    ensures WaitComes(s, s', p, c)
  {
    BystandThen(s, s1, s', p);
    forall d | d <= c ensures ZombieChild(s, p, d) == ZombieChild(s1, p, d) {
      assert 0 <= d < |s.st| ==> (s1.st[d] == ZOMBIE <==> s.st[d] == ZOMBIE);
    }
    assert HasChild(s, p, |s.st|) == HasChild(s1, p, |s.st|);
  }

  /** The whole of wait(), from its call on. */
  lemma WaitCompletes(s: State, p: nat) returns (acts: seq<Action>, s': State, c: nat)
    requires Inv(s) && Enabled(s, WaitStart(p))
    ensures Leads(s, acts, s') && Inv(s') && WaitComes(s, s', p, c)
  {
    var first, s1 := Take(s, WaitStart(p));
    var rest;
    rest, s', c := WaitLoop(s1, p);
    LeadsThen(s, first, s1, rest, s');
    acts := first + rest;
    ComesFrom(s, s1, s', p, c);
  }

  /** A process in the sleep of wait() that has a zombie child, while nobody has wait_lock, is awake, and comes to reap
      its first one. */
  lemma ZombieReaped(s: State, p: nat, z: nat) returns (acts: seq<Action>, s': State, c: nat)
    requires Inv(s) && p < |s.st| && s.pc[p] == WaitAsleep && s.waitLock == -1 && ZombieChild(s, p, z)
    ensures Leads(s, acts, s') && Inv(s') && WaitComes(s, s', p, c) && c <= z
  {
    assert Noticed(s, z);
    var first, s1 := ComesBack(s, p);
    var rest;
    rest, s', c := WaitLoop(s1, p);
    LeadsThen(s, first, s1, rest, s');
    acts := first + rest;
    ComesFrom(s, s1, s', p, c);
  }

  lemma ComesBack(s: State, p: nat) returns (acts: seq<Action>, s': State)
    requires Inv(s) && p < |s.st| && s.pc[p] == WaitAsleep && s.waitLock == -1 && s.st[p] != SLEEPING
    ensures Leads(s, acts, s') && Inv(s') && SameTable(s, s', p) && s'.pc[p] == Scan(0, false)
  {
    assert Locking(s, p);
    var first, s1 := GetsCpu(s, p);
    var rest;
    rest, s' := Take(s1, Resume(p));
    LeadsThen(s, first, s1, rest, s');
    acts := first + rest;
  }

  /** wait() that cannot copy out the status leaves the zombie for the next call. */
  lemma FaultKeepsZombie(s: State, p: nat)
    requires Inv(s) && Enabled(s, WaitFault(p))
    ensures var s', c := Do(s, WaitFault(p)), s.pc[p].k;
            Inv(s') && s'.pc[p] == User && s'.waitLock == -1 && ZombieChild(s', p, c) && s'.reaps == s.reaps
  {
    StepInv(s, WaitFault(p));
  }

  lemma ChildSeen(s: State, p: nat)
    requires Inv(s) && p < |s.st| && s.pc[p].Scan? && s.pc[p].k == |s.st|
    ensures HasChild(s, p, |s.st|) ==> s.pc[p].have
  {
    if c :| 0 <= c < |s.st| && s.parent[c] == p {
      assert Scanned(s, p, c);
    }
  }

  lemma BystandThen(s: State, s1: State, s': State, p: nat)
    requires Bystanders(s, s1, p) && Bystanders(s1, s', p)
    ensures Bystanders(s, s', p)
  {
    assert forall r | 0 <= r < |s.st| && r != p && s.pc[r].ForkLink? :: s1.pc[r] == s.pc[r] && s1.st[r] == s.st[r];
    assert forall r | 0 <= r < |s.st| && r != p && s.pc[r].Born? :: s1.pc[r] == s.pc[r] && s1.pid[r] == s.pid[r];
  }

  // ---------------------------------------------------------------- fork()

  /** wait_lock becomes free. */
  lemma WaitLockFreed(s: State) returns (acts: seq<Action>, s': State)
    requires Inv(s)
    ensures Leads(s, acts, s') && Inv(s') && s'.waitLock == -1
    ensures if s.waitLock == -1 then s' == s else Bystanders(s, s', s.waitLock)
  {
    if s.waitLock == -1 {
      acts, s' := [], s;
    } else {
      var q := s.waitLock;
      assert Locking(s, q);
      if s.pc[q].Scan? {
        var first, s1, c := ScanEnds(s, q);
        var rest;
        if c < |s.st| {
          assert ZombieChild(s1, q, c) by { assert s1.st[c] == ZOMBIE <==> s.st[c] == ZOMBIE; }
          rest, s' := ScanReaps(s1, q);
        } else {
          rest, s' := ScanStops(s1, q);
        }
        LeadsThen(s, first, s1, rest, s');
        acts := first + rest;
        BystandThen(s, s1, s', q);
      } else if s.pc[q] == WaitLate {
        acts, s' := LateSleeps(s, q);
      } else {
        acts, s' := ExitEnds(s, q);
      }
    }
  }

  /** fork() of p, from its allocation of a child on: whoever has wait_lock comes to give it back, and then the child of
      p can run, under a pid that nobody has had. */
  lemma ForkCompletes(s: State, p: nat, c: nat) returns (acts: seq<Action>, s': State)
    requires Inv(s) && Enabled(s, ForkAlloc(p, c))
    ensures Leads(s, acts, s') && Inv(s') && |s'.st| == |s.st| && s'.pc[p] == User
    ensures s'.parent[c] == p && s'.st[c] == RUNNABLE && s'.pc[c] == User && s'.pid[c] == s.nextPid
    ensures s.nextPid !in s.reaps && s.nextPid !in s.pid
  {
    var first, s1 := Take(s, ForkAlloc(p, c));
    var rest;
    rest, s' := ForkCopied(s1, p);
    LeadsThen(s, first, s1, rest, s');
    acts := first + rest;
  }

  /** ... from its copy on. */
  lemma ForkCopied(s: State, p: nat) returns (acts: seq<Action>, s': State)
    requires Inv(s) && p < |s.st| && s.pc[p].ForkCopy?
    ensures s.pc[p].c < |s.st| && Leads(s, acts, s') && Inv(s') && |s'.st| == |s.st| && s'.pc[p] == User
    ensures var c := s.pc[p].c;
            s'.parent[c] == p && s'.st[c] == RUNNABLE && s'.pc[c] == User && s'.pid[c] == s.pid[c]
  {
    assert Locking(s, p) && Locking(s, s.pc[p].c);
    var first, s1 := Take(s, ForkRelease(p));
    var second, s2 := WaitLockFreed(s1);
    assert s1.waitLock != -1 ==> Locking(s1, s1.waitLock);
    assert s2.pc[p] == s1.pc[p] && s2.pid[s.pc[p].c] == s.pid[s.pc[p].c];
    var rest;
    rest, s' := ForkLinks(s2, p);
    LeadsThen(s1, second, s2, rest, s');
    LeadsThen(s, first, s1, second + rest, s');
    acts := first + (second + rest);
  }

  lemma ForkLinks(s: State, p: nat) returns (acts: seq<Action>, s': State)
    requires Inv(s) && p < |s.st| && s.pc[p].ForkLink? && s.pc[p].c < |s.st| && s.waitLock == -1
    ensures Leads(s, acts, s') && Inv(s') && |s'.st| == |s.st| && s'.pc[p] == User
    ensures var c := s.pc[p].c;
            s'.parent[c] == p && s'.st[c] == RUNNABLE && s'.pc[c] == User && s'.pid[c] == s.pid[c]
  {
    assert Locking(s, p) && Locking(s, s.pc[p].c);
    var first, s1 := GetsCpu(s, p);
    var second, s2 := Take(s1, ForkSetParent(p));
    var rest;
    rest, s' := Take(s2, ForkRun(p));
    LeadsThen(s1, second, s2, rest, s');
    LeadsThen(s, first, s1, second + rest, s');
    acts := first + (second + rest);
  }

  /** fork() that cannot copy the memory gives the child's place in the table back. */
  lemma ForkGivesUp(s: State, p: nat)
    requires Inv(s) && Enabled(s, ForkFail(p))
    ensures s.pc[p].c < |s.st|
    ensures var s', c := Do(s, ForkFail(p)), s.pc[p].c;
            && Inv(s') && |s'.st| == |s.st| && s'.pc[p] == User && s'.st[c] == UNUSED
            && forall r {:trigger s'.pc[r]} | 0 <= r < |s.st| && r != p && r != c ::
              s'.pc[r] == s.pc[r] && s'.st[r] == s.st[r] && s'.pid[r] == s.pid[r] && s'.parent[r] == s.parent[r]
  {
    assert Locking(s, p);
    StepInv(s, ForkFail(p));
  }

  // ---------------------------------------------------------------- sleep() and yield()

  /** A sleep on any other channel ends, once that is woken, where it began. */
  lemma SleepReturns(s: State, p: nat) returns (s1: State, acts: seq<Action>, s': State)
    requires Inv(s) && Enabled(s, SleepElsewhere(p))
    ensures Next(s, SleepElsewhere(p), s1) && Inv(s1) && s1 == s.(st := s.st[p := SLEEPING], pc := s.pc[p := Elsewhere])
    ensures Leads(s1, acts, s') && s' == s
  {
    StepInv(s, SleepElsewhere(p));
    s1 := Do(s, SleepElsewhere(p));
    var first, s2 := Take(s1, WakeElsewhere(p));
    var rest;
    rest, s' := GoesOn(s2, p);
    LeadsThen(s1, first, s2, rest, s');
    acts := first + rest;
    assert s'.st == s.st && s'.pc == s.pc;
  }

  lemma GoesOn(s: State, p: nat) returns (acts: seq<Action>, s': State)
    requires Inv(s) && p < |s.st| && s.pc[p] == Elsewhere && s.st[p] == RUNNABLE
    ensures Leads(s, acts, s') && s' == s.(st := s.st[p := RUNNING], pc := s.pc[p := User])
  {
    var first, s1 := GetsCpu(s, p);
    var rest;
    rest, s' := Take(s1, Resume(p));
    LeadsThen(s, first, s1, rest, s');
    acts := first + rest;
  }

  /** A process that gives up its processor waits for it, and goes on where it was. */
  lemma YieldReturns(s: State, p: nat) returns (s1: State, acts: seq<Action>, s': State)
    requires Inv(s) && Enabled(s, Yield(p))
    ensures Next(s, Yield(p), s1) && Inv(s1) && s1.st == s.st[p := RUNNABLE] && Leads(s1, acts, s') && s' == s
  {
    StepInv(s, Yield(p));
    s1 := Do(s, Yield(p));
    acts, s' := GetsCpu(s1, p);
    assert s'.st == s.st;
  }
}
