/** A sleep lock built on sleep() and wakeup(), as processes interleave.  Each step is a piece of
    code between two lock operations; the spinlocks are lk->lk and the p->lock of each process. */
module SleepLock {

  /** Where a process is in acquiresleep() or releasesleep(). */
  datatype Pc =
    | Out
    | WantAcquire        // before acquire(&lk->lk)
    | Testing            // in the loop, with lk->lk
    | Taken              // has set `locked`, with lk->lk
    | SleepA             // in sleep(), with lk->lk and its own p->lock
    | SleepB             // with its own p->lock only
    | Asleep             // SLEEPING on lk
    | Woken              // RUNNABLE again, before acquire(lk)
    | Holding            // acquiresleep() has returned
    | WantRelease        // before acquire(&lk->lk) in releasesleep()
    | Waking(k: nat)     // in wakeup(), about to look at process k, with lk->lk

  /** spin and owner: who has lk->lk, and lk->pid; -1 for nobody. */
  datatype State = State(pc: seq<Pc>, spin: int, locked: bool, owner: int)

  datatype Action =
    | Call(p: nat) | AcquireSpin(p: nat) | FindFree(p: nat) | ReturnHeld(p: nat)
    | FindLocked(p: nat) | DropSpin(p: nat) | GoToSleep(p: nat)
    | CallRelease(p: nat) | Unlock(p: nat) | WakeNext(p: nat) | WakeDone(p: nat)
    | Kill(p: nat)       // kill() makes a sleeper runnable

  predicate Enabled(s: State, a: Action) {
    && a.p < |s.pc|
    && match a
       case Call(p) => s.pc[p] == Out
       case AcquireSpin(p) => (s.pc[p] == WantAcquire || s.pc[p] == Woken) && s.spin == -1
       case FindFree(p) => s.pc[p] == Testing && !s.locked
       case ReturnHeld(p) => s.pc[p] == Taken
       case FindLocked(p) => s.pc[p] == Testing && s.locked
       case DropSpin(p) => s.pc[p] == SleepA
       case GoToSleep(p) => s.pc[p] == SleepB
       case CallRelease(p) => s.pc[p] == Holding
       case Unlock(p) => s.pc[p] == WantRelease && s.spin == -1
       case WakeNext(p) => s.pc[p].Waking? && s.pc[p].k < |s.pc| && (s.pc[p].k == p || !HasOwnLock(s.pc[s.pc[p].k]))
       case WakeDone(p) => s.pc[p].Waking? && s.pc[p].k >= |s.pc|
       case Kill(p) => s.pc[p] == Asleep
  }

  /** A process that holds its own p->lock. */
  predicate HasOwnLock(pc: Pc) { pc == SleepA || pc == SleepB }

  function Do(s: State, a: Action): State
    requires Enabled(s, a)
  {
    match a
    case Call(p) => s.(pc := s.pc[p := WantAcquire])
    case AcquireSpin(p) => s.(pc := s.pc[p := Testing], spin := p)
    case FindFree(p) => s.(pc := s.pc[p := Taken], locked := true, owner := p)
    case ReturnHeld(p) => s.(pc := s.pc[p := Holding], spin := -1)
    case FindLocked(p) => s.(pc := s.pc[p := SleepA])
    case DropSpin(p) => s.(pc := s.pc[p := SleepB], spin := -1)
    case GoToSleep(p) => s.(pc := s.pc[p := Asleep])
    case CallRelease(p) => s.(pc := s.pc[p := WantRelease])
    case Unlock(p) => s.(pc := s.pc[p := Waking(0)], spin := p, locked := false, owner := -1)
    case WakeNext(p) =>
      var k := s.pc[p].k;
      s.(pc := (if k != p && s.pc[k] == Asleep then s.pc[k := Woken] else s.pc)[p := Waking(k + 1)])
    case WakeDone(p) => s.(pc := s.pc[p := Out], spin := -1)
    case Kill(p) => s.(pc := s.pc[p := Woken])
  }

  function Init(n: nat): State { State(seq(n, _ => Out), -1, false, -1) }

  // ---------------------------------------------------------------- the invariant

  predicate HasSpin(pc: Pc) { pc == Testing || pc == Taken || pc == SleepA || pc.Waking? }
  predicate Holds(pc: Pc) { pc == Taken || pc == Holding || pc == WantRelease }
  predicate Sleeps(pc: Pc) { pc == SleepA || pc == SleepB || pc == Asleep }

  /** Process p sleeps, or is about to, only while the lock is held, or while a releaser has not come
      to it yet. */
  ghost predicate WillBeWoken(s: State, p: nat)
    requires p < |s.pc|
  {
    Sleeps(s.pc[p]) ==> s.locked || (0 <= s.spin < |s.pc| && s.pc[s.spin].Waking? && s.pc[s.spin].k <= p)
  }

  ghost predicate Inv(s: State) {
    && -1 <= s.spin < |s.pc|
    && (forall p {:trigger s.pc[p]} | 0 <= p < |s.pc| :: HasSpin(s.pc[p]) <==> s.spin == p)
    && (s.locked <==> s.owner != -1) && (s.locked ==> 0 <= s.owner < |s.pc|)
    && (forall p {:trigger s.pc[p]} | 0 <= p < |s.pc| :: Holds(s.pc[p]) <==> s.owner == p)
    && (forall p {:trigger s.pc[p]} {:trigger WillBeWoken(s, p)} | 0 <= p < |s.pc| :: WillBeWoken(s, p))
    && (forall p {:trigger s.pc[p]} | 0 <= p < |s.pc| :: s.pc[p] == SleepA ==> s.locked)
    && (forall p {:trigger s.pc[p]} | 0 <= p < |s.pc| :: s.pc[p].Waking? ==> !s.locked)
  }

  lemma StepInv(s: State, a: Action)
    requires Inv(s) && Enabled(s, a)
    ensures Inv(Do(s, a)) && |Do(s, a).pc| == |s.pc|
  {
    var s' := Do(s, a);
    forall p {:trigger s'.pc[p]} {:trigger WillBeWoken(s', p)} | 0 <= p < |s'.pc| ensures WillBeWoken(s', p) {
      assert WillBeWoken(s, p);
    }
  }

  ghost predicate Run(run: seq<State>, acts: seq<Action>, n: nat) {
    && |run| == |acts| + 1 && run[0] == Init(n)
    && (forall i {:trigger acts[i]} | 0 <= i < |acts| :: Enabled(run[i], acts[i]) && run[i + 1] == Do(run[i], acts[i]))
  }

  lemma {:induction false} RunInv(run: seq<State>, acts: seq<Action>, n: nat, i: nat)
    requires Run(run, acts, n) && i < |run|
    ensures Inv(run[i]) && |run[i].pc| == n
  {
    if i > 0 {
      RunInv(run, acts, n, i - 1);
      assert Enabled(run[i - 1], acts[i - 1]);
      StepInv(run[i - 1], acts[i - 1]);
    }
  }

  // ---------------------------------------------------------------- what it gives

  /** In every run at most one process holds the sleep lock, and lk->pid names it. */
  lemma MutualExclusion(run: seq<State>, acts: seq<Action>, n: nat, i: nat, p: nat, q: nat)
    requires Run(run, acts, n) && i < |run| && p < n && q < n
    ensures Inv(run[i]) && |run[i].pc| == n
    ensures Holds(run[i].pc[p]) && Holds(run[i].pc[q]) ==> p == q
    ensures Holds(run[i].pc[p]) ==> run[i].locked && run[i].owner == p
  {
    RunInv(run, acts, n, i);
  }

  /** In every run no wakeup is lost: a process sleeps on the lock only while it is held, or while a
      releaser is inside wakeup() and has not looked at that process yet. */
  lemma NoLostWakeup(run: seq<State>, acts: seq<Action>, n: nat, i: nat, p: nat)
    requires Run(run, acts, n) && i < |run| && p < n
    ensures |run[i].pc| == n
    ensures Sleeps(run[i].pc[p]) && !run[i].locked ==>
      exists q {:trigger run[i].pc[q]} :: 0 <= q < n && run[i].pc[q].Waking? && run[i].pc[q].k <= p
  {
    RunInv(run, acts, n, i);
    assert WillBeWoken(run[i], p);
    assert 0 <= run[i].spin < n ==> HasSpin(run[i].pc[run[i].spin]);
  }

  /** A step that the process itself takes on its way, without a new call. */
  predicate Internal(a: Action) { !a.Call? && !a.CallRelease? && !a.Kill? }

  /** In every run, if no process can go on by itself, then everybody is outside, or holds the lock,
      or sleeps while somebody holds it. */
  lemma NoDeadlock(run: seq<State>, acts: seq<Action>, n: nat, i: nat, p: nat)
    requires Run(run, acts, n) && i < |run| && p < n
    requires forall a {:trigger Enabled(run[i], a)} | Internal(a) :: !Enabled(run[i], a)
    ensures |run[i].pc| == n
    ensures run[i].pc[p] == Out || run[i].pc[p] == Holding
      || (run[i].pc[p] == Asleep && run[i].locked && 0 <= run[i].owner < n && run[i].pc[run[i].owner] == Holding)
  {
    RunInv(run, acts, n, i);
    var s := run[i];
    if s.spin != -1 {
      SpinHolderMoves(s);
    }
    assert !Enabled(s, AcquireSpin(p)) && !Enabled(s, GoToSleep(p)) && !Enabled(s, Unlock(p));
    assert WillBeWoken(s, p);
    if s.locked {
      assert !Enabled(s, Unlock(s.owner)) && Holds(s.pc[s.owner]);
    }
  }

  /** Whoever has lk->lk can go on, or the process it waits for can. */
  lemma SpinHolderMoves(s: State)
    requires Inv(s) && s.spin != -1
    ensures exists a {:trigger Enabled(s, a)} :: Internal(a) && Enabled(s, a)
  {
    var p := s.spin;
    match s.pc[p]
    case Testing =>
      assert Enabled(s, FindFree(p)) || Enabled(s, FindLocked(p));
    case Taken =>
      assert Enabled(s, ReturnHeld(p));
    case SleepA =>
      assert Enabled(s, DropSpin(p));
    case Waking(k) =>
      assert Enabled(s, WakeDone(p)) || Enabled(s, WakeNext(p)) || Enabled(s, GoToSleep(k));
    case _ =>
      assert false;
  }

  // ---------------------------------------------------------------- whole calls

  /** Inside acquiresleep(), and inside releasesleep(). */
  predicate Acquiring(pc: Pc) {
    pc == WantAcquire || pc == Testing || pc == Taken || pc == SleepA || pc == SleepB || pc == Asleep || pc == Woken
  }

  predicate Releasing(pc: Pc) { pc == WantRelease || pc.Waking? }

  /** A process is outside, in acquiresleep(), has the lock, or is in releasesleep(), in this order, and goes in
      by its calls alone. */
  lemma CallsInOrder(run: seq<State>, acts: seq<Action>, n: nat, i: nat, p: nat)
    requires Run(run, acts, n) && i < |acts| && p < n
    ensures |run[i].pc| == |run[i + 1].pc| == n
    ensures var x, y, a := run[i].pc[p], run[i + 1].pc[p], acts[i];
            && (x == Out ==> if a == Call(p) then Acquiring(y) else y == Out)
            && (Acquiring(x) ==> Acquiring(y) || y == Holding)
            && (x == Holding ==> if a == CallRelease(p) then Releasing(y) else y == Holding)
            && (Releasing(x) ==> Releasing(y) || y == Out)
            && (a == Call(p) ==> x == Out) && (a == CallRelease(p) ==> x == Holding) && (a == Kill(p) ==> !Sleeps(y))
  {
    RunInv(run, acts, n, i);
    RunInv(run, acts, n, i + 1);
    assert Enabled(run[i], acts[i]);
  }

  /** Whoever has the lock has set it himself, when it was free, and has had it since. */
  lemma {:induction false} TookIt(run: seq<State>, acts: seq<Action>, n: nat, j: nat, p: nat) returns (m: nat)
    requires Run(run, acts, n) && j < |run| && p < n && run[j].owner == p
    ensures m < j && !run[m].locked && acts[m].p == p
    ensures forall l {:trigger run[l]} | m < l <= j :: run[l].locked && run[l].owner == p
  {
    RunInv(run, acts, n, j);
    assert j > 0;
    RunInv(run, acts, n, j - 1);
    assert Enabled(run[j - 1], acts[j - 1]) && run[j] == Do(run[j - 1], acts[j - 1]);
    if run[j - 1].owner == p {
      m := TookIt(run, acts, n, j - 1, p);
    } else {
      m := j - 1;
    }
  }

  /** What a releasesleep() that began at i has done by t: from m on the lock was free of p, and every process
      before the k-th that slept at that moment has been awake since. */
  ghost predicate Freed(run: seq<State>, n: nat, i: nat, m: nat, t: nat, p: nat, k: nat) {
    && i < m <= t < |run| && |run[m].pc| == n && !run[m].locked && run[m].owner == -1
    && forall q {:trigger run[m].pc[q]} | 0 <= q < n && q < k && q != p && Sleeps(run[m].pc[q]) :: Awake(run, m, t, q)
  }

  /** The process is awake in some state from m to t. */
  ghost predicate Awake(run: seq<State>, m: nat, t: nat, q: nat) {
    exists l {:trigger run[l]} :: m <= l <= t && l < |run| && q < |run[l].pc| && !Sleeps(run[l].pc[q])
  }

  lemma AwakeMore(run: seq<State>, m: nat, t: nat, q: nat)
    requires Awake(run, m, t, q)
    ensures Awake(run, m, t + 1, q)
  {
    var l :| m <= l <= t && l < |run| && q < |run[l].pc| && !Sleeps(run[l].pc[q]);
    assert m <= l <= t + 1;
  }

  lemma {:induction false} ReleaseGoesOn(run: seq<State>, acts: seq<Action>, n: nat, i: nat, t: nat, p: nat)
    returns (m: nat)
    requires Run(run, acts, n) && i < t < |run| && p < n && acts[i] == CallRelease(p)
    requires forall l {:trigger run[l]} | i < l <= t :: p < |run[l].pc| && Releasing(run[l].pc[p])
    ensures run[t].pc[p].Waking? ==> Freed(run, n, i, m, t, p, run[t].pc[p].k)
    decreases t
  {
    m := t;
    RunInv(run, acts, n, t - 1);
    RunInv(run, acts, n, t);
    var s, a := run[t - 1], acts[t - 1];
    assert Enabled(s, a) && run[t] == Do(s, a);
    if t - 1 > i {
      var m0 := ReleaseGoesOn(run, acts, n, i, t - 1, p);
      if s.pc[p].Waking? {
        m := m0;
        ReleaseStep(run, n, i, m, t, p, a);
      }
    }
  }

  lemma ReleaseStep(run: seq<State>, n: nat, i: nat, m: nat, t: nat, p: nat, a: Action)
    requires 0 < t < |run| && |run[t - 1].pc| == n && p < n && run[t - 1].pc[p].Waking?
    requires Enabled(run[t - 1], a) && run[t] == Do(run[t - 1], a) && run[t].pc[p].Waking?
    requires Freed(run, n, i, m, t - 1, p, run[t - 1].pc[p].k)
    ensures Freed(run, n, i, m, t, p, run[t].pc[p].k)
  {
    forall q {:trigger run[m].pc[q]} | 0 <= q < n && q < run[t].pc[p].k && q != p && Sleeps(run[m].pc[q])
      ensures Awake(run, m, t, q)
    {
      if q < run[t - 1].pc[p].k {
        AwakeMore(run, m, t - 1, q);
      } else {
        assert !Sleeps(run[t].pc[q]);
      }
    }
  }

  /** A releasesleep() ends outside; before that the lock was free of p, and everybody who slept on it then has
      been woken. */
  lemma ReleaseFrees(run: seq<State>, acts: seq<Action>, n: nat, i: nat, j: nat, p: nat) returns (m: nat)
    requires Run(run, acts, n) && i + 1 < j < |run| && p < n && acts[i] == CallRelease(p)
    requires forall l {:trigger run[l]} | i < l < j :: p < |run[l].pc| && Releasing(run[l].pc[p])
    requires p < |run[j].pc| && !Releasing(run[j].pc[p])
    ensures i < m < j && !run[m].locked && run[m].owner == -1 && run[j].pc[p] == Out && |run[m].pc| == n
    ensures forall q {:trigger run[m].pc[q]} | 0 <= q < n && q != p && Sleeps(run[m].pc[q]) :: Awake(run, m, j, q)
  {
    m := ReleaseGoesOn(run, acts, n, i, j - 1, p);
    RunInv(run, acts, n, j - 1);
    CallsInOrder(run, acts, n, j - 1, p);
    assert Enabled(run[j - 1], acts[j - 1]) && run[j] == Do(run[j - 1], acts[j - 1]);
    forall q {:trigger run[m].pc[q]} | 0 <= q < n && q != p && Sleeps(run[m].pc[q]) ensures Awake(run, m, j, q) {
      AwakeMore(run, m, j - 1, q);
    }
  }

  /** Who has left and not come back has the lock, or is about to get it, or has had it. */
  lemma {:induction false} HasHadIt(run: seq<State>, acts: seq<Action>, n: nat, i: nat, t: nat, p: nat)
    returns (l: nat)
    requires Run(run, acts, n) && i < t < |run| && p < n && |run[i].pc| == n && run[i].pc[p] == Out
    requires forall m {:trigger run[m]} | i < m <= t :: p < |run[m].pc| && run[m].pc[p] != Out
    ensures Acquiring(run[t].pc[p]) || (i < l <= t && |run[l].pc| == n && run[l].pc[p] == Holding)
    ensures Releasing(run[t].pc[p]) ==> acts[l] == CallRelease(p) && l < t
    ensures Releasing(run[t].pc[p]) ==>
      forall m {:trigger run[m]} | l < m <= t :: p < |run[m].pc| && Releasing(run[m].pc[p])
    decreases t
  {
    l := t;
    RunInv(run, acts, n, t);
    CallsInOrder(run, acts, n, t - 1, p);
    if t - 1 > i {
      var l0 := HasHadIt(run, acts, n, i, t - 1, p);
      if Releasing(run[t].pc[p]) {
        l := if Releasing(run[t - 1].pc[p]) then l0 else t - 1;
      }
    }
  }

  /** Between leaving and coming back a process has taken the lock when it was free, has had it, and has left it
      free. */
  lemma TurnIsWhole(run: seq<State>, acts: seq<Action>, n: nat, i: nat, j: nat, p: nat) returns (a: nat, l: nat, b: nat)
    requires Run(run, acts, n) && i + 1 < j < |run| && p < n && |run[i].pc| == |run[j].pc| == n
    requires run[i].pc[p] == Out && run[j].pc[p] == Out
    requires forall m {:trigger run[m]} | i < m < j :: p < |run[m].pc| && run[m].pc[p] != Out
    ensures i <= a < l < b < j && !run[a].locked && !run[b].locked && |run[l].pc| == n && run[l].pc[p] == Holding
    ensures forall m {:trigger run[m]} | a < m <= l :: run[m].locked && run[m].owner == p
  {
    l := HasHadIt(run, acts, n, i, j - 1, p);
    CallsInOrder(run, acts, n, j - 1, p);
    RunInv(run, acts, n, l);
    a := TookIt(run, acts, n, l, p);
    RunInv(run, acts, n, i);
    assert run[i].owner != p;
    b := ReleaseFrees(run, acts, n, l, j, p);
  }

  // ---------------------------------------------------------------- calls come to an end

  /** From s these steps can be taken one after another, and lead to s'.  None of them is a new call. */
  ghost predicate Leads(s: State, acts: seq<Action>, s': State)
    decreases |acts|
  {
    if acts == [] then s' == s
    else Internal(acts[0]) && Enabled(s, acts[0]) && Leads(Do(s, acts[0]), acts[1..], s')
  }

  lemma LeadsFirst(s: State, a: Action, acts: seq<Action>, s': State)
    requires Internal(a) && Enabled(s, a) && Leads(Do(s, a), acts, s')
    ensures Leads(s, [a] + acts, s')
  {
    assert ([a] + acts)[1..] == acts;
  }

  lemma {:induction false} LeadsThen(s: State, acts: seq<Action>, s': State, acts': seq<Action>, s'': State)
    requires Leads(s, acts, s') && Leads(s', acts', s'')
    ensures Leads(s, acts + acts', s'')
    decreases |acts|
  {
    if acts == [] {
      assert acts + acts' == acts';
    } else {
      LeadsThen(Do(s, acts[0]), acts[1..], s', acts', s'');
      LeadsFirst(s, acts[0], acts[1..] + acts', s'');
      assert [acts[0]] + (acts[1..] + acts') == acts + acts';
    }
  }

  /** A process is where it was, as far as calls go. */
  predicate SameCall(x: Pc, y: Pc) {
    (Acquiring(x) <==> Acquiring(y)) && (x == Out <==> y == Out) && (x == Holding <==> y == Holding)
  }

  ghost predicate OthersStay(s: State, s': State, p: nat) {
    |s'.pc| == |s.pc| && forall q {:trigger s'.pc[q]} | 0 <= q < |s.pc| && q != p :: SameCall(s.pc[q], s'.pc[q])
  }

  ghost predicate NoneSleeps(s: State) { forall q {:trigger s.pc[q]} | 0 <= q < |s.pc| :: !Sleeps(s.pc[q]) }

  /** wakeup() looks at one process more, once that has let go of its own p->lock in sleep(). */
  lemma WakeOne(s: State, p: nat) returns (acts: seq<Action>, s': State)
    requires Inv(s) && p < |s.pc| && s.pc[p].Waking? && s.pc[p].k < |s.pc|
    ensures Leads(s, acts, s') && Inv(s') && OthersStay(s, s', p) && s'.pc[p] == Waking(s.pc[p].k + 1)
  {
    var k := s.pc[p].k;
    if k != p && HasOwnLock(s.pc[k]) {
      assert s.pc[k] == SleepB;
      StepInv(s, GoToSleep(k));
      var s1 := Do(s, GoToSleep(k));
      acts, s' := LookAt(s1, p);
      LeadsFirst(s, GoToSleep(k), acts, s');
      acts := [GoToSleep(k)] + acts;
    } else {
      acts, s' := LookAt(s, p);
    }
  }

  lemma LookAt(s: State, p: nat) returns (acts: seq<Action>, s': State)
    requires Inv(s) && p < |s.pc| && Enabled(s, WakeNext(p))
    ensures Leads(s, acts, s') && Inv(s') && OthersStay(s, s', p) && s'.pc[p] == Waking(s.pc[p].k + 1)
  {
    StepInv(s, WakeNext(p));
    s' := Do(s, WakeNext(p));
    LeadsFirst(s, WakeNext(p), [], s');
    acts := [WakeNext(p)];
  }

  /** wakeup() comes to its end. */
  lemma {:induction false} WakeupEnds(s: State, p: nat) returns (acts: seq<Action>, s': State)
    requires Inv(s) && p < |s.pc| && s.pc[p].Waking?
    ensures Leads(s, acts, s') && Inv(s') && OthersStay(s, s', p) && s'.pc[p] == Out
    ensures !s'.locked && s'.owner == -1 && s'.spin == -1 && NoneSleeps(s')
    decreases if s.pc[p].k <= |s.pc| then |s.pc| - s.pc[p].k else 0
  {
    if s.pc[p].k >= |s.pc| {
      StepInv(s, WakeDone(p));
      s' := Do(s, WakeDone(p));
      acts := [WakeDone(p)];
      LeadsFirst(s, WakeDone(p), [], s');
      AllAwake(s, p);
    } else {
      var first, s1 := WakeOne(s, p);
      var rest;
      rest, s' := WakeupEnds(s1, p);
      acts := first + rest;
      LeadsThen(s, first, s1, rest, s');
    }
  }

  lemma AllAwake(s: State, p: nat)
    requires Inv(s) && p < |s.pc| && s.pc[p].Waking? && s.pc[p].k >= |s.pc|
    ensures NoneSleeps(s)
  {
    forall q {:trigger s.pc[q]} | 0 <= q < |s.pc| ensures !Sleeps(s.pc[q]) {
      assert WillBeWoken(s, q);
    }
  }

  /** From every state in which p is in releasesleep(), steps of p, of the one that has lk->lk, and of those that
      p meets in sleep() bring it out, with the lock free and nobody asleep. */
  lemma ReleaseEnds(s: State, p: nat) returns (acts: seq<Action>, s': State)
    requires Inv(s) && p < |s.pc| && Releasing(s.pc[p])
    ensures Leads(s, acts, s') && Inv(s') && OthersStay(s, s', p) && s'.pc[p] == Out
    ensures !s'.locked && s'.owner == -1 && s'.spin == -1 && NoneSleeps(s')
  {
    if s.pc[p].Waking? {
      acts, s' := WakeupEnds(s, p);
    } else {
      var first, s1 := SpinDropped(s, p);
      StepInv(s1, Unlock(p));
      var s2 := Do(s1, Unlock(p));
      var rest;
      rest, s' := WakeupEnds(s2, p);
      LeadsFirst(s1, Unlock(p), rest, s');
      acts := first + ([Unlock(p)] + rest);
      LeadsThen(s, first, s1, [Unlock(p)] + rest, s');
    }
  }

  /** While the lock is held, who has lk->lk drops it to sleep. */
  lemma SpinDropped(s: State, p: nat) returns (acts: seq<Action>, s': State)
    requires Inv(s) && p < |s.pc| && s.pc[p] == WantRelease
    ensures Leads(s, acts, s') && Inv(s') && OthersStay(s, s', p) && s'.pc[p] == WantRelease && s'.spin == -1
  {
    var q := s.spin;
    if q == -1 {
      acts, s' := [], s;
    } else {
      assert s.pc[q] == Testing || s.pc[q] == SleepA;
      var s1, first := s, [];
      if s.pc[q] == Testing {
        StepInv(s, FindLocked(q));
        s1, first := Do(s, FindLocked(q)), [FindLocked(q)];
        LeadsFirst(s, FindLocked(q), [], s1);
      }
      StepInv(s1, DropSpin(q));
      s' := Do(s1, DropSpin(q));
      LeadsFirst(s1, DropSpin(q), [], s');
      acts := first + [DropSpin(q)];
      LeadsThen(s, first, s1, [DropSpin(q)], s');
    }
  }

  /** Nobody else is about to take the lock, or has it for himself. */
  ghost predicate NobodyElse(s: State, p: nat) {
    forall q {:trigger s.pc[q]} | 0 <= q < |s.pc| && q != p ::
      s.pc[q] != Testing && s.pc[q] != Taken && s.pc[q] != Holding
  }

  /** From every state in which p is in acquiresleep(), and nobody else is about to take the lock or has it other
      than to release it, such steps bring p to have the lock. */
  lemma AcquireEnds(s: State, p: nat) returns (acts: seq<Action>, s': State)
    requires Inv(s) && p < |s.pc| && Acquiring(s.pc[p]) && NobodyElse(s, p)
    ensures Leads(s, acts, s') && Inv(s') && |s'.pc| == |s.pc| && s'.pc[p] == Holding && s'.owner == p
  {
    if s.pc[p] == Taken {
      acts, s' := Returned(s, p);
    } else if q: nat :| q < |s.pc| && Releasing(s.pc[q]) {
      var first, s1 := LetsGo(s, p);
      var mid, s2 := ReleaseEnds(s1, q);
      var rest;
      rest, s' := TakesIt(s2, p);
      LeadsThen(s, first, s1, mid, s2);
      LeadsThen(s, first + mid, s2, rest, s');
      acts := first + mid + rest;
    } else {
      SomebodyHas(s);
      assert forall q {:trigger s.pc[q]} | 0 <= q < |s.pc| :: !Releasing(s.pc[q]) && !Holds(s.pc[q]);
      assert !s.locked && WillBeWoken(s, p);
      acts, s' := TakesIt(s, p);
    }
  }

  /** A lock that is held is held by somebody. */
  lemma SomebodyHas(s: State)
    requires Inv(s)
    ensures s.locked ==> exists q {:trigger s.pc[q]} :: 0 <= q < |s.pc| && Holds(s.pc[q])
    ensures s.spin != -1 ==> exists q {:trigger s.pc[q]} :: 0 <= q < |s.pc| && q == s.spin && HasSpin(s.pc[q])
  {
    if s.locked {
      assert Holds(s.pc[s.owner]);
    }
    if s.spin != -1 {
      assert HasSpin(s.pc[s.spin]);
    }
  }

  lemma Returned(s: State, p: nat) returns (acts: seq<Action>, s': State)
    requires Inv(s) && p < |s.pc| && s.pc[p] == Taken
    ensures Leads(s, acts, s') && Inv(s') && |s'.pc| == |s.pc| && s'.pc[p] == Holding && s'.owner == p
  {
    StepInv(s, ReturnHeld(p));
    s' := Do(s, ReturnHeld(p));
    acts := [ReturnHeld(p)];
    LeadsFirst(s, ReturnHeld(p), [], s');
  }

  /** A process that tests the lock while it is held goes to sleep. */
  lemma LetsGo(s: State, p: nat) returns (acts: seq<Action>, s': State)
    requires Inv(s) && p < |s.pc| && Acquiring(s.pc[p]) && s.pc[p] != Taken
    ensures Leads(s, acts, s') && Inv(s') && OthersStay(s, s', p) && Acquiring(s'.pc[p]) && s'.pc[p] != Taken
    ensures s'.pc[p] == Testing ==> !s.locked
    ensures forall q {:trigger s'.pc[q]} | 0 <= q < |s.pc| && q != p :: s'.pc[q] == s.pc[q]
  {
    if s.pc[p] == Testing && s.locked {
      StepInv(s, FindLocked(p));
      s' := Do(s, FindLocked(p));
      acts := [FindLocked(p)];
      LeadsFirst(s, FindLocked(p), [], s');
    } else {
      acts, s' := [], s;
    }
  }

  /** The lock is free, and so is lk->lk but for p: p takes it. */
  lemma TakesIt(s: State, p: nat) returns (acts: seq<Action>, s': State)
    requires Inv(s) && p < |s.pc| && Acquiring(s.pc[p]) && !Sleeps(s.pc[p])
    requires !s.locked && (s.spin == -1 || s.spin == p)
    ensures Leads(s, acts, s') && Inv(s') && |s'.pc| == |s.pc| && s'.pc[p] == Holding && s'.owner == p
  {
    var s1, first := s, [];
    if s.spin == -1 {
      StepInv(s, AcquireSpin(p));
      s1, first := Do(s, AcquireSpin(p)), [AcquireSpin(p)];
      LeadsFirst(s, AcquireSpin(p), [], s1);
    }
    StepInv(s1, FindFree(p));
    var s2 := Do(s1, FindFree(p));
    var rest;
    rest, s' := Returned(s2, p);
    LeadsFirst(s1, FindFree(p), rest, s');
    LeadsThen(s, first, s1, [FindFree(p)] + rest, s');
    acts := first + ([FindFree(p)] + rest);
  }
}
