/** What the operations of the logging system come to: commit and recovery to their ends, and a write from the
    buffer to the disk. */
module LogRuns {
  import opened Basics
  import opened LogDisk
  import opened LogProtocol

  /** The step a can be taken in s, and leads to s'.  Behind a trigger. */
  ghost predicate Next(g: Geometry, s: State, a: Action, s': State)
    requires g.Valid()
  {
    forall k {:trigger Key(k, a)} | Key(k, a) :: Step(g, s, a, s')
  }

  /** From s these steps can be taken one after another, and lead to s'. */
  ghost predicate Leads(g: Geometry, s: State, acts: seq<Action>, s': State)
    requires g.Valid()
    decreases |acts|
  {
    if acts == [] then s' == s else exists s1 {:trigger Next(g, s, acts[0], s1)} ::
      Next(g, s, acts[0], s1) && Leads(g, s1, acts[1..], s')
  }

  lemma LeadsFirst(g: Geometry, s: State, a: Action, s1: State, acts: seq<Action>, s': State)
    requires g.Valid() && Next(g, s, a, s1) && Leads(g, s1, acts, s')
    ensures Leads(g, s, [a] + acts, s')
  {
    assert ([a] + acts)[1..] == acts && ([a] + acts)[0] == a;
  }

  // ---------------------------------------------------------------- commit and recovery end

  /** How many steps commit, or recovery, still takes. */
  function Ahead(s: State): nat {
    match s.phase
    case Idle => 0
    case Logging(t) => Max(0, |s.lh| - t) + |s.lh| + 3
    case Installing(t) => Max(0, |s.lh| - t) + 2
    case Unlocking => 1
    case Booting => LOGSIZE + 2
    case Recovering(t) => Max(0, |s.lh| - t) + 1
  }

  /** The step that commit, or recovery, takes next. */
  function Goes(s: State): Action
    requires !s.phase.Idle?
  {
    match s.phase
    case Logging(t) => if t < |s.lh| then LogBlock else WriteHead
    case Installing(t) => if t < |s.lh| then InstallBlock else EraseHead
    case Unlocking => Unlock
    case Booting => ReadHead
    case Recovering(t) => if t < |s.lh| then RecoverBlock else RecoverErase
  }

  /** Nothing is logged meanwhile, and no operation begins. */
  ghost predicate Quiet(s: State, s': State) {
    && s'.base == s.base && s'.history == s.history && s'.current == s.current
    && s'.procs == s.procs && s'.outstanding == s.outstanding
  }

  lemma GoOn(g: Geometry, s: State) returns (s': State)
    requires Inv(g, s) && !s.phase.Idle? && Enabled(g, s, Goes(s))
    ensures g.Valid() && Next(g, s, Goes(s), s') && Inv(g, s') && s' == Do(g, s, Goes(s))
  {
    StepInv(g, s, Goes(s));
    s' := Do(g, s, Goes(s));
  }

  lemma LoggingGoes(g: Geometry, s: State)
    requires Inv(g, s) && s.phase.Logging?
    ensures Enabled(g, s, Goes(s))
    ensures var s' := Do(g, s, Goes(s));
            Quiet(s, s') && Ahead(s') < Ahead(s) && (s'.phase.Logging? || s'.phase.Installing?)
  {
    CountBounds(s.procs);
  }

  lemma InstallingGoes(g: Geometry, s: State)
    requires Inv(g, s) && (s.phase.Installing? || s.phase.Unlocking?)
    ensures Enabled(g, s, Goes(s))
    ensures var s' := Do(g, s, Goes(s));
            && Quiet(s, s') && Ahead(s') < Ahead(s)
            && (s'.phase.Installing? || s'.phase.Unlocking? || s'.phase.Idle?)
  {}

  lemma RecoveringGoes(g: Geometry, s: State)
    requires Inv(g, s) && (s.phase.Booting? || s.phase.Recovering?)
    ensures Enabled(g, s, Goes(s))
    ensures var s' := Do(g, s, Goes(s));
            Quiet(s, s') && Ahead(s') < Ahead(s) && (s'.phase.Recovering? || s'.phase.Idle?)
  {}

  /** From every state in which a commit runs, its own steps bring it to its end: all that was logged is durable,
      and at its place on the disk. */
  lemma {:induction false} CommitEnds(g: Geometry, s: State) returns (acts: seq<Action>, s': State)
    requires Inv(g, s) && (s.phase.Logging? || s.phase.Installing? || s.phase.Unlocking? || s.phase.Idle?)
    requires s.outstanding == 0
    ensures g.Valid() && Leads(g, s, acts, s') && Inv(g, s') && Quiet(s, s') && s'.phase.Idle? && !s'.committing
    ensures s'.durable == |s.history| && AtHome(g, s', s.current)
    decreases Ahead(s)
  {
    if s.phase.Idle? {
      acts, s' := [], s;
      forall b | g.Home(b) ensures s.disk[b] == s.current[b] {
        assert Logical(g, s.disk, b) == s.disk[b];
        assert s.history[..|s.history|] == s.history;
      }
    } else {
      if s.phase.Logging? { LoggingGoes(g, s); } else { InstallingGoes(g, s); }
      var s1 := GoOn(g, s);
      var rest;
      rest, s' := CommitEnds(g, s1);
      LeadsFirst(g, s, Goes(s), s1, rest, s');
      acts := [Goes(s)] + rest;
    }
  }

  /** The home blocks on the disk are those of d. */
  ghost predicate AtHome(g: Geometry, s: State, d: Disk) {
    |s.disk| == |d| == g.total && forall b {:trigger s.disk[b]} | g.Home(b) :: s.disk[b] == d[b]
  }

  /** From every state behind a crash recovery comes to its end: the disk is that of all committed writes. */
  lemma {:induction false} RecoveryEnds(g: Geometry, s: State) returns (acts: seq<Action>, s': State)
    requires Inv(g, s) && (s.phase.Booting? || s.phase.Recovering? || (s.phase.Idle? && s.outstanding == 0))
    ensures g.Valid() && Leads(g, s, acts, s') && Inv(g, s') && Quiet(s, s') && s'.phase.Idle? && !s'.committing
    ensures s'.durable == |s.history| && AtHome(g, s', Replay(s.base, s.history))
    decreases Ahead(s)
  {
    if s.phase.Idle? {
      acts, s' := CommitEnds(g, s);
    } else {
      RecoveringGoes(g, s);
      var s1 := GoOn(g, s);
      assert s1.phase.Idle? ==> s1.outstanding == 0 by { ActiveZero(s.procs); }
      var rest;
      rest, s' := RecoveryEnds(g, s1);
      LeadsFirst(g, s, Goes(s), s1, rest, s');
      acts := [Goes(s)] + rest;
    }
  }

  /** end_op() ends: at once if others go on, and with all that was logged on the disk if it is the last. */
  lemma EndOpEnds(g: Geometry, s: State, p: nat) returns (acts: seq<Action>, s': State)
    requires Inv(g, s) && Enabled(g, s, EndOp(p))
    ensures g.Valid() && Leads(g, s, acts, s') && Inv(g, s') && s'.history == s.history && s'.phase.Idle?
    ensures s'.procs == s.procs[p := Outside] && s'.outstanding == s.outstanding - 1
    ensures s.outstanding == 1 ==> s'.durable == |s.history| && AtHome(g, s', Replay(s.base, s.history))
  {
    StepInv(g, s, EndOp(p));
    var s1 := Do(g, s, EndOp(p));
    var rest;
    if s.outstanding == 1 {
      rest, s' := CommitEnds(g, s1);
    } else {
      rest, s' := [], s1;
    }
    LeadsFirst(g, s, EndOp(p), s1, rest, s');
    acts := [EndOp(p)] + rest;
  }

  // ---------------------------------------------------------------- a write, from the buffer to the disk

  /** p has the buffer of b, with this content, in operation op. */
  ghost predicate Has(s: State, p: nat, b: int, data: Block, op: nat) {
    Holds(s.procs, p, b) && s.procs[p].op == op && b in s.cache && s.cache[b] == data
  }

  /** The steps that may take it from p, or change it. */
  predicate Disturbs(a: Action, p: nat, b: int) { a.Crash? || a == Release(p, b) || (a.Modify? && a.b == b) }

  lemma Undisturbed(g: Geometry, s: State, a: Action, p: nat, b: int, data: Block, op: nat)
    requires Inv(g, s) && Enabled(g, s, a) && Has(s, p, b, data, op) && !Disturbs(a, p, b)
    ensures Has(Do(g, s, a), p, b, data, op) && s.history <= Do(g, s, a).history
  {
    assert s.procs[p].InOp? && s.phase.Idle?;
    assert Locked(s.procs, b);
  }

  lemma HistoryGrows(g: Geometry, s: State, a: Action)
    requires Inv(g, s) && Enabled(g, s, a) && !a.Crash?
    ensures s.history <= Do(g, s, a).history
  {}

  /** Run(), behind a trigger. */
  ghost predicate Ran(g: Geometry, run: seq<State>, acts: seq<Action>) {
    forall k {:trigger Key(k, run)} | Key(k, run) :: Run(g, run, acts)
  }

  lemma HasOne(g: Geometry, run: seq<State>, acts: seq<Action>, j: nat, p: nat, b: int, data: Block, op: nat)
    requires Ran(g, run, acts) && |run| == |acts| + 1 && j < |acts|
    ensures Has(run[j], p, b, data, op) && !Disturbs(acts[j], p, b) ==> Has(run[j + 1], p, b, data, op)
    ensures acts[j] == Modify(p, b, data) ==> p < |run[j].procs| && run[j].procs[p].InOp?
    ensures acts[j] == Modify(p, b, data) ==> Has(run[j + 1], p, b, data, run[j].procs[p].op)
    ensures acts[j] == LogWrite(p, b) && Has(run[j], p, b, data, op) ==>
      run[j + 1].history == run[j].history + [Write(op, b, data)] && b in run[j + 1].lh
  {
    assert Key(0, run);
    RunInv(g, run, acts, j);
    assert Step(g, run[j], acts[j], run[j + 1]);
    if Has(run[j], p, b, data, op) && !Disturbs(acts[j], p, b) {
      Undisturbed(g, run[j], acts[j], p, b, data, op);
    }
  }

  lemma GrowsOne(g: Geometry, run: seq<State>, acts: seq<Action>, j: nat)
    requires Ran(g, run, acts) && |run| == |acts| + 1 && j < |acts| && !acts[j].Crash?
    ensures run[j].history <= run[j + 1].history
  {
    assert Key(0, run);
    RunInv(g, run, acts, j);
    assert Step(g, run[j], acts[j], run[j + 1]);
    HistoryGrows(g, run[j], acts[j]);
  }

  lemma {:induction false} HasStill(g: Geometry, run: seq<State>, acts: seq<Action>, i: nat, j: nat, p: nat, b: int,
                                    data: Block) returns (op: nat)
    requires Ran(g, run, acts) && |run| == |acts| + 1 && i < j < |run| && acts[i] == Modify(p, b, data)
    requires forall k | i < k < j :: !Disturbs(acts[k], p, b)
    ensures Has(run[j], p, b, data, op) && p < |run[i].procs| && run[i].procs[p].InOp? && op == run[i].procs[p].op
    decreases j
  {
    if j == i + 1 {
      HasOne(g, run, acts, i, p, b, data, 0);
      op := run[i].procs[p].op;
    } else {
      op := HasStill(g, run, acts, i, j - 1, p, b, data);
      HasOne(g, run, acts, j - 1, p, b, data, op);
    }
  }

  lemma {:induction false} HistoryStays(g: Geometry, run: seq<State>, acts: seq<Action>, j: nat, k: nat)
    requires Ran(g, run, acts) && |run| == |acts| + 1 && j <= k < |run| && forall m | j <= m < k :: !acts[m].Crash?
    ensures run[j].history <= run[k].history
    decreases k
  {
    if j < k {
      HistoryStays(g, run, acts, j, k - 1);
      GrowsOne(g, run, acts, k - 1);
    }
  }

  /** What an operation writes into its buffer and then logs is the next entry of the history, under the number of
      the operation; and once it is durable it is there for good, crashes included. */
  lemma WriteSurvives(g: Geometry, run: seq<State>, acts: seq<Action>, i: nat, j: nat, k: nat, l: nat, p: nat, b: int,
                      data: Block)
    requires Run(g, run, acts) && i < j < k <= l < |run| && acts[i] == Modify(p, b, data) && acts[j] == LogWrite(p, b)
    requires forall m | i < m < j :: !Disturbs(acts[m], p, b)
    requires forall m | j < m < k :: !acts[m].Crash?
    ensures p < |run[i].procs| && run[i].procs[p].InOp?
    ensures var h, w := run[j].history, Write(run[i].procs[p].op, b, data);
            && run[j + 1].history == h + [w] && b in run[j + 1].lh && h + [w] <= run[k].history
            && (|h| < run[k].durable ==> |h| < run[l].durable <= |run[l].history| && run[l].history[|h|] == w)
  {
    var op := HasStill(g, run, acts, i, j, p, b, data);
    HasOne(g, run, acts, j, p, b, data, op);
    HistoryStays(g, run, acts, j + 1, k);
    CommittedStays(g, run, acts, k, l);
    var h := run[j].history;
    if |h| < run[k].durable {
      assert run[l].history[..run[k].durable][|h|] == run[k].history[..run[k].durable][|h|];
    }
  }

  // ---------------------------------------------------------------- single steps

  /** An operation begins with a number that no write of the history has and no other operation, and can end. */
  lemma BeginsFresh(g: Geometry, s: State, p: nat)
    requires Inv(g, s) && Enabled(g, s, BeginOp(p))
    ensures var s' := Do(g, s, BeginOp(p));
            && Inv(g, s') && s'.procs[p] == InOp(s.nextOp, {}, map[]) && Enabled(g, s', EndOp(p))
            && s'.outstanding == s.outstanding + 1 && s'.history == s.history
            && (forall j {:trigger s.history[j]} | 0 <= j < |s.history| :: s.history[j].op != s.nextOp)
            && (forall q {:trigger s.procs[q]} | 0 <= q < |s.procs| && q != p && s.procs[q].InOp? ::
                  s'.procs[q] == s.procs[q] && s.procs[q].op != s.nextOp)
  {
    StepInv(g, s, BeginOp(p));
  }

  /** What the buffer cache does by itself, to bring a block in or to drop it, changes what no reader sees. */
  lemma CacheUnseen(g: Geometry, s: State, b: int, x: int)
    requires Inv(g, s) && 0 <= x < g.total
    ensures Enabled(g, s, Fill(b)) ==>
      var s' := Do(g, s, Fill(b));
      b in s'.cache && s'.disk == s.disk && Bread(s'.disk, s'.cache, x) == Bread(s.disk, s.cache, x)
    ensures Enabled(g, s, Evict(b)) ==>
      var s' := Do(g, s, Evict(b));
      b !in s'.cache && s'.disk == s.disk && Bread(s'.disk, s'.cache, x) == Bread(s.disk, s.cache, x)
  {
    if Enabled(g, s, Fill(b)) {
      FillUnseen(g, s, b, x);
    }
    if Enabled(g, s, Evict(b)) {
      EvictUnseen(g, s, b, x);
    }
  }

  lemma FillUnseen(g: Geometry, s: State, b: int, x: int)
    requires g.Valid() && |s.disk| == g.total && Enabled(g, s, Fill(b)) && 0 <= x < g.total
    ensures var s' := Do(g, s, Fill(b));
            b in s'.cache && s'.disk == s.disk && Bread(s'.disk, s'.cache, x) == Bread(s.disk, s.cache, x)
  {}

  lemma EvictUnseen(g: Geometry, s: State, b: int, x: int)
    requires Inv(g, s) && Enabled(g, s, Evict(b)) && 0 <= x < g.total
    ensures var s' := Do(g, s, Evict(b));
            b !in s'.cache && s'.disk == s.disk && Bread(s'.disk, s'.cache, x) == Bread(s.disk, s.cache, x)
  {
    DirtyIsLocked(s.procs, b);
    assert b in s.cache ==> s.cache[b] == s.disk[b];
  }

  lemma DirtyIsLocked(procs: seq<Proc>, b: int)
    ensures Dirty(procs, b) ==> Locked(procs, b)
  {}
}
