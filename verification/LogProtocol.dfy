/** The logging system under concurrency and crashes, as a state machine.

    Processes run file system operations between begin_op and end_op; each block write of
    commit and of recovery is one step; the machine may crash between any two steps.

    The last fields of State only record what happened: `base` is the disk that the first
    recovery produces, `history` every log_write since, and `durable` how many of them are
    committed; `current` and `committed` are the disk with all of `history`, and with its
    durable part, applied. */
module LogProtocol {
  import opened Basics
  import opened LogDisk

  /** A process that is inside an operation: the operation's number, the distinct blocks it
      has logged, and the buffers it has locked, with whether their content was changed since
      they were last logged. */
  datatype Proc = Outside | InOp(op: nat, logged: set<int>, hold: map<int, bool>)

  /** Where the committing process (or recovery) stands. */
  datatype Phase =
    | Idle
    | Logging(tail: nat)        // write_log
    | Installing(tail: nat)     // install_trans(0), after the header was written
    | Unlocking                 // the log is erased, `committing` still set
    | Booting                   // before read_head
    | Recovering(tail: nat)     // install_trans(1)

  datatype Write = Write(op: nat, block: int, data: Block)

  datatype State = State(
    disk: Disk,
    cache: map<int, Block>,     // the valid buffers
    lh: seq<int>,               // log.lh: the list of logged blocks, all pinned
    outstanding: int,
    committing: bool,
    phase: Phase,
    procs: seq<Proc>,
    nextOp: nat,
    epoch: nat,                 // operations numbered below it ended before the last commit
    base: Disk,
    history: seq<Write>,
    durable: nat,
    current: Disk,
    committed: Disk)

  datatype Action =
    | BeginOp(p: nat)
    | Lock(p: nat, b: int)                  // bread
    | Modify(p: nat, b: int, data: Block)
    | LogWrite(p: nat, b: int)
    | Release(p: nat, b: int)               // brelse
    | EndOp(p: nat)
    | LogBlock                              // one write of write_log
    | WriteHead                             // the commit point
    | InstallBlock                          // one write of install_trans(0)
    | EraseHead
    | Unlock                                // the last part of end_op
    | Fill(b: int)                          // a reader brings a block into the cache
    | Evict(b: int)
    | Crash
    | ReadHead
    | RecoverBlock
    | RecoverErase

  // ---------------------------------------------------------------- the steps

  ghost predicate Holds(procs: seq<Proc>, p: nat, b: int) {
    p < |procs| && procs[p].InOp? && b in procs[p].hold
  }

  ghost predicate Locked(procs: seq<Proc>, b: int) { exists p: nat :: Holds(procs, p, b) }

  /** Blocks whose buffer may not be recycled: bpin'ed by log_write and not yet bunpin'ed. */
  ghost predicate Pinned(lh: seq<int>, phase: Phase, b: int) {
    b in lh && (phase.Installing? ==> phase.tail <= IndexOf(lh, b)) && !phase.Recovering?
  }

  ghost predicate Booted(s: State) { !s.phase.Booting? && !s.phase.Recovering? }

  /** bread's result for a block. */
  function Bread(disk: Disk, cache: map<int, Block>, b: int): Block
    requires 0 <= b < |disk|
  {
    if b in cache then cache[b] else disk[b]
  }

  /** The conditions under which begin_op and log_write do not sleep or panic. */
  predicate MayBegin(s: State) {
    !s.committing && |s.lh| + (s.outstanding + 1) * MAXOPBLOCKS <= LOGSIZE
  }

  predicate LogWritePanics(g: Geometry, s: State) {
    |s.lh| >= LOGSIZE || |s.lh| >= g.size - 1 || s.outstanding < 1
  }

  predicate EndOpPanics(s: State) { s.committing }

  ghost predicate Enabled(g: Geometry, s: State, a: Action)
    requires g.Valid() && |s.disk| == g.total
  {
    match a
    case BeginOp(p) => Booted(s) && p < |s.procs| && s.procs[p].Outside? && MayBegin(s)
    case Lock(p, b) => p < |s.procs| && s.procs[p].InOp? && g.Home(b) && !Locked(s.procs, b)
    case Modify(p, b, data) => Holds(s.procs, p, b)
    case LogWrite(p, b) =>
      // an operation logs at most MAXOPBLOCKS distinct blocks
      Holds(s.procs, p, b) && g.Home(b) && !LogWritePanics(g, s) && |s.procs[p].logged + {b}| <= MAXOPBLOCKS
    case Release(p, b) => Holds(s.procs, p, b) && !s.procs[p].hold[b]
    case EndOp(p) => p < |s.procs| && s.procs[p].InOp? && s.procs[p].hold == map[] && !EndOpPanics(s)
    case LogBlock => s.phase.Logging? && s.phase.tail < |s.lh| && |s.lh| < g.size && g.Home(s.lh[s.phase.tail])
    case WriteHead => s.phase.Logging? && s.phase.tail == |s.lh| <= LOGSIZE
    case InstallBlock => s.phase.Installing? && s.phase.tail < |s.lh| && |s.lh| < g.size && g.Home(s.lh[s.phase.tail])
    case EraseHead => s.phase.Installing? && s.phase.tail == |s.lh|
    case Unlock => s.phase.Unlocking?
    case Fill(b) => Booted(s) && 0 <= b < g.total && b !in s.cache
    case Evict(b) => !Pinned(s.lh, s.phase, b) && !Locked(s.procs, b)
    case Crash => true
    case ReadHead => s.phase.Booting?
    case RecoverBlock => s.phase.Recovering? && s.phase.tail < |s.lh| && |s.lh| < g.size && g.Home(s.lh[s.phase.tail])
    case RecoverErase => s.phase.Recovering? && s.phase.tail == |s.lh|
  }

  /** log_write's update of the header: absorbed if the block is already there. */
  function Absorb(lh: seq<int>, b: int): seq<int> { if b in lh then lh else lh + [b] }

  /** bwrite of a buffer whose content was just set. */
  function Put(s: State, b: int, data: Block): State
    requires 0 <= b < |s.disk|
  {
    s.(disk := s.disk[b := data], cache := s.cache[b := data])
  }

  ghost function Do(g: Geometry, s: State, a: Action): State
    requires g.Valid() && |s.disk| == g.total && Enabled(g, s, a)
  {
    match a
    case BeginOp(p) =>
      s.(outstanding := s.outstanding + 1, procs := s.procs[p := InOp(s.nextOp, {}, map[])], nextOp := s.nextOp + 1)
    case Lock(p, b) =>
      s.(cache := s.cache[b := Bread(s.disk, s.cache, b)], procs := s.procs[p := Hold(s.procs[p], b, false)])
    case Modify(p, b, data) =>
      s.(cache := s.cache[b := data], procs := s.procs[p := Hold(s.procs[p], b, true)])
    case LogWrite(p, b) =>
      var pr := Hold(s.procs[p], b, false);
      s.(lh := Absorb(s.lh, b), procs := s.procs[p := pr.(logged := pr.logged + {b})],
         history := s.history + [Write(pr.op, b, Bread(s.disk, s.cache, b))],
         current := Patch(s.current, b, Bread(s.disk, s.cache, b)))
    case Release(p, b) => s.(procs := s.procs[p := s.procs[p].(hold := s.procs[p].hold - {b})])
    case EndOp(p) =>
      var last := s.outstanding == 1;
      // commit() does nothing when no block was logged
      s.(outstanding := s.outstanding - 1, committing := last, procs := s.procs[p := Outside],
         phase := if !last then s.phase else if s.lh == [] then Unlocking else Logging(0))
    case LogBlock =>
      Put(s, g.start + 1 + s.phase.tail,
        Bread(s.disk, s.cache, s.lh[s.phase.tail])).(phase := Logging(s.phase.tail + 1))
    case WriteHead =>
      Put(s, g.start, PutHeader(Bread(s.disk, s.cache, g.start), s.lh))
        .(phase := Installing(0), durable := |s.history|, epoch := s.nextOp, committed := s.current)
    case InstallBlock =>
      Put(s, s.lh[s.phase.tail],
        Bread(s.disk, s.cache, g.start + 1 + s.phase.tail)).(phase := Installing(s.phase.tail + 1))
    case EraseHead =>
      Put(s, g.start, PutHeader(Bread(s.disk, s.cache, g.start), [])).(phase := Unlocking, lh := [])
    case Unlock => s.(phase := Idle, committing := false)
    case Fill(b) => s.(cache := s.cache[b := s.disk[b]])
    case Evict(b) => s.(cache := s.cache - {b})
    case Crash =>
      s.(cache := map[], lh := [], outstanding := 0, committing := false, phase := Booting,
         procs := seq(|s.procs|, _ => Outside), history := s.history[..Min(s.durable, |s.history|)],
         current := s.committed)
    case ReadHead => s.(lh := GetHeader(Bread(s.disk, s.cache, g.start)), phase := Recovering(0))
    case RecoverBlock =>
      Put(s, s.lh[s.phase.tail],
        Bread(s.disk, s.cache, g.start + 1 + s.phase.tail)).(phase := Recovering(s.phase.tail + 1))
    case RecoverErase =>
      Put(s, g.start, PutHeader(Bread(s.disk, s.cache, g.start), [])).(phase := Idle, lh := [])
  }

  function Patch(d: Disk, b: int, data: Block): Disk { if 0 <= b < |d| then d[b := data] else d }

  function Hold(pr: Proc, b: int, changed: bool): Proc
    requires pr.InOp?
  {
    pr.(hold := pr.hold[b := changed])
  }

  /** Power-on, with a disk whose log may hold a committed transaction. */
  ghost predicate Init(g: Geometry, s: State) {
    && Recoverable(g, s.disk)
    && s.cache == map[] && s.lh == [] && s.outstanding == 0 && !s.committing && s.phase == Booting
    && (forall p | 0 <= p < |s.procs| :: s.procs[p].Outside?)
    && s.epoch <= s.nextOp && s.base == Recovered(g, s.disk) && s.history == [] && s.durable == 0
    && s.current == s.base && s.committed == s.base
  }

  /** A run: run[i+1] is reached from run[i] by acts[i]. */
  ghost predicate Run(g: Geometry, run: seq<State>, acts: seq<Action>) {
    && g.Valid() && |run| == |acts| + 1 && Init(g, run[0])
    && forall i {:trigger acts[i]} | 0 <= i < |acts| :: Step(g, run[i], acts[i], run[i + 1])
  }

  ghost predicate Step(g: Geometry, s: State, a: Action, s': State)
    requires g.Valid()
  {
    |s.disk| == g.total && Enabled(g, s, a) && s' == Do(g, s, a)
  }

  // ---------------------------------------------------------------- counting operations

  function Active(procs: seq<Proc>): nat {
    if procs == [] then 0 else Active(procs[..|procs| - 1]) + if procs[|procs| - 1].InOp? then 1 else 0
  }

  /** Log space that running operations have reserved and not used. */
  function Unused(procs: seq<Proc>): int {
    if procs == [] then 0 else Unused(procs[..|procs| - 1]) + Reserve(procs[|procs| - 1])
  }

  function Reserve(pr: Proc): int { if pr.InOp? then MAXOPBLOCKS - |pr.logged| else 0 }

  lemma {:induction false} CountUpdate(procs: seq<Proc>, p: nat, pr: Proc)
    requires p < |procs|
    ensures Active(procs[p := pr]) ==
            Active(procs) - (if procs[p].InOp? then 1 else 0) + (if pr.InOp? then 1 else 0)
    ensures Unused(procs[p := pr]) == Unused(procs) - Reserve(procs[p]) + Reserve(pr)
    decreases |procs|
  {
    var n := |procs| - 1;
    if p == n {
      assert procs[p := pr][..n] == procs[..n];
    } else {
      assert procs[p := pr][..n] == procs[..n][p := pr];
      CountUpdate(procs[..n], p, pr);
    }
  }

  lemma {:induction false} CountBounds(procs: seq<Proc>)
    requires forall p | 0 <= p < |procs| :: procs[p].InOp? ==> |procs[p].logged| <= MAXOPBLOCKS
    ensures 0 <= Unused(procs) <= MAXOPBLOCKS * Active(procs)
    ensures forall p | 0 <= p < |procs| :: Reserve(procs[p]) <= Unused(procs)
    decreases |procs|
  {
    if procs != [] {
      CountBounds(procs[..|procs| - 1]);
    }
  }

  /** The end_op that finds `outstanding` at 1 is the only operation there is. */
  lemma LastOp(procs: seq<Proc>, p: nat)
    requires p < |procs| && procs[p].InOp? && Active(procs) == 1
    ensures forall q | 0 <= q < |procs| && q != p :: procs[q].Outside?
  {
    CountUpdate(procs, p, Outside);
    ActiveZero(procs[p := Outside]);
    assert forall q | 0 <= q < |procs| && q != p :: procs[p := Outside][q] == procs[q];
  }

  lemma {:induction false} ActiveZero(procs: seq<Proc>)
    ensures Active(procs) == 0 <==> forall p | 0 <= p < |procs| :: procs[p].Outside?
    decreases |procs|
  {
    if procs != [] {
      ActiveZero(procs[..|procs| - 1]);
    }
  }

  // ---------------------------------------------------------------- replaying the history

  /** A disk after the given writes, in order. */
  function Replay(base: Disk, h: seq<Write>): (d: Disk)
    ensures |d| == |base|
    decreases |h|
  {
    if h == [] then base
    else
      var w := h[|h| - 1];
      Patch(Replay(base, h[..|h| - 1]), w.block, w.data)
  }

  // ---------------------------------------------------------------- the invariant

  /** `committing` and the log's block list fit the phase, and outside Idle no operation runs. */
  ghost predicate Phases(g: Geometry, s: State) {
    && (s.committing <==> s.phase.Logging? || s.phase.Installing? || s.phase.Unlocking?)
    && (s.phase != Idle ==> forall p | 0 <= p < |s.procs| :: s.procs[p].Outside?)
    && g.Loggable(s.lh)
    && (s.phase.Unlocking? || s.phase.Booting? ==> s.lh == [])
    && (s.phase.Logging? || s.phase.Installing? || s.phase.Recovering? ==> s.phase.tail <= |s.lh|)
  }

  /** `outstanding` counts the running operations, and what they may still log fits the log. */
  ghost predicate Reserved(s: State) {
    && s.outstanding == Active(s.procs)
    && (forall p | 0 <= p < |s.procs| && s.procs[p].InOp? :: |s.procs[p].logged| <= MAXOPBLOCKS)
    && |s.lh| + Unused(s.procs) <= LOGSIZE
  }

  /** Buffer locks are exclusive, held buffers are valid, an operation's blocks are in the log,
      and the log's blocks are in the cache. */
  ghost predicate Buffers(g: Geometry, s: State) {
    && (forall p, b | Holds(s.procs, p, b) :: g.Home(b) && b in s.cache)
    && (forall p, q, b | Holds(s.procs, p, b) && Holds(s.procs, q, b) :: p == q)
    && (forall p, b | 0 <= p < |s.procs| && s.procs[p].InOp? && b in s.procs[p].logged :: b in s.lh)
    && (forall b | Pinned(s.lh, s.phase, b) :: b in s.cache)
    && (forall b | b in s.cache :: 0 <= b < g.total)
  }

  /** Changed since it was last logged. */
  ghost predicate Dirty(procs: seq<Proc>, b: int) {
    exists p: nat :: Holds(procs, p, b) && procs[p].hold[b]
  }

  /** Apart from pinned and dirty buffers the cache agrees with the disk. */
  ghost predicate Clean(s: State)
    requires forall b | b in s.cache :: 0 <= b < |s.disk|
  {
    forall b {:trigger b in s.cache} | b in s.cache && !Pinned(s.lh, s.phase, b) && !Dirty(s.procs, b) ::
      s.cache[b] == s.disk[b]
  }

  /** Apart from dirty buffers a reader sees every logged write. */
  ghost predicate UpToDate(g: Geometry, s: State)
    requires |s.disk| == |s.current| == g.total
  {
    Booted(s) ==> forall b {:trigger Bread(s.disk, s.cache, b)} | g.Home(b) && !Dirty(s.procs, b) ::
      Bread(s.disk, s.cache, b) == s.current[b]
  }

  /** The disk's logical content is what has been committed; only blocks in the log are ahead. */
  ghost predicate Durable(g: Geometry, s: State)
    requires |s.disk| == |s.current| == |s.committed| == g.total
  {
    && Recoverable(g, s.disk)
    && (forall b {:trigger Logical(g, s.disk, b)} | g.Home(b) ::
          Logical(g, s.disk, b) == s.committed[b])
    && (forall b {:trigger s.committed[b]} | g.Home(b) && b !in s.lh :: s.committed[b] == s.current[b])
  }

  /** How far commit or recovery has come. */
  ghost predicate Progress(g: Geometry, s: State)
    requires |s.disk| == |s.current| == |s.committed| == g.total && Phases(g, s) && Durable(g, s)
  {
    && (s.phase.Idle? || s.phase.Logging? || s.phase.Unlocking? ==> Header(g, s.disk) == [])
    && (s.phase.Installing? || s.phase.Recovering? ==> Header(g, s.disk) == s.lh)
    && (s.phase.Logging? ==> forall i | 0 <= i < s.phase.tail :: Copy(g, s.disk, i) == s.current[s.lh[i]])
    && (s.phase.Installing? || s.phase.Recovering? ==>
          forall i | 0 <= i < s.phase.tail :: s.disk[s.lh[i]] == Copy(g, s.disk, i))
    && (s.phase.Installing? || !Booted(s) ==> s.committed == s.current)
  }

  ghost predicate Core(g: Geometry, s: State) {
    && g.Valid() && |s.disk| == |s.current| == |s.committed| == g.total
    && Phases(g, s) && Buffers(g, s) && Clean(s) && UpToDate(g, s) && Durable(g, s) && Progress(g, s)
  }

  /** The two summary disks are the history's, every operation's writes lie on one side of the
      commit boundary, and what is not committed is in the log. */
  ghost predicate Grouped(s: State) {
    && s.epoch <= s.nextOp && s.durable <= |s.history|
    && s.current == Replay(s.base, s.history) && s.committed == Replay(s.base, s.history[..s.durable])
    && (forall j | 0 <= j < s.durable :: s.history[j].op < s.epoch)
    && (forall j | s.durable <= j < |s.history| :: s.epoch <= s.history[j].op < s.nextOp && s.history[j].block in s.lh)
    && (forall p | 0 <= p < |s.procs| && s.procs[p].InOp? :: s.epoch <= s.procs[p].op < s.nextOp)
    && (s.phase.Logging? || (s.phase.Idle? && s.outstanding > 0) || s.durable == |s.history|)
  }

  ghost predicate Inv(g: Geometry, s: State) { Core(g, s) && Reserved(s) && Grouped(s) }

  // ---------------------------------------------------------------- every step keeps it

  lemma InitCore(g: Geometry, s: State)
    requires g.Valid() && Init(g, s)
    ensures Core(g, s)
  {
    RecoveredIsLogical(g, s.disk);
  }

  lemma BeginOpCore(g: Geometry, s: State, p: nat)
    requires Core(g, s) && Enabled(g, s, BeginOp(p))
    ensures Core(g, Do(g, s, BeginOp(p)))
  {
    var s' := Do(g, s, BeginOp(p));
    SameLocks(s.procs, s'.procs);
  }

  /** Starting or ending an operation, or logging a block, locks and unlocks no buffer. */
  lemma SameLocks(procs: seq<Proc>, procs': seq<Proc>)
    requires |procs'| == |procs|
    requires forall p | 0 <= p < |procs| :: Held(procs'[p]) == Held(procs[p])
    ensures forall p, b :: Holds(procs', p, b) <==> Holds(procs, p, b)
    ensures forall b :: Dirty(procs', b) <==> Dirty(procs, b)
  {
    forall p: nat, b ensures Holds(procs', p, b) <==> Holds(procs, p, b) {
      assert p < |procs| ==> Held(procs'[p]) == Held(procs[p]);
    }
    assert forall p: nat, b :: Holds(procs', p, b) <==> Holds(procs, p, b);
  }

  function Held(pr: Proc): map<int, bool> { if pr.InOp? then pr.hold else map[] }

  /** A process that only changes what it holds leaves the bookkeeping alone. */
  lemma HoldShape(g: Geometry, s: State, s': State, p: nat)
    requires Core(g, s) && p < |s.procs| && s.procs[p].InOp?
    requires exists h :: s'.procs == s.procs[p := s.procs[p].(hold := h)]
    requires s' == s.(cache := s'.cache, procs := s'.procs)
    ensures Phases(g, s') && Durable(g, s') && Progress(g, s')
  {
  }

  lemma LockCore(g: Geometry, s: State, p: nat, b: int)
    requires Core(g, s) && Enabled(g, s, Lock(p, b))
    ensures Core(g, Do(g, s, Lock(p, b)))
  {
    var s' := Do(g, s, Lock(p, b));
    HoldShape(g, s, s', p);
    assert forall q | Holds(s.procs, q, b) :: Locked(s.procs, b);
    LockProcs(s.procs, s'.procs, p, b);
    assert Buffers(g, s');
    assert forall c | 0 <= c < g.total :: Bread(s'.disk, s'.cache, c) == Bread(s.disk, s.cache, c);
  }

  lemma LockProcs(procs: seq<Proc>, procs': seq<Proc>, p: nat, b: int)
    requires p < |procs| && procs[p].InOp? && !Locked(procs, b) && procs' == procs[p := Hold(procs[p], b, false)]
    ensures forall q, c :: Holds(procs', q, c) <==> Holds(procs, q, c) || (q == p && c == b)
    ensures forall c :: Dirty(procs', c) <==> Dirty(procs, c)
    ensures procs'[p].logged == procs[p].logged
  {
    forall c ensures Dirty(procs', c) <==> Dirty(procs, c) {
      if q: nat :| Holds(procs, q, c) && procs[q].hold[c] {
        assert Locked(procs, c);
        assert Holds(procs', q, c) && procs'[q].hold[c];
      }
    }
  }

  lemma ModifyCore(g: Geometry, s: State, p: nat, b: int, data: Block)
    requires Core(g, s) && Enabled(g, s, Modify(p, b, data))
    ensures Core(g, Do(g, s, Modify(p, b, data)))
  {
    HoldShape(g, s, Do(g, s, Modify(p, b, data)), p);
    ModifyCache(g, s, p, b, data);
  }

  lemma ModifyCache(g: Geometry, s: State, p: nat, b: int, data: Block)
    requires Core(g, s) && Enabled(g, s, Modify(p, b, data))
    ensures var s' := Do(g, s, Modify(p, b, data)); Buffers(g, s') && Clean(s') && UpToDate(g, s')
  {
    var s' := Do(g, s, Modify(p, b, data));
    assert forall q, c :: Holds(s'.procs, q, c) <==> Holds(s.procs, q, c);
    assert Holds(s'.procs, p, b) && Dirty(s'.procs, b);
    assert forall c | c != b :: Dirty(s'.procs, c) <==> Dirty(s.procs, c);
    assert Buffers(g, s');
    assert forall c | 0 <= c < g.total && c != b :: Bread(s'.disk, s'.cache, c) == Bread(s.disk, s.cache, c);
  }

  lemma ReleaseCore(g: Geometry, s: State, p: nat, b: int)
    requires Core(g, s) && Enabled(g, s, Release(p, b))
    ensures Core(g, Do(g, s, Release(p, b)))
  {
    var s' := Do(g, s, Release(p, b));
    HoldShape(g, s, s', p);
    assert forall q, c :: Holds(s'.procs, q, c) <==> Holds(s.procs, q, c) && !(q == p && c == b);
    assert forall c :: Dirty(s'.procs, c) <==> Dirty(s.procs, c);
    assert Buffers(g, s');
  }

  lemma LogWriteCache(g: Geometry, s: State, p: nat, b: int)
    requires Core(g, s) && Enabled(g, s, LogWrite(p, b))
    ensures var s' := Do(g, s, LogWrite(p, b)); Buffers(g, s') && Clean(s') && UpToDate(g, s')
  {
    var s' := Do(g, s, LogWrite(p, b));
    assert forall q, c :: Holds(s'.procs, q, c) <==> Holds(s.procs, q, c);
    assert forall c | c != b :: Dirty(s'.procs, c) <==> Dirty(s.procs, c);
    assert forall c :: Pinned(s'.lh, s'.phase, c) <==> Pinned(s.lh, s.phase, c) || c == b;
    assert Buffers(g, s');
  }

  lemma LogWriteCore(g: Geometry, s: State, p: nat, b: int)
    requires Core(g, s) && Enabled(g, s, LogWrite(p, b))
    ensures Core(g, Do(g, s, LogWrite(p, b)))
  {
    LogWriteCache(g, s, p, b);
    LogWriteShape(g, s, p, b);
  }

  lemma LogWriteShape(g: Geometry, s: State, p: nat, b: int)
    requires Core(g, s) && Enabled(g, s, LogWrite(p, b))
    ensures var s' := Do(g, s, LogWrite(p, b));
            Phases(g, s') && Durable(g, s') && Progress(g, s')
  {
    var s' := Do(g, s, LogWrite(p, b));
  }

  lemma EndOpCore(g: Geometry, s: State, p: nat)
    requires Core(g, s) && Enabled(g, s, EndOp(p))
    requires s.outstanding == 1 ==> forall q | 0 <= q < |s.procs| && q != p :: s.procs[q].Outside?
    ensures Core(g, Do(g, s, EndOp(p)))
  {
    SameLocks(s.procs, Do(g, s, EndOp(p)).procs);
  }

  lemma FillCore(g: Geometry, s: State, b: int)
    requires Core(g, s) && Enabled(g, s, Fill(b))
    ensures Core(g, Do(g, s, Fill(b)))
  {
    var s' := Do(g, s, Fill(b));
    assert Buffers(g, s');
    assert forall c | 0 <= c < g.total :: Bread(s'.disk, s'.cache, c) == Bread(s.disk, s.cache, c);
  }

  lemma EvictCore(g: Geometry, s: State, b: int)
    requires Core(g, s) && Enabled(g, s, Evict(b))
    ensures Core(g, Do(g, s, Evict(b)))
  {
    var s' := Do(g, s, Evict(b));
    assert forall q | Holds(s.procs, q, b) :: Locked(s.procs, b);
    assert !Dirty(s.procs, b);
    assert Buffers(g, s');
    assert forall c | 0 <= c < g.total :: Bread(s'.disk, s'.cache, c) == Bread(s.disk, s.cache, c);
  }

  /** While no operation runs, no buffer is locked. */
  lemma NobodyHolds(g: Geometry, s: State)
    requires Core(g, s) && s.phase != Idle
    ensures forall p | 0 <= p < |s.procs| :: s.procs[p].Outside?
    ensures forall p, b :: !Holds(s.procs, p, b)
    ensures forall b :: !Dirty(s.procs, b)
  {
  }

  /** A bwrite by commit or recovery: disk and cache agree on the block afterwards. */
  lemma PutClean(g: Geometry, s: State, s': State, b: int, data: Block)
    requires Core(g, s) && s.phase != Idle && 0 <= b < g.total
    requires s'.disk == s.disk[b := data] && s'.cache == s.cache[b := data] && s'.procs == s.procs
    requires forall c | c != b && Pinned(s.lh, s.phase, c) :: Pinned(s'.lh, s'.phase, c)
    requires forall c | c != b && Pinned(s'.lh, s'.phase, c) :: Pinned(s.lh, s.phase, c)
    ensures Buffers(g, s') && Clean(s')
    ensures forall c | 0 <= c < g.total && c != b :: Bread(s'.disk, s'.cache, c) == Bread(s.disk, s.cache, c)
    ensures Bread(s'.disk, s'.cache, b) == data
  {
    NobodyHolds(g, s);
  }

  lemma LogBlockDisk(g: Geometry, s: State)
    requires Core(g, s) && Enabled(g, s, LogBlock)
    ensures var s' := Do(g, s, LogBlock); Phases(g, s') && Durable(g, s') && Progress(g, s')
  {
    NobodyHolds(g, s);
    LogicalKept(g, s.disk, Do(g, s, LogBlock).disk);
  }

  lemma LogBlockCore(g: Geometry, s: State)
    requires Core(g, s) && Enabled(g, s, LogBlock)
    ensures Core(g, Do(g, s, LogBlock))
  {
    PutClean(g, s, Do(g, s, LogBlock), g.start + 1 + s.phase.tail, Bread(s.disk, s.cache, s.lh[s.phase.tail]));
    LogBlockDisk(g, s);
  }

  lemma WriteHeadDisk(g: Geometry, s: State)
    requires Core(g, s) && Enabled(g, s, WriteHead)
    ensures var s' := Do(g, s, WriteHead); Phases(g, s') && Durable(g, s') && Progress(g, s')
  {
    var s' := Do(g, s, WriteHead);
    HeaderCommits(g, s.disk, Bread(s.disk, s.cache, g.start), s.lh);
    forall b | g.Home(b) ensures Logical(g, s'.disk, b) == s.current[b] {
      if b in s.lh {
        var i := IndexOf(s.lh, b);
        assert Logical(g, s'.disk, s.lh[i]) == Copy(g, s.disk, i);
      }
    }
  }

  lemma WriteHeadCore(g: Geometry, s: State)
    requires Core(g, s) && Enabled(g, s, WriteHead)
    ensures Core(g, Do(g, s, WriteHead))
  {
    NobodyHolds(g, s);
    PutClean(g, s, Do(g, s, WriteHead), g.start, PutHeader(Bread(s.disk, s.cache, g.start), s.lh));
    WriteHeadDisk(g, s);
  }

  /** One write of install_trans, in commit or in recovery. */
  lemma InstallDisk(g: Geometry, s: State, s': State, t: nat)
    requires Core(g, s) && t < |s.lh|
    requires || (s.phase == Installing(t) && s'.phase == Installing(t + 1))
             || (s.phase == Recovering(t) && s'.phase == Recovering(t + 1))
    requires s' == Put(s, s.lh[t], Copy(g, s.disk, t)).(phase := s'.phase)
    ensures Phases(g, s') && Durable(g, s') && Progress(g, s')
  {
    InstallDurable(g, s, t);
    forall i | 0 <= i <= t ensures s'.disk[s.lh[i]] == Copy(g, s'.disk, i) {
      assert i < t ==> s.lh[i] != s.lh[t];
    }
  }

  lemma InstallDurable(g: Geometry, s: State, t: nat)
    requires Core(g, s) && t < |s.lh| && Header(g, s.disk) == s.lh
    ensures var d := s.disk[s.lh[t] := Copy(g, s.disk, t)];
            && Recoverable(g, d) && Header(g, d) == s.lh
            && (forall i | 0 <= i < |s.lh| :: Copy(g, d, i) == Copy(g, s.disk, i))
            && (forall b {:trigger Logical(g, d, b)} | g.Home(b) :: Logical(g, d, b) == s.committed[b])
  {
    assert g.Home(s.lh[t]);
    LogicalKept(g, s.disk, s.disk[s.lh[t] := Copy(g, s.disk, t)]);
  }

  /** The log block that install_trans reads is the one on disk: log blocks are never pinned. */
  lemma InstallReads(g: Geometry, s: State, t: nat)
    requires Core(g, s) && s.phase != Idle && t < |s.lh|
    ensures Bread(s.disk, s.cache, g.start + 1 + t) == Copy(g, s.disk, t)
    ensures IndexOf(s.lh, s.lh[t]) == t
  {
    NobodyHolds(g, s);
    LogAreaClean(g, s, g.start + 1 + t);
    IndexIs(g, s.lh, t);
  }

  lemma IndexIs(g: Geometry, blocks: seq<int>, t: nat)
    requires g.Loggable(blocks) && t < |blocks|
    ensures IndexOf(blocks, blocks[t]) == t
  {}

  /** Blocks of the log itself are in the cache as on the disk. */
  lemma LogAreaClean(g: Geometry, s: State, b: int)
    requires g.Valid() && |s.disk| == g.total && g.Loggable(s.lh) && g.start <= b < g.start + g.size
    requires (forall c | c in s.cache :: 0 <= c < |s.disk|) && Clean(s) && !Dirty(s.procs, b)
    ensures Bread(s.disk, s.cache, b) == s.disk[b]
  {}

  lemma InstallBlockCore(g: Geometry, s: State)
    requires Core(g, s) && Enabled(g, s, InstallBlock)
    ensures Core(g, Do(g, s, InstallBlock))
  {
    InstallIsPut(g, s);
    InstallCore(g, s, Do(g, s, InstallBlock), s.phase.tail);
  }

  lemma InstallIsPut(g: Geometry, s: State)
    requires Core(g, s) && Enabled(g, s, InstallBlock)
    ensures var t := s.phase.tail;
            Do(g, s, InstallBlock) == Put(s, s.lh[t], Copy(g, s.disk, t)).(phase := Installing(t + 1))
  {
    InstallReads(g, s, s.phase.tail);
  }

  lemma InstallCore(g: Geometry, s: State, s': State, t: nat)
    requires Core(g, s) && s.phase != Idle && t < |s.lh|
    requires || (s.phase == Installing(t) && s'.phase == Installing(t + 1))
             || (s.phase == Recovering(t) && s'.phase == Recovering(t + 1))
    requires s' == Put(s, s.lh[t], Copy(g, s.disk, t)).(phase := s'.phase)
    ensures Core(g, s')
  {
    InstallCache(g, s, s', t);
    InstallDisk(g, s, s', t);
  }

  lemma InstallCache(g: Geometry, s: State, s': State, t: nat)
    requires Core(g, s) && s.phase != Idle && t < |s.lh| && Header(g, s.disk) == s.lh && s.committed == s.current
    requires || (s.phase == Installing(t) && s'.phase == Installing(t + 1))
             || (s.phase == Recovering(t) && s'.phase == Recovering(t + 1))
    requires s' == Put(s, s.lh[t], Copy(g, s.disk, t)).(phase := s'.phase)
    ensures Buffers(g, s') && Clean(s') && UpToDate(g, s')
  {
    PutClean(g, s, s', s.lh[t], Copy(g, s.disk, t));
    assert IndexOf(s.lh, s.lh[t]) == t;
    assert Logical(g, s.disk, s.lh[t]) == Copy(g, s.disk, t);
    NobodyHolds(g, s);
  }

  lemma EraseHeadCore(g: Geometry, s: State)
    requires Core(g, s) && Enabled(g, s, EraseHead)
    ensures Core(g, Do(g, s, EraseHead))
  {
    EraseDisk(g, s, EraseHead);
    NobodyHolds(g, s);
    PutClean(g, s, Do(g, s, EraseHead), g.start, PutHeader(Bread(s.disk, s.cache, g.start), []));
  }

  lemma EraseDisk(g: Geometry, s: State, a: Action)
    requires Core(g, s) && Enabled(g, s, a) && (a.EraseHead? || a.RecoverErase?)
    ensures var s' := Do(g, s, a); Phases(g, s') && Durable(g, s') && Progress(g, s')
  {
    HeaderErased(g, s.disk, Bread(s.disk, s.cache, g.start));
  }

  lemma UnlockCore(g: Geometry, s: State)
    requires Core(g, s) && Enabled(g, s, Unlock)
    ensures Core(g, Do(g, s, Unlock))
  {
    NobodyHolds(g, s);
  }

  lemma CrashCore(g: Geometry, s: State)
    requires Core(g, s)
    ensures Core(g, Do(g, s, Crash))
  {
    var s' := Do(g, s, Crash);
  }

  lemma ReadHeadCore(g: Geometry, s: State)
    requires Core(g, s) && Enabled(g, s, ReadHead)
    ensures Core(g, Do(g, s, ReadHead))
  {
    NobodyHolds(g, s);
  }

  lemma RecoverBlockCore(g: Geometry, s: State)
    requires Core(g, s) && Enabled(g, s, RecoverBlock)
    ensures Core(g, Do(g, s, RecoverBlock))
  {
    InstallReads(g, s, s.phase.tail);
    InstallCore(g, s, Do(g, s, RecoverBlock), s.phase.tail);
  }

  lemma RecoverEraseCore(g: Geometry, s: State)
    requires Core(g, s) && Enabled(g, s, RecoverErase)
    ensures Core(g, Do(g, s, RecoverErase))
  {
    var s' := Do(g, s, RecoverErase);
    EraseDisk(g, s, RecoverErase);
    PutClean(g, s, s', g.start, PutHeader(Bread(s.disk, s.cache, g.start), []));
    assert forall b | g.Home(b) :: Logical(g, s'.disk, b) == s'.disk[b];
  }

  lemma StepCore(g: Geometry, s: State, a: Action)
    requires Core(g, s) && Reserved(s) && Enabled(g, s, a)
    ensures Core(g, Do(g, s, a))
  {
    match a
    case BeginOp(p) => BeginOpCore(g, s, p);
    case Lock(p, b) => LockCore(g, s, p, b);
    case Modify(p, b, data) => ModifyCore(g, s, p, b, data);
    case LogWrite(p, b) => LogWriteCore(g, s, p, b);
    case Release(p, b) => ReleaseCore(g, s, p, b);
    case EndOp(p) =>
      if s.outstanding == 1 { LastOp(s.procs, p); }
      EndOpCore(g, s, p);
    case LogBlock => LogBlockCore(g, s);
    case WriteHead => WriteHeadCore(g, s);
    case InstallBlock => InstallBlockCore(g, s);
    case EraseHead => EraseHeadCore(g, s);
    case Unlock => UnlockCore(g, s);
    case Fill(b) => FillCore(g, s, b);
    case Evict(b) => EvictCore(g, s, b);
    case Crash => CrashCore(g, s);
    case ReadHead => ReadHeadCore(g, s);
    case RecoverBlock => RecoverBlockCore(g, s);
    case RecoverErase => RecoverEraseCore(g, s);
  }

  /** The log space protocol across a step. */
  lemma StepReserved(g: Geometry, s: State, a: Action)
    requires Core(g, s) && Reserved(s) && Enabled(g, s, a)
    ensures Reserved(Do(g, s, a))
  {
    match a
    case BeginOp(p) => OpReserved(g, s, a);
    case Lock(p, b) => HoldReserved(s, Do(g, s, a), p);
    case Modify(p, b, data) => HoldReserved(s, Do(g, s, a), p);
    case Release(p, b) => HoldReserved(s, Do(g, s, a), p);
    case LogWrite(p, b) => LogWriteReserved(g, s, p, b);
    case EndOp(p) => OpReserved(g, s, a);
    case Fill(b) =>
    case Evict(b) =>
    case _ => AloneReserved(g, s, a);
  }

  /** The same for the steps of commit, crash and recovery, where no operation runs afterwards. */
  lemma AloneReserved(g: Geometry, s: State, a: Action)
    requires Core(g, s) && Reserved(s) && Enabled(g, s, a)
    requires a.Crash? || (s.phase != Idle && !a.Fill? && !a.Evict?)
    ensures Reserved(Do(g, s, a))
  {
    if a.Crash? {
      NoneReserved(Do(g, s, a).procs);
    } else {
      NoneReserved(s.procs);
    }
  }

  lemma OpReserved(g: Geometry, s: State, a: Action)
    requires Core(g, s) && Reserved(s) && Enabled(g, s, a) && (a.BeginOp? || a.EndOp?)
    ensures Reserved(Do(g, s, a))
  {
    CountBounds(s.procs);
    CountUpdate(s.procs, a.p, Do(g, s, a).procs[a.p]);
  }

  lemma HoldReserved(s: State, s': State, p: nat)
    requires Reserved(s) && p < |s.procs| && s.procs[p].InOp?
    requires exists h :: s'.procs == s.procs[p := s.procs[p].(hold := h)]
    requires s' == s.(cache := s'.cache, procs := s'.procs)
    ensures Reserved(s')
  {
    CountUpdate(s.procs, p, s'.procs[p]);
  }

  lemma LogWriteReserved(g: Geometry, s: State, p: nat, b: int)
    requires Core(g, s) && Reserved(s) && Enabled(g, s, LogWrite(p, b))
    ensures Reserved(Do(g, s, LogWrite(p, b)))
  {
    CountUpdate(s.procs, p, Do(g, s, LogWrite(p, b)).procs[p]);
    var logged := s.procs[p].logged;
    assert b in logged ==> logged + {b} == logged && b in s.lh;
  }

  lemma NoneReserved(procs: seq<Proc>)
    requires forall p | 0 <= p < |procs| :: procs[p].Outside?
    ensures Active(procs) == 0 && Unused(procs) == 0
  {
    CountBounds(procs);
    ActiveZero(procs);
  }

  /** The bookkeeping of the history across a step. */
  lemma StepGrouped(g: Geometry, s: State, a: Action)
    requires Inv(g, s) && Enabled(g, s, a)
    ensures Grouped(Do(g, s, a))
  {
    match a
    case LogWrite(p, b) => LogWriteGrouped(g, s, p, b);
    case EndOp(p) => OpGrouped(g, s, a);
    case BeginOp(p) => OpGrouped(g, s, a);
    case Fill(b) =>
    case Evict(b) =>
    case Lock(p, b) => HoldGrouped(s, Do(g, s, a), p);
    case Modify(p, b, data) => HoldGrouped(s, Do(g, s, a), p);
    case Release(p, b) => HoldGrouped(s, Do(g, s, a), p);
    case Crash => CrashGrouped(g, s);
    case WriteHead => HeadGrouped(g, s);
    case _ => AloneGrouped(g, s, a);
  }

  lemma OpGrouped(g: Geometry, s: State, a: Action)
    requires Inv(g, s) && Enabled(g, s, a) && (a.BeginOp? || a.EndOp?)
    ensures Grouped(Do(g, s, a))
  {
    CountBounds(s.procs);
    if s.durable < |s.history| { assert s.history[s.durable].block in s.lh; }
  }

  lemma HoldGrouped(s: State, s': State, p: nat)
    requires Grouped(s) && p < |s.procs| && s.procs[p].InOp?
    requires exists h :: s'.procs == s.procs[p := s.procs[p].(hold := h)]
    requires s' == s.(cache := s'.cache, procs := s'.procs)
    ensures Grouped(s')
  {}

  lemma AloneGrouped(g: Geometry, s: State, a: Action)
    requires Inv(g, s) && Enabled(g, s, a)
    requires s.phase != Idle && !a.Crash? && !a.Fill? && !a.Evict? && !a.WriteHead?
    ensures Grouped(Do(g, s, a))
  {
    NobodyHolds(g, s);
    HistoryKept(s, Do(g, s, a));
  }

  lemma HistoryKept(s: State, s': State)
    requires Grouped(s) && (forall p | 0 <= p < |s.procs| :: s.procs[p].Outside?) && s'.procs == s.procs
    requires s'.history == s.history && s'.durable == s.durable && s'.epoch == s.epoch && s'.nextOp == s.nextOp
    requires s'.base == s.base && s'.current == s.current && s'.committed == s.committed
    requires s.durable == |s.history| || (s'.phase.Logging? && s'.lh == s.lh)
    ensures Grouped(s')
  {}

  lemma HeadGrouped(g: Geometry, s: State)
    requires Inv(g, s) && Enabled(g, s, WriteHead)
    ensures Grouped(Do(g, s, WriteHead))
  {
    assert s.history[..|s.history|] == s.history;
  }

  lemma CrashGrouped(g: Geometry, s: State)
    requires Inv(g, s)
    ensures Grouped(Do(g, s, Crash))
  {
    assert s.history[..s.durable][..s.durable] == s.history[..s.durable];
  }

  lemma LogWriteGrouped(g: Geometry, s: State, p: nat, b: int)
    requires Inv(g, s) && Enabled(g, s, LogWrite(p, b))
    ensures Grouped(Do(g, s, LogWrite(p, b)))
  {
    var s' := Do(g, s, LogWrite(p, b));
    CountBounds(s.procs);
    assert s'.history[..|s.history|] == s.history;
    assert s'.history[..s.durable] == s.history[..s.durable];
  }

  lemma StepInv(g: Geometry, s: State, a: Action)
    requires Inv(g, s) && Enabled(g, s, a)
    ensures Inv(g, Do(g, s, a))
  {
    StepCore(g, s, a);
    StepReserved(g, s, a);
    StepGrouped(g, s, a);
  }

  lemma InitInv(g: Geometry, s: State)
    requires g.Valid() && Init(g, s)
    ensures Inv(g, s)
  {
    InitCore(g, s);
    CountBounds(s.procs);
    ActiveZero(s.procs);
    assert s.history[..0] == [];
  }

  // ---------------------------------------------------------------- what every run satisfies

  lemma {:induction false} RunInv(g: Geometry, run: seq<State>, acts: seq<Action>, i: nat)
    requires Run(g, run, acts) && i < |run|
    ensures Inv(g, run[i])
  {
    if i == 0 {
      InitInv(g, run[0]);
    } else {
      RunInv(g, run, acts, i - 1);
      StepInv(g, run[i - 1], acts[i - 1]);
    }
  }

  /** Crash atomicity.  Cut the power at any point of any run: recovery then produces exactly
      the effect of a prefix of the logged writes, and that prefix splits no operation:
      an operation that is still running has left no trace, and any other is there as a whole
      or not at all. */
  lemma CrashAtomicity(g: Geometry, run: seq<State>, acts: seq<Action>, i: nat)
    requires Run(g, run, acts) && i < |run|
    ensures var s := run[i];
            && Recoverable(g, s.disk) && |s.base| == g.total && s.durable <= |s.history|
            && (forall b | g.Home(b) :: Recovered(g, s.disk)[b] == Replay(s.base, s.history[..s.durable])[b])
            && (forall j, k | 0 <= j < s.durable <= k < |s.history| :: s.history[j].op != s.history[k].op)
            && (forall p, j | 0 <= p < |s.procs| && s.procs[p].InOp? && 0 <= j < s.durable ::
                  s.history[j].op != s.procs[p].op)
  {
    RunInv(g, run, acts, i);
    RecoveredIsLogical(g, run[i].disk);
  }

  /** What is committed stays committed, crashes included. */
  lemma StepKeepsCommitted(g: Geometry, s: State, a: Action)
    requires Inv(g, s) && Enabled(g, s, a)
    ensures Extends(s, Do(g, s, a))
  {}

  /** What the history of x commits is still committed in y. */
  ghost predicate Extends(x: State, y: State) {
    && x.durable <= y.durable && x.durable <= |x.history| && y.durable <= |y.history| && y.base == x.base
    && y.history[..x.durable] == x.history[..x.durable]
  }

  lemma RunStepExtends(g: Geometry, run: seq<State>, acts: seq<Action>, i: nat)
    requires Run(g, run, acts) && i < |acts|
    ensures Extends(run[i], run[i + 1])
  {
    RunInv(g, run, acts, i);
    StepKeepsCommitted(g, run[i], acts[i]);
  }

  lemma {:induction false} CommittedStays(g: Geometry, run: seq<State>, acts: seq<Action>, i: nat, j: nat)
    requires Run(g, run, acts) && i <= j < |run|
    ensures Extends(run[i], run[j])
    decreases j
  {
    if i == j {
      RunInv(g, run, acts, i);
    } else {
      CommittedStays(g, run, acts, i, j - 1);
      RunStepExtends(g, run, acts, j - 1);
      PrefixChain(run[i].history, run[j - 1].history, run[j].history, run[i].durable, run[j - 1].durable);
    }
  }

  lemma PrefixChain<T>(x: seq<T>, y: seq<T>, z: seq<T>, n: nat, m: nat)
    requires n <= |x| && n <= m <= |y| && m <= |z| && y[..n] == x[..n] && z[..m] == y[..m]
    ensures z[..n] == x[..n]
  {
    assert z[..n] == z[..m][..n];
    assert y[..n] == y[..m][..n];
  }

  /** When no operation is running and none is committing, everything logged is on disk for good:
      the last end_op does not return before its group is durable. */
  lemma QuiescentIsDurable(g: Geometry, run: seq<State>, acts: seq<Action>, i: nat)
    requires Run(g, run, acts) && i < |run|
    requires run[i].phase.Idle? && run[i].outstanding == 0
    ensures run[i].durable == |run[i].history|
    ensures forall b | g.Home(b) :: |run[i].disk| == |run[i].base| == g.total &&
              run[i].disk[b] == Replay(run[i].base, run[i].history)[b]
  {
    RunInv(g, run, acts, i);
    assert run[i].history[..|run[i].history|] == run[i].history;
    assert forall b | g.Home(b) :: Logical(g, run[i].disk, b) == run[i].disk[b];
  }

  /** Every reader of a block that nobody is changing sees all writes logged so far; right after
      a reboot those are the committed ones. */
  lemma ReadersSeeLoggedWrites(g: Geometry, run: seq<State>, acts: seq<Action>, i: nat, b: int)
    requires Run(g, run, acts) && i < |run|
    requires Booted(run[i]) && g.Home(b) && !Dirty(run[i].procs, b)
    ensures |run[i].disk| == |run[i].base| == g.total
    ensures Bread(run[i].disk, run[i].cache, b) == Replay(run[i].base, run[i].history)[b]
  {
    RunInv(g, run, acts, i);
  }

  /** The space reservation works: an operation within its MAXOPBLOCKS finds room for a block
      it has not logged yet, whatever the others do, and end_op never finds a commit running.
      log_write() panics exactly when the list fills the log area, or, for an operation that has used
      up its share, the reserved size; then even for a block that would be absorbed. */
  lemma ReservationSuffices(g: Geometry, run: seq<State>, acts: seq<Action>, i: nat, p: nat)
    requires Run(g, run, acts) && i < |run| && p < |run[i].procs| && run[i].procs[p].InOp?
    ensures !EndOpPanics(run[i])
    ensures |run[i].lh| <= LOGSIZE
    ensures |run[i].procs[p].logged| < MAXOPBLOCKS && g.size > LOGSIZE ==> !LogWritePanics(g, run[i])
    ensures |run[i].procs[p].logged| < MAXOPBLOCKS ==> (LogWritePanics(g, run[i]) <==> |run[i].lh| == g.size - 1)
    ensures LogWritePanics(g, run[i]) <==> |run[i].lh| == Min(LOGSIZE, g.size - 1)
    ensures forall b | b in run[i].procs[p].logged :: Absorb(run[i].lh, b) == run[i].lh
  {
    RunInv(g, run, acts, i);
    CountBounds(run[i].procs);
    ActiveZero(run[i].procs);
  }

  /** Commit works on a fixed list of blocks: between end_op's decision to commit and the erasing
      of the header, no step changes the list, the contents it stands for, or starts an operation. */
  lemma CommitIsAlone(g: Geometry, s: State, a: Action)
    requires Inv(g, s) && Enabled(g, s, a)
    requires s.phase.Logging? || s.phase.Installing?
    ensures var s' := Do(g, s, a);
            a.EraseHead? || a.Crash? || (s'.lh == s.lh && s'.history == s.history && s'.procs == s.procs)
  {
    NobodyHolds(g, s);
  }

  // ---------------------------------------------------------------- the writes of one commit

  /** A commit of the state's list, whose blocks hold data in the cache, that began on disk d0, has made i
      of its 2n+2 writes: the disk is what log.c leaves behind after them. */
  ghost predicate Committing(g: Geometry, s: State, d0: Disk, blocks: seq<int>, data: seq<Block>, i: nat) {
    && g.Valid() && |d0| == g.total && g.Loggable(blocks) && |data| == |blocks| && i <= 2 * |blocks| + 2
    && s.disk == (if i == 0 then d0 else CommitImage(g, d0, blocks, data, i - 1))
    && (if i <= |blocks| then s.phase == Logging(i) && CacheHas(s.cache, blocks, data)
        else if i <= 2 * |blocks| + 1 then s.phase == Installing(i - |blocks| - 1)
        else s.phase == Unlocking)
    && s.lh == if i <= 2 * |blocks| + 1 then blocks else []
  }

  ghost predicate CacheHas(cache: map<int, Block>, blocks: seq<int>, data: seq<Block>)
    requires |data| == |blocks|
  {
    forall j {:trigger data[j]} {:trigger blocks[j]} | 0 <= j < |blocks| ::
      blocks[j] in cache && cache[blocks[j]] == data[j]
  }

  /** The writes of commit in log.c. */
  predicate Commits(a: Action) { a.LogBlock? || a.WriteHead? || a.InstallBlock? || a.EraseHead? }

  /** A commit begins with what the cache holds, */
  lemma CommitBegins(g: Geometry, s: State) returns (data: seq<Block>)
    requires Inv(g, s) && s.phase == Logging(0)
    ensures Committing(g, s, s.disk, s.lh, data, 0)
  {
    forall j | 0 <= j < |s.lh| ensures s.lh[j] in s.cache {
      assert Pinned(s.lh, s.phase, s.lh[j]);
    }
    data := seq(|s.lh|, j requires 0 <= j < |s.lh| => s.cache[s.lh[j]]);
  }

  /** and up to its end, or a crash, each of its steps is the next write of log.c's commit, while the steps of
      others write nothing. */
  lemma CommitStep(g: Geometry, s: State, a: Action, d0: Disk, blocks: seq<int>, data: seq<Block>, i: nat)
    requires Inv(g, s) && Enabled(g, s, a) && !a.Crash? && Committing(g, s, d0, blocks, data, i)
    requires i <= 2 * |blocks| + 1
    ensures Committing(g, Do(g, s, a), d0, blocks, data, if Commits(a) then i + 1 else i)
  {
    match a
    case LogBlock => CommitLogs(g, s, d0, blocks, data, i);
    case WriteHead => CommitHeads(g, s, d0, blocks, data, i);
    case InstallBlock => InstallIsPut(g, s); CommitInstalls(g, s, Do(g, s, a), d0, blocks, data, i);
    case EraseHead => CommitErases(g, s, d0, blocks, data, i);
    case _ => CommitWaits(g, s, a, d0, blocks, data, i);
  }

  lemma CommitLogs(g: Geometry, s: State, d0: Disk, blocks: seq<int>, data: seq<Block>, i: nat)
    requires Inv(g, s) && Enabled(g, s, LogBlock) && Committing(g, s, d0, blocks, data, i)
    ensures Committing(g, Do(g, s, LogBlock), d0, blocks, data, i + 1)
  {
    CommitImageStep(g, d0, blocks, data, i);
    assert forall j | 0 <= j < |blocks| :: g.Home(blocks[j]);
  }

  lemma CommitHeads(g: Geometry, s: State, d0: Disk, blocks: seq<int>, data: seq<Block>, i: nat)
    requires Inv(g, s) && Enabled(g, s, WriteHead) && Committing(g, s, d0, blocks, data, i)
    ensures Committing(g, Do(g, s, WriteHead), d0, blocks, data, i + 1)
  {
    NobodyHolds(g, s);
    LogAreaClean(g, s, g.start);
    CommitImageStep(g, d0, blocks, data, i);
  }

  lemma CommitInstalls(g: Geometry, s: State, s': State, d0: Disk, blocks: seq<int>, data: seq<Block>, i: nat)
    requires Committing(g, s, d0, blocks, data, i) && s.phase.Installing? && s.phase.tail < |s.lh|
    requires var t := s.phase.tail;
             g.Home(s.lh[t]) && s' == Put(s, s.lh[t], Copy(g, s.disk, t)).(phase := Installing(t + 1))
    ensures Committing(g, s', d0, blocks, data, i + 1)
  {
    CommitImageStep(g, d0, blocks, data, i);
  }

  lemma CommitErases(g: Geometry, s: State, d0: Disk, blocks: seq<int>, data: seq<Block>, i: nat)
    requires Inv(g, s) && Enabled(g, s, EraseHead) && Committing(g, s, d0, blocks, data, i)
    ensures Committing(g, Do(g, s, EraseHead), d0, blocks, data, i + 1)
  {
    NobodyHolds(g, s);
    LogAreaClean(g, s, g.start);
    CommitImageStep(g, d0, blocks, data, i);
  }

  lemma CommitWaits(g: Geometry, s: State, a: Action, d0: Disk, blocks: seq<int>, data: seq<Block>, i: nat)
    requires Inv(g, s) && Enabled(g, s, a) && !a.Crash? && !Commits(a) && Committing(g, s, d0, blocks, data, i)
    requires i <= 2 * |blocks| + 1
    ensures Committing(g, Do(g, s, a), d0, blocks, data, i)
  {
    NobodyHolds(g, s);
    assert i <= |blocks| ==> forall j | 0 <= j < |blocks| :: Pinned(s.lh, s.phase, blocks[j]);
  }
}
