/** What bounds a transaction besides the share of each operation: the size of the log area, and the number
    of buffers. */
module LogLimits {
  import opened Basics
  import opened LogDisk
  import opened LogProtocol
  import BufferCache

  ghost predicate Reaches(g: Geometry, s: State) {
    exists run, acts {:trigger Run(g, run, acts)} :: Run(g, run, acts) && run[|run| - 1] == s
  }

  lemma ReachedInv(g: Geometry, s: State)
    requires Reaches(g, s)
    ensures Inv(g, s)
  {
    var run, acts :| Run(g, run, acts) && run[|run| - 1] == s;
    RunInv(g, run, acts, |run| - 1);
  }

  lemma ReachedShape(g: Geometry, s: State)
    requires Reaches(g, s)
    ensures g.Valid() && |s.disk| == g.total
  {
    ReachedInv(g, s);
  }

  lemma ReachedNext(g: Geometry, s: State, a: Action)
    requires Reaches(g, s) && g.Valid() && |s.disk| == g.total && Enabled(g, s, a)
    ensures Reaches(g, Do(g, s, a)) && |Do(g, s, a).disk| == g.total
  {
    var run, acts :| Run(g, run, acts) && run[|run| - 1] == s;
    RunMore(g, run, acts, a, Do(g, s, a));
    assert (run + [Do(g, s, a)])[|run|] == Do(g, s, a);
    ReachedShape(g, Do(g, s, a));
  }

  lemma RunMore(g: Geometry, run: seq<State>, acts: seq<Action>, a: Action, s: State)
    requires Run(g, run, acts) && Step(g, run[|run| - 1], a, s)
    ensures Run(g, run + [s], acts + [a])
  {
    var run', acts' := run + [s], acts + [a];
    forall i {:trigger acts'[i]} | 0 <= i < |acts'| ensures Step(g, run'[i], acts'[i], run'[i + 1]) {
      assert i < |acts| ==> Step(g, run[i], acts[i], run[i + 1]);
    }
  }

  // ---------------------------------------------------------------- three operations that log what they can

  /** The i-th block outside the log. */
  function BlockNo(g: Geometry, i: nat): int { if i < g.start then i else i + g.size }

  /** How many of n blocks the k-th operation has logged. */
  function Share(k: nat, n: nat): int { Max(0, Min(MAXOPBLOCKS, n - MAXOPBLOCKS * k)) }

  /** Three operations have logged the first n blocks between them. */
  ghost predicate Stage(g: Geometry, s: State, n: nat) {
    && Reaches(g, s) && s.phase == Idle && !s.committing && s.outstanding == |s.procs| == 3
    && s.lh == seq(n, i requires 0 <= i < n => BlockNo(g, i))
    && forall k {:trigger s.procs[k]} | 0 <= k < 3 ::
         s.procs[k].InOp? && s.procs[k].hold == map[] && |s.procs[k].logged| == Share(k, n)
  }

  lemma Booted(g: Geometry) returns (s: State)
    requires g.Valid()
    ensures Reaches(g, s) && s.phase == Idle && !s.committing && s.outstanding == 0 && s.lh == []
    ensures s.procs == [Outside, Outside, Outside]
  {
    var d := seq(g.total, _ => seq(WORDS, _ => 0));
    assert Recoverable(g, d);
    var base := Recovered(g, d);
    s := State(d, map[], [], 0, false, Booting, [Outside, Outside, Outside], 0, 0, base, [], 0, base, base);
    assert Run(g, [s], []);
    ReachedNext(g, s, ReadHead);
    s := Do(g, s, ReadHead);
    ReachedNext(g, s, RecoverErase);
    s := Do(g, s, RecoverErase);
  }

  /** The first p of three operations run, and have done nothing. */
  ghost predicate Opened(g: Geometry, s: State, p: nat) {
    && Reaches(g, s) && s.phase == Idle && !s.committing && s.outstanding == p <= |s.procs| == 3 && s.lh == []
    && forall k {:trigger s.procs[k]} | 0 <= k < 3 ::
         if k < p then s.procs[k].InOp? && s.procs[k].hold == map[] && s.procs[k].logged == {} else s.procs[k].Outside?
  }

  lemma Begun(g: Geometry, s: State, p: nat) returns (s': State)
    requires Opened(g, s, p) && p < 3
    ensures Opened(g, s', p + 1)
  {
    ReachedShape(g, s);
    ReachedNext(g, s, BeginOp(p));
    s' := Do(g, s, BeginOp(p));
  }

  lemma {:induction false} Started(g: Geometry, p: nat) returns (s: State)
    requires g.Valid() && p <= 3
    ensures Opened(g, s, p)
  {
    if p == 0 {
      s := Booted(g);
    } else {
      s := Started(g, p - 1);
      s := Begun(g, s, p - 1);
    }
  }

  /** One block more: its buffer is locked, */
  lemma LockOne(g: Geometry, s: State, n: nat, p: nat, b: int) returns (s': State)
    requires Stage(g, s, n) && p < 3 && g.Valid() && g.Home(b)
    ensures Reaches(g, s') && s'.procs == s.procs[p := Hold(s.procs[p], b, false)]
    ensures s' == s.(cache := s'.cache, procs := s'.procs)
  {
    ReachedShape(g, s);
    assert s.procs[0].hold == map[] && s.procs[1].hold == map[] && s.procs[2].hold == map[];
    assert !Locked(s.procs, b);
    ReachedNext(g, s, Lock(p, b));
    s' := Do(g, s, Lock(p, b));
  }

  lemma NotLogged(g: Geometry, s: State, p: nat, b: int)
    requires Reaches(g, s) && p < |s.procs| && s.procs[p].InOp? && b !in s.lh
    ensures b !in s.procs[p].logged && |s.procs[p].logged + {b}| == |s.procs[p].logged| + 1
  {
    ReachedInv(g, s);
  }

  /** logged, */
  lemma LogIt(g: Geometry, s: State, p: nat, b: int) returns (s': State)
    requires Reaches(g, s) && g.Valid() && g.Home(b) && Holds(s.procs, p, b) && b !in s.lh && !LogWritePanics(g, s)
    requires |s.procs[p].logged| < MAXOPBLOCKS
    ensures Reaches(g, s') && s'.lh == s.lh + [b] && s'.phase == s.phase && s'.committing == s.committing
    ensures s'.outstanding == s.outstanding && |s'.procs| == |s.procs| && s'.procs[p].InOp?
    ensures s'.procs == s.procs[p := s'.procs[p]] && |s'.procs[p].logged| == |s.procs[p].logged| + 1
    ensures s'.procs[p].hold == s.procs[p].hold[b := false]
  {
    ReachedShape(g, s);
    NotLogged(g, s, p, b);
    ReachedNext(g, s, LogWrite(p, b));
    s' := Do(g, s, LogWrite(p, b));
  }

  /** and released. */
  lemma ReleaseIt(g: Geometry, s: State, p: nat, b: int) returns (s': State)
    requires Reaches(g, s) && p < |s.procs| && s.procs[p].InOp? && s.procs[p].hold == map[b := false]
    ensures Reaches(g, s') && s' == s.(procs := s.procs[p := s.procs[p].(hold := map[])])
  {
    ReachedShape(g, s);
    ReachedNext(g, s, Release(p, b));
    s' := Do(g, s, Release(p, b));
    assert s'.procs[p].hold == map[];
  }

  lemma NewBlock(g: Geometry, s: State, n: nat)
    requires Stage(g, s, n) && g.Valid() && n < g.total - g.size
    ensures g.Home(BlockNo(g, n)) && BlockNo(g, n) !in s.lh
  {}

  lemma LogOne(g: Geometry, s: State, n: nat) returns (s': State)
    requires Stage(g, s, n) && g.Valid() && n < LOGSIZE && n < g.size - 1 && n < g.total - g.size
    ensures Stage(g, s', n + 1)
  {
    var p, b := n / MAXOPBLOCKS, BlockNo(g, n);
    NewBlock(g, s, n);
    assert s.procs[p].hold == map[];
    var s1 := LockOne(g, s, n, p, b);
    var s2 := LogIt(g, s1, p, b);
    assert s2.procs[p].hold == map[b := false];
    s' := ReleaseIt(g, s2, p, b);
    StageNext(g, s, s', n);
  }

  lemma StageNext(g: Geometry, s: State, s': State, n: nat)
    requires Stage(g, s, n) && Reaches(g, s') && n < LOGSIZE && s'.lh == s.lh + [BlockNo(g, n)]
    requires s'.phase == s.phase && s'.committing == s.committing && s'.outstanding == s.outstanding
    requires var p := n / MAXOPBLOCKS;
             && |s'.procs| == |s.procs| == 3 && s'.procs == s.procs[p := s'.procs[p]]
             && s'.procs[p].InOp? && s'.procs[p].hold == map[]
             && s.procs[p].InOp? && |s'.procs[p].logged| == |s.procs[p].logged| + 1
    ensures Stage(g, s', n + 1)
  {
    forall k {:trigger s'.procs[k]} | 0 <= k < 3
      ensures s'.procs[k].InOp? && s'.procs[k].hold == map[] && |s'.procs[k].logged| == Share(k, n + 1)
    {
      assert s.procs[k].InOp? && |s.procs[k].logged| == Share(k, n);
    }
  }

  lemma {:induction false} Filled(g: Geometry, n: nat) returns (s: State)
    requires g.Valid() && n <= LOGSIZE && n <= g.size - 1 && n <= g.total - g.size
    ensures Stage(g, s, n)
  {
    if n == 0 {
      s := Started(g, 3);
    } else {
      s := Filled(g, n - 1);
      s := LogOne(g, s, n - 1);
    }
  }

  // ---------------------------------------------------------------- the log area

  /** An operation that has logged less than its share holds a buffer, and log_write() would panic on it. */
  ghost predicate CutShort(g: Geometry, s: State) {
    LogWritePanics(g, s) && exists p: nat, b {:trigger Holds(s.procs, p, b)} ::
      Holds(s.procs, p, b) && |s.procs[p].logged| < MAXOPBLOCKS
  }

  /** The share of an operation is not safe exactly if the log area has no more than LOGSIZE blocks. */
  lemma ShareIsSafe(g: Geometry)
    requires g.Valid() && g.size <= g.total - g.size
    ensures (exists s {:trigger CutShort(g, s)} :: Reaches(g, s) && CutShort(g, s)) <==> g.size <= LOGSIZE
  {
    forall s {:trigger CutShort(g, s)} | Reaches(g, s) && CutShort(g, s) ensures g.size <= LOGSIZE {
      var run, acts :| Run(g, run, acts) && run[|run| - 1] == s;
      var p: nat, b :| Holds(s.procs, p, b) && |s.procs[p].logged| < MAXOPBLOCKS;
      ReservationSuffices(g, run, acts, |run| - 1, p);
    }
    if g.size <= LOGSIZE {
      var s := Filled(g, g.size - 1);
      var b := BlockNo(g, 0);
      assert |s.procs[2].logged| == Share(2, g.size - 1);
      s := LockOne(g, s, g.size - 1, 2, b);
      assert Holds(s.procs, 2, b);
      assert CutShort(g, s);
    }
  }

  // ---------------------------------------------------------------- the buffers

  /** The blocks of a list, on the log's device. */
  ghost function OnDev(dev: int, list: seq<int>): set<(int, int)> { set b | b in list :: (dev, b) }

  lemma {:induction false} OnDevSize(dev: int, list: seq<int>)
    requires forall i, j | 0 <= i < j < |list| :: list[i] != list[j]
    ensures |OnDev(dev, list)| == |list|
  {
    if list != [] {
      var rest := list[..|list| - 1];
      OnDevSize(dev, rest);
      assert OnDev(dev, list) == OnDev(dev, rest) + {(dev, list[|list| - 1])};
    }
  }

  lemma ListShape(g: Geometry, s: State)
    requires Reaches(g, s) && s.phase == Logging(0)
    ensures |s.lh| <= Min(LOGSIZE, g.size - 1) && g.start + 1 !in s.lh
    ensures forall i, j | 0 <= i < j < |s.lh| :: s.lh[i] != s.lh[j]
  {
    ReachedInv(g, s);
  }

  /** With the blocks of the list and others in use, bread() of one more finds no buffer just if these are as
      many as there are. */
  lemma OneMoreBuffer(buf: seq<BufferCache.Buf>, list: seq<int>, dev: int, others: set<(int, int)>, b: int)
    requires BufferCache.Unique(buf) && forall i, j | 0 <= i < j < |list| :: list[i] != list[j]
    requires BufferCache.InUse(buf, |buf|) == OnDev(dev, list) + others && OnDev(dev, list) !! others
    requires b !in list && (dev, b) !in others
    ensures |list| + |others| <= |buf|
    ensures |list| + |others| == |buf| <==>
      forall c | 0 <= c < |buf| :: !BufferCache.For(buf[c], dev, b) && buf[c].refcnt > 0
  {
    OnDevSize(dev, list);
    BufferCache.RoomExactly(buf, |buf|);
    BufferCache.InUseIs(buf, |buf|, dev, b);
    assert (dev, b) !in OnDev(dev, list);
  }

  /** The first thing that a commit does is to read a block of the log area, while the buffers of all blocks
      of its list are pinned, and others may be in use by readers.  bread() panics for want of a buffer
      exactly if these are all. */
  method CommitReads(g: Geometry, ghost s: State, c: BufferCache.Cache, dev: int, ghost others: set<(int, int)>)
    returns (b: int)
    requires Reaches(g, s) && s.phase == Logging(0) && c.Valid()
    requires BufferCache.InUse(c.buf, |c.buf|) == OnDev(dev, s.lh) + others && OnDev(dev, s.lh) !! others
    requires (dev, g.start + 1) !in others
    modifies c`buf
    ensures c.Valid() && |s.lh| + |others| <= BufferCache.NBUF && |s.lh| <= Min(LOGSIZE, g.size - 1)
    ensures b == -1 <==> |s.lh| + |others| == BufferCache.NBUF
  {
    ListShape(g, s);
    c.Open();
    OneMoreBuffer(c.buf, s.lh, dev, others, g.start + 1);
    b := c.Bread(dev, g.start + 1);
  }

  /** A transaction that leaves no buffer is possible, without any reader, exactly if the log area has more than
      LOGSIZE blocks. */
  lemma CommitFits(g: Geometry)
    requires g.Valid() && g.size <= g.total - g.size
    ensures (exists s {:trigger CutOff(g, s)} :: Reaches(g, s) && CutOff(g, s)) <==> g.size > LOGSIZE
  {
    forall s {:trigger CutOff(g, s)} | Reaches(g, s) && CutOff(g, s) ensures g.size > LOGSIZE {
      ReachedInv(g, s);
    }
    if g.size > LOGSIZE {
      var s := Filled(g, LOGSIZE);
      s := Ended(g, s);
      assert CutOff(g, s);
    }
  }

  /** A commit of as many blocks as there are buffers begins. */
  ghost predicate CutOff(g: Geometry, s: State) { s.phase == Logging(0) && |s.lh| == BufferCache.NBUF }

  /** The three operations end. */
  lemma Ended(g: Geometry, s: State) returns (s': State)
    requires Stage(g, s, LOGSIZE)
    ensures Reaches(g, s') && s'.phase == Logging(0) && s'.lh == s.lh
  {
    s' := EndedOne(g, s, 0);
    s' := EndedOne(g, s', 1);
    s' := EndedOne(g, s', 2);
  }

  lemma EndedOne(g: Geometry, s: State, p: nat) returns (s': State)
    requires Reaches(g, s) && s.phase == Idle && !s.committing && p < |s.procs| == 3 && s.outstanding == 3 - p
    requires s.lh != []
    requires forall k {:trigger s.procs[k]} | p <= k < 3 :: s.procs[k].InOp? && s.procs[k].hold == map[]
    ensures Reaches(g, s') && |s'.procs| == 3 && s'.outstanding == 2 - p && s'.lh == s.lh
    ensures forall k {:trigger s'.procs[k]} | p < k < 3 :: s'.procs[k].InOp? && s'.procs[k].hold == map[]
    ensures if p == 2 then s'.phase == Logging(0) else s'.phase == Idle && !s'.committing
  {
    ReachedShape(g, s);
    ReachedNext(g, s, EndOp(p));
    s' := Do(g, s, EndOp(p));
  }
}
