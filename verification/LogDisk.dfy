/** The disk as the redo log sees it: an array of blocks, each of which the log code reads
    through an int pointer, a header block at log.start, and a copy area behind it.

    Recovery is described here as a function on disk images.  The main facts are that it
    may be cut short after any write and started over without changing its outcome. */
module LogDisk {
  import opened Basics

  const WORDS: nat := 256          // BSIZE / sizeof(int)
  const LOGSIZE: nat := MAXOPBLOCKS * 3

  type Block = b: seq<int> | |b| == WORDS witness seq(WORDS, _ => 0)
  type Disk = seq<Block>

  /** Where the log lives: `start` is log.start, `size` is log.size. */
  datatype Geometry = Geometry(start: nat, size: nat, total: nat) {
    ghost predicate Valid() { 1 <= size && start + size <= total }

    /** A block outside the log. */
    predicate Home(b: int) { 0 <= b < total && !(start <= b < start + size) }

    /** A list of block numbers that a header may hold. */
    ghost predicate Loggable(blocks: seq<int>) {
      && |blocks| <= LOGSIZE && |blocks| < size
      && (forall i | 0 <= i < |blocks| :: Home(blocks[i]))
      && (forall i, j | 0 <= i < j < |blocks| :: blocks[i] != blocks[j])
    }
  }

  /** write_head: the count and the block numbers go to the first words of the old header. */
  function PutHeader(prev: Block, blocks: seq<int>): (b: Block)
    requires |blocks| <= LOGSIZE
    ensures GetHeader(b) == blocks
  {
    var b := [|blocks|] + blocks + prev[1 + |blocks|..];
    assert b[1..1 + |blocks|] == blocks;
    b
  }

  /** read_head; a count that cannot be a header's is read as an empty log. */
  function GetHeader(b: Block): (blocks: seq<int>) {
    if 0 <= b[0] <= LOGSIZE then b[1..1 + b[0]] else []
  }

  /** A disk whose header could have been written by write_head. */
  ghost predicate Recoverable(g: Geometry, d: Disk) {
    g.Valid() && |d| == g.total && 0 <= d[g.start][0] <= LOGSIZE && g.Loggable(GetHeader(d[g.start]))
  }

  /** The i-th block of the log's copy area. */
  function Copy(g: Geometry, d: Disk, i: nat): Block
    requires g.Valid() && |d| == g.total && i + 1 < g.size
  {
    d[g.start + 1 + i]
  }

  function Header(g: Geometry, d: Disk): seq<int>
    requires g.Valid() && |d| == g.total
  {
    GetHeader(d[g.start])
  }

  /** The disk after install_trans has copied the first k logged blocks home. */
  function Install(g: Geometry, d: Disk, blocks: seq<int>, k: nat): (d': Disk)
    requires g.Valid() && |d| == g.total && g.Loggable(blocks) && k <= |blocks|
    ensures |d'| == |d|
    decreases k
  {
    if k == 0 then d
    else
      var d1 := Install(g, d, blocks, k - 1);
      d1[blocks[k - 1] := Copy(g, d1, k - 1)]
  }

  /** write_head with an empty list. */
  function ClearHeader(g: Geometry, d: Disk): (d': Disk)
    requires g.Valid() && |d| == g.total
    ensures |d'| == |d|
  {
    d[g.start := PutHeader(d[g.start], [])]
  }

  /** recover_from_log, run to its end. */
  function Recovered(g: Geometry, d: Disk): (d': Disk)
    requires Recoverable(g, d)
    ensures |d'| == |d|
  {
    var blocks := Header(g, d);
    ClearHeader(g, Install(g, d, blocks, |blocks|))
  }

  /** The content of home block b that a reader is entitled to: its logged copy if the header
      names it, otherwise the block itself. */
  ghost function Logical(g: Geometry, d: Disk, b: int): Block
    requires Recoverable(g, d) && g.Home(b)
  {
    var blocks := Header(g, d);
    if b in blocks then Copy(g, d, IndexOf(blocks, b)) else d[b]
  }

  ghost function IndexOf(blocks: seq<int>, b: int): (i: nat)
    requires b in blocks
    ensures i < |blocks| && blocks[i] == b
  {
    var i: nat :| i < |blocks| && blocks[i] == b;
    i
  }

  /** What k installs have done to every block of the disk. */
  lemma {:induction false} InstallAt(g: Geometry, d: Disk, blocks: seq<int>, k: nat)
    requires g.Valid() && |d| == g.total && g.Loggable(blocks) && k <= |blocks|
    ensures forall i | 0 <= i < k :: Install(g, d, blocks, k)[blocks[i]] == Copy(g, d, i)
    ensures forall b | 0 <= b < |d| && b !in blocks[..k] :: Install(g, d, blocks, k)[b] == d[b]
  {
    if k > 0 {
      InstallAt(g, d, blocks, k - 1);
      assert blocks[..k] == blocks[..k - 1] + [blocks[k - 1]];
      assert g.Home(blocks[k - 1]);
      assert forall i | 0 <= i < k :: g.Home(blocks[i]);
      assert forall i | 0 <= i < k - 1 :: blocks[i] != blocks[k - 1];
    }
  }

  /** Recovery leaves every home block at its logical content, and an empty log behind. */
  lemma RecoveredIsLogical(g: Geometry, d: Disk)
    requires Recoverable(g, d)
    ensures Recoverable(g, Recovered(g, d)) && Header(g, Recovered(g, d)) == []
    ensures forall b | g.Home(b) :: Recovered(g, d)[b] == Logical(g, d, b)
  {
    var blocks := Header(g, d);
    InstallAt(g, d, blocks, |blocks|);
    assert blocks[..|blocks|] == blocks;
  }

  /** A crash inside recovery, after k of its block writes, does not change what a later
      recovery produces: the whole disk image comes out the same. */
  lemma {:induction false} RecoveryRestarts(g: Geometry, d: Disk, k: nat)
    requires Recoverable(g, d) && k <= |Header(g, d)|
    ensures var d1 := Install(g, d, Header(g, d), k);
            Recoverable(g, d1) && Header(g, d1) == Header(g, d) && Recovered(g, d1) == Recovered(g, d)
  {
    var blocks := Header(g, d);
    var n := |blocks|;
    var d1 := Install(g, d, blocks, k);
    InstallAt(g, d, blocks, k);
    assert forall i | 0 <= i < n :: g.Home(blocks[i]);
    assert d1[g.start] == d[g.start];
    InstallAt(g, d, blocks, n);
    InstallAt(g, d1, blocks, n);
    assert blocks[..n] == blocks;
    var x, y := Install(g, d, blocks, n), Install(g, d1, blocks, n);
    forall b | 0 <= b < |d| ensures x[b] == y[b] {
      if b in blocks {
        var i := IndexOf(blocks, b);
        assert Copy(g, d1, i) == Copy(g, d, i);
      } else {
        assert b !in blocks[..k];
      }
    }
    assert x == y;
  }

  /** Recovering a recovered disk changes nothing. */
  lemma RecoveryIdempotent(g: Geometry, d: Disk)
    requires Recoverable(g, d)
    ensures Recoverable(g, Recovered(g, d)) && Recovered(g, Recovered(g, d)) == Recovered(g, d)
  {
    RecoveredIsLogical(g, d);
    var r := Recovered(g, d);
    assert r[g.start] == PutHeader(r[g.start], []);
  }

  /** A boot in which recovery crashes: it stops after the given number of writes, the header
      erase being the last one. */
  function Attempt(g: Geometry, d: Disk, writes: nat): (d': Disk)
    requires Recoverable(g, d)
    ensures |d'| == |d|
  {
    var blocks := Header(g, d);
    if writes <= |blocks| then Install(g, d, blocks, writes) else Recovered(g, d)
  }

  /** Any number of crashed boots, followed by one that gets through. */
  ghost function Boots(g: Geometry, d: Disk, crashes: seq<nat>): (d': Disk)
    requires Recoverable(g, d)
    decreases |crashes|
  {
    if crashes == [] then Recovered(g, d)
    else
      var d1 := Attempt(g, d, crashes[0]);
      AttemptRecovers(g, d, crashes[0]);
      Boots(g, d1, crashes[1..])
  }

  lemma AttemptRecovers(g: Geometry, d: Disk, writes: nat)
    requires Recoverable(g, d)
    ensures Recoverable(g, Attempt(g, d, writes))
    ensures Recovered(g, Attempt(g, d, writes)) == Recovered(g, d)
  {
    if writes <= |Header(g, d)| {
      RecoveryRestarts(g, d, writes);
    } else {
      RecoveryIdempotent(g, d);
    }
  }

  /** However often recovery is interrupted, the first run that completes leaves the same disk. */
  lemma {:induction false} RecoverySurvivesCrashes(g: Geometry, d: Disk, crashes: seq<nat>)
    requires Recoverable(g, d)
    ensures Boots(g, d, crashes) == Recovered(g, d)
    decreases |crashes|
  {
    if crashes != [] {
      AttemptRecovers(g, d, crashes[0]);
      RecoverySurvivesCrashes(g, Attempt(g, d, crashes[0]), crashes[1..]);
    }
  }

  // ---------------------------------------------------------------- single writes

  /** A write that touches neither the header, nor a logged copy, nor an unlogged home block
      leaves the logical content alone. */
  lemma LogicalKept(g: Geometry, d: Disk, d': Disk)
    requires Recoverable(g, d) && |d'| == |d| && d'[g.start] == d[g.start]
    requires forall i | 0 <= i < |Header(g, d)| :: Copy(g, d', i) == Copy(g, d, i)
    requires forall b | g.Home(b) && b !in Header(g, d) :: d'[b] == d[b]
    ensures Recoverable(g, d') && Header(g, d') == Header(g, d)
    ensures forall b {:trigger Logical(g, d', b)} | g.Home(b) :: Logical(g, d', b) == Logical(g, d, b)
  {}

  /** Writing a header onto a disk with an empty log switches the logical content, in that one
      write, to the logged copies. */
  lemma HeaderCommits(g: Geometry, d: Disk, h: Block, blocks: seq<int>)
    requires Recoverable(g, d) && Header(g, d) == [] && g.Loggable(blocks)
    ensures var d' := d[g.start := PutHeader(h, blocks)];
            && Recoverable(g, d') && Header(g, d') == blocks
            && (forall b {:trigger Logical(g, d', b)} | g.Home(b) && b !in blocks ::
                  Logical(g, d', b) == Logical(g, d, b))
            && (forall i | 0 <= i < |blocks| :: Logical(g, d', blocks[i]) == Copy(g, d, i))
  {
    var d' := d[g.start := PutHeader(h, blocks)];
    assert Header(g, d') == blocks;
    forall i | 0 <= i < |blocks| ensures Logical(g, d', blocks[i]) == Copy(g, d, i) {
      assert IndexOf(blocks, blocks[i]) == i;
    }
  }

  /** Once every logged block is home, erasing the header changes no logical content. */
  lemma HeaderErased(g: Geometry, d: Disk, h: Block)
    requires Recoverable(g, d)
    requires forall i | 0 <= i < |Header(g, d)| :: d[Header(g, d)[i]] == Copy(g, d, i)
    ensures var d' := d[g.start := PutHeader(h, [])];
            && Recoverable(g, d') && Header(g, d') == []
            && (forall b {:trigger Logical(g, d', b)} | g.Home(b) :: Logical(g, d', b) == Logical(g, d, b))
  {
    var d' := d[g.start := PutHeader(h, [])];
    assert Header(g, d') == [];
  }

  // ---------------------------------------------------------------- the writes of one commit

  /** The disk after write_log has written the first k log blocks, `data` being the cached
      contents of the logged blocks. */
  function CopyLog(g: Geometry, d: Disk, data: seq<Block>, k: nat): (d': Disk)
    requires g.Valid() && |d| == g.total && k <= |data| < g.size
    ensures |d'| == |d|
    decreases k
  {
    if k == 0 then d else CopyLog(g, d, data, k - 1)[g.start + k := data[k - 1]]
  }

  lemma {:induction false} CopyLogAt(g: Geometry, d: Disk, data: seq<Block>, k: nat)
    requires g.Valid() && |d| == g.total && k <= |data| < g.size
    ensures forall b | 0 <= b < |d| && !(g.start < b <= g.start + k) :: CopyLog(g, d, data, k)[b] == d[b]
    ensures forall i | 0 <= i < k :: Copy(g, CopyLog(g, d, data, k), i) == data[i]
    decreases k
  {
    if k > 0 {
      CopyLogAt(g, d, data, k - 1);
      assert forall i | 0 <= i < k - 1 :: Copy(g, CopyLog(g, d, data, k), i) == Copy(g, CopyLog(g, d, data, k - 1), i);
    }
  }

  /** The disk images that write_log adds to the past ones, one per write. */
  ghost function CopyImages(past: seq<Disk>, g: Geometry, d: Disk, data: seq<Block>, k: nat): (images: seq<Disk>)
    requires g.Valid() && |d| == g.total && k <= |data| < g.size
    ensures |images| == |past| + k
    decreases k
  {
    if k == 0 then past else CopyImages(past, g, d, data, k - 1) + [CopyLog(g, d, data, k)]
  }

  /** The disk images that install_trans adds. */
  ghost function InstallImages(past: seq<Disk>, g: Geometry, d: Disk, blocks: seq<int>, k: nat): (images: seq<Disk>)
    requires g.Valid() && |d| == g.total && g.Loggable(blocks) && k <= |blocks|
    ensures |images| == |past| + k
    decreases k
  {
    if k == 0 then past else InstallImages(past, g, d, blocks, k - 1) + [Install(g, d, blocks, k)]
  }

  lemma {:induction false} CopyImagesAt(past: seq<Disk>, g: Geometry, d: Disk, data: seq<Block>, k: nat, i: nat)
    requires g.Valid() && |d| == g.total && k <= |data| < g.size && i < |past| + k
    ensures CopyImages(past, g, d, data, k)[i] ==
            if i < |past| then past[i] else CopyLog(g, d, data, i - |past| + 1)
    decreases k
  {
    if k > 0 && i < |past| + k - 1 {
      CopyImagesAt(past, g, d, data, k - 1, i);
    }
  }

  lemma {:induction false} InstallImagesAt(past: seq<Disk>, g: Geometry, d: Disk, blocks: seq<int>, k: nat, i: nat)
    requires g.Valid() && |d| == g.total && g.Loggable(blocks) && k <= |blocks| && i < |past| + k
    ensures InstallImages(past, g, d, blocks, k)[i] ==
            if i < |past| then past[i] else Install(g, d, blocks, i - |past| + 1)
    decreases k
  {
    if k > 0 && i < |past| + k - 1 {
      InstallImagesAt(past, g, d, blocks, k - 1, i);
    }
  }

  /** The disk right after a commit has written its header. */
  function Headed(g: Geometry, d: Disk, blocks: seq<int>, data: seq<Block>): (d': Disk)
    requires g.Valid() && |d| == g.total && g.Loggable(blocks) && |data| == |blocks|
    ensures |d'| == |d|
  {
    var logged := CopyLog(g, d, data, |data|);
    logged[g.start := PutHeader(logged[g.start], blocks)]
  }

  /** The images that the 2n+2 writes of a commit of n blocks add: n log blocks, the header, n home
      blocks, the erased header. */
  ghost function CommitImages(past: seq<Disk>, g: Geometry, d: Disk, blocks: seq<int>,
                              data: seq<Block>): (images: seq<Disk>)
    requires g.Valid() && |d| == g.total && g.Loggable(blocks) && |data| == |blocks|
    ensures |images| == |past| + 2 * |blocks| + 2
  {
    var n := |blocks|;
    var headed := Headed(g, d, blocks, data);
    InstallImages(CopyImages(past, g, d, data, n) + [headed], g, headed, blocks, n)
    + [ClearHeader(g, Install(g, headed, blocks, n))]
  }

  /** The images that recovery adds. */
  ghost function RecoveryImages(past: seq<Disk>, g: Geometry, d: Disk): (images: seq<Disk>)
    requires Recoverable(g, d)
    ensures |images| == |past| + |Header(g, d)| + 1
  {
    InstallImages(past, g, d, Header(g, d), |Header(g, d)|) + [Recovered(g, d)]
  }

  /** The disk after write i of a commit, counting from 0. */
  function CommitImage(g: Geometry, d: Disk, blocks: seq<int>, data: seq<Block>, i: nat): (d': Disk)
    requires g.Valid() && |d| == g.total && g.Loggable(blocks) && |data| == |blocks| && i <= 2 * |blocks| + 1
    ensures |d'| == |d|
  {
    var n := |blocks|;
    if i < n then CopyLog(g, d, data, i + 1)
    else
      var headed := Headed(g, d, blocks, data);
      if i <= 2 * n then Install(g, headed, blocks, i - n) else ClearHeader(g, Install(g, headed, blocks, n))
  }

  /** What write i of a commit writes where. */
  lemma CommitImageStep(g: Geometry, d: Disk, blocks: seq<int>, data: seq<Block>, i: nat)
    requires g.Valid() && |d| == g.total && g.Loggable(blocks) && |data| == |blocks| && i <= 2 * |blocks| + 1
    ensures var n, before := |blocks|, if i == 0 then d else CommitImage(g, d, blocks, data, i - 1);
            CommitImage(g, d, blocks, data, i) ==
              if i < n then before[g.start + 1 + i := data[i]]
              else if i == n then before[g.start := PutHeader(before[g.start], blocks)]
              else if i <= 2 * n then before[blocks[i - n - 1] := Copy(g, before, i - n - 1)]
              else ClearHeader(g, before)
  {
    assert forall j | 0 <= j < |blocks| :: g.Home(blocks[j]);
  }

  lemma CommitImagesAt(past: seq<Disk>, g: Geometry, d: Disk, blocks: seq<int>, data: seq<Block>, i: nat)
    requires g.Valid() && |d| == g.total && g.Loggable(blocks) && |data| == |blocks| && i <= 2 * |blocks| + 1
    ensures CommitImages(past, g, d, blocks, data)[|past| + i] == CommitImage(g, d, blocks, data, i)
  {
    var n := |blocks|;
    var copies := CopyImages(past, g, d, data, n);
    if i <= 2 * n {
      InstallImagesAt(copies + [Headed(g, d, blocks, data)], g, Headed(g, d, blocks, data), blocks, n, |past| + i);
    }
    if i < n {
      CopyImagesAt(past, g, d, data, n, |past| + i);
    }
  }

  /** Every crash inside recovery leaves a disk that recovers to the same result. */
  lemma RecoveryWindow(past: seq<Disk>, g: Geometry, d: Disk, i: nat)
    requires Recoverable(g, d) && i <= |Header(g, d)|
    ensures var x := RecoveryImages(past, g, d)[|past| + i]; Recoverable(g, x) && Recovered(g, x) == Recovered(g, d)
  {
    RecoveryImagesAt(past, g, d, i);
    AttemptRecovers(g, d, i + 1);
  }

  lemma RecoveryRecovers(past: seq<Disk>, g: Geometry, d: Disk)
    requires Recoverable(g, d)
    ensures var images := RecoveryImages(past, g, d);
            forall i {:trigger images[i]} | |past| <= i < |images| ::
              Recoverable(g, images[i]) && Recovered(g, images[i]) == Recovered(g, d)
  {
    var images := RecoveryImages(past, g, d);
    forall i {:trigger images[i]} | |past| <= i < |images|
      ensures Recoverable(g, images[i]) && Recovered(g, images[i]) == Recovered(g, d)
    {
      RecoveryWindow(past, g, d, i - |past|);
    }
  }

  lemma RecoveryImagesAt(past: seq<Disk>, g: Geometry, d: Disk, i: nat)
    requires Recoverable(g, d) && i <= |Header(g, d)|
    ensures RecoveryImages(past, g, d)[|past| + i] == Attempt(g, d, i + 1)
  {
    var n := |Header(g, d)|;
    if i < n {
      InstallImagesAt(past, g, d, Header(g, d), n, |past| + i);
    }
  }

  /** The home blocks a transaction is meant to produce. */
  ghost function Updated(g: Geometry, d: Disk, blocks: seq<int>, data: seq<Block>, b: int): Block
    requires g.Valid() && |d| == g.total && g.Home(b) && |data| == |blocks|
  {
    if b in blocks then data[IndexOf(blocks, b)] else d[b]
  }

  /** All or nothing: a crash during the first n writes of a commit recovers to the old home
      blocks, from the header write on to the new ones; at the end these are in place. */
  lemma CommitWindow(g: Geometry, d: Disk, blocks: seq<int>, data: seq<Block>, i: nat)
    requires Recoverable(g, d) && Header(g, d) == [] && g.Loggable(blocks) && |data| == |blocks|
    requires i <= 2 * |blocks| + 1
    ensures var x := CommitImage(g, d, blocks, data, i);
            && Recoverable(g, x)
            && (i < |blocks| ==> forall b | g.Home(b) :: Recovered(g, x)[b] == d[b])
            && (i >= |blocks| ==> forall b | g.Home(b) :: Recovered(g, x)[b] == Updated(g, d, blocks, data, b))
            && (i == 2 * |blocks| + 1 ==>
                  Header(g, x) == [] && forall b | g.Home(b) :: x[b] == Updated(g, d, blocks, data, b))
  {
    if i < |blocks| {
      CommitBefore(g, d, blocks, data, i);
    } else {
      CommitAfter(g, d, blocks, data, i);
    }
  }

  lemma CommitBefore(g: Geometry, d: Disk, blocks: seq<int>, data: seq<Block>, i: nat)
    requires Recoverable(g, d) && Header(g, d) == [] && g.Loggable(blocks) && |data| == |blocks| && i < |blocks|
    ensures RecoversTo(g, d, blocks, data, false, CommitImage(g, d, blocks, data, i))
  {
    var x := CommitImage(g, d, blocks, data, i);
    CopyLogAt(g, d, data, i + 1);
    RecoveredIsLogical(g, x);
    assert Header(g, x) == [];
  }

  lemma CommitAfter(g: Geometry, d: Disk, blocks: seq<int>, data: seq<Block>, i: nat)
    requires Recoverable(g, d) && Header(g, d) == [] && g.Loggable(blocks) && |data| == |blocks|
    requires |blocks| <= i <= 2 * |blocks| + 1
    ensures var x := CommitImage(g, d, blocks, data, i);
            && RecoversTo(g, d, blocks, data, true, x)
            && (i == 2 * |blocks| + 1 ==> Header(g, x) == [] && forall b | g.Home(b) :: x[b] == Updated(g, d, blocks,
              data, b))
  {
    var n := |blocks|;
    var x := CommitImage(g, d, blocks, data, i);
    var headed := Headed(g, d, blocks, data);
    HeadedRecovers(g, d, blocks, data);
    if i <= 2 * n {
      RecoveryRestarts(g, headed, i - n);
    } else {
      RecoveryIdempotent(g, headed);
      RecoveredIsLogical(g, headed);
    }
  }

  lemma HeadedRecovers(g: Geometry, d: Disk, blocks: seq<int>, data: seq<Block>)
    requires Recoverable(g, d) && Header(g, d) == [] && g.Loggable(blocks) && |data| == |blocks|
    ensures var headed := Headed(g, d, blocks, data);
            RecoversTo(g, d, blocks, data, true, headed) && Header(g, headed) == blocks
  {
    HeadedView(g, d, blocks, data);
    RecoveredIsLogical(g, Headed(g, d, blocks, data));
  }

  /** Disk x recovers to the home blocks of d, with the transaction done or not done. */
  ghost predicate RecoversTo(g: Geometry, d: Disk, blocks: seq<int>, data: seq<Block>, done: bool, x: Disk)
    requires g.Valid() && |d| == g.total && |data| == |blocks|
  {
    Recoverable(g, x) && forall b | g.Home(b) ::
      Recovered(g, x)[b] == if done then Updated(g, d, blocks, data, b) else d[b]
  }

  /** Each disk that the writes of a commit leave behind, in their order. */
  lemma CommitRecovers(past: seq<Disk>, g: Geometry, d: Disk, blocks: seq<int>, data: seq<Block>)
    requires Recoverable(g, d) && Header(g, d) == [] && g.Loggable(blocks) && |data| == |blocks|
    ensures var images := CommitImages(past, g, d, blocks, data);
            && (forall i {:trigger images[i]} | |past| <= i < |images| ::
                  RecoversTo(g, d, blocks, data, i >= |past| + |blocks|, images[i]))
            && Recoverable(g, images[|images| - 1]) && Header(g, images[|images| - 1]) == []
  {
    var images := CommitImages(past, g, d, blocks, data);
    forall i {:trigger images[i]} | |past| <= i < |images|
      ensures RecoversTo(g, d, blocks, data, i >= |past| + |blocks|, images[i])
    {
      CommitImagesAt(past, g, d, blocks, data, i - |past|);
      CommitWindow(g, d, blocks, data, i - |past|);
    }
    CommitImagesAt(past, g, d, blocks, data, 2 * |blocks| + 1);
    CommitWindow(g, d, blocks, data, 2 * |blocks| + 1);
  }

  lemma HeadedView(g: Geometry, d: Disk, blocks: seq<int>, data: seq<Block>)
    requires Recoverable(g, d) && Header(g, d) == [] && g.Loggable(blocks) && |data| == |blocks|
    ensures var headed := Headed(g, d, blocks, data);
            && Recoverable(g, headed) && Header(g, headed) == blocks
            && forall b | g.Home(b) :: Logical(g, headed, b) == Updated(g, d, blocks, data, b)
  {
    var logged := CopyLog(g, d, data, |blocks|);
    CopyLogAt(g, d, data, |blocks|);
    var headed := Headed(g, d, blocks, data);
    assert Header(g, headed) == blocks;
    forall b | g.Home(b) ensures Logical(g, headed, b) == Updated(g, d, blocks, data, b) {
      if b in blocks {
        assert Copy(g, headed, IndexOf(blocks, b)) == Copy(g, logged, IndexOf(blocks, b));
      }
    }
  }
}
