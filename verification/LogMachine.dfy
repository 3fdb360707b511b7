/** log.c as one process runs it: the in-memory log header, the buffers it pins, and the loops
    of commit and recovery, write by write.  `images` records the disk after every bwrite, that
    is, every disk a crash can leave behind. */
module LogMachine {
  import opened Basics
  import opened LogDisk

  /** Only buffers of logged blocks may differ from the disk. */
  ghost predicate Settled(g: Geometry, disk: Disk, cache: map<int, Block>, list: seq<int>) {
    && g.Valid() && |disk| == g.total && g.Loggable(list)
    && forall b {:trigger b in cache} | b in cache :: 0 <= b < g.total && (b !in list ==> cache[b] == disk[b])
  }

  /** Each listed block is pinned once, no other is. */
  ghost predicate PinsAre(pins: seq<int>, list: seq<int>) {
    forall b | 0 <= b < |pins| :: pins[b] == if b in list then 1 else 0
  }

  /** The cached contents of the listed blocks. */
  function Contents(cache: map<int, Block>, list: seq<int>): (data: seq<Block>)
    requires forall i {:trigger list[i] in cache} | 0 <= i < |list| :: list[i] in cache
  {
    seq(|list|, i requires 0 <= i < |list| => cache[list[i]])
  }

  /** A bwrite outside the listed blocks. */
  lemma PutSettled(g: Geometry, disk: Disk, cache: map<int, Block>, list: seq<int>, b: int, data: Block)
    requires Settled(g, disk, cache, list) && 0 <= b < g.total
    ensures Settled(g, disk[b := data], cache[b := data], list)
    ensures !g.Home(b) && (forall i {:trigger list[i] in cache} | 0 <= i < |list| :: list[i] in cache) ==>
              Contents(cache[b := data], list) == Contents(cache, list)
  {}

  class Log {
    const g: Geometry
    var disk: Disk
    var cache: map<int, Block>
    var pins: seq<int>            // bpin minus bunpin, per block number
    var outstanding: int
    var committing: bool
    var n: nat                    // log.lh.n
    const block: array<int>       // log.lh.block
    ghost var images: seq<Disk>

    function List(): seq<int>
      reads this, block
      requires n <= block.Length
    {
      block[..n]
    }

    /** Between operations of the log: the logged blocks are in the cache, each pinned once, and the log on
        the disk is empty. */
    ghost predicate Valid()
      reads this, block
    {
      && block.Length == LOGSIZE && n <= LOGSIZE
      && Settled(g, disk, cache, List())
      && (forall i {:trigger List()[i] in cache} | 0 <= i < n :: List()[i] in cache)
      && |pins| == g.total && PinsAre(pins, List())
      && Recoverable(g, disk) && Header(g, disk) == []
    }

    method Bread(b: int) returns (data: Block)
      requires 0 <= b < |disk|
      modifies `cache
      ensures data == Fetch(disk, old(cache), b)
      ensures cache == old(cache)[b := data]
    {
      if b !in cache {
        cache := cache[b := disk[b]];
      }
      data := cache[b];
    }

    /** Sets a buffer's data and writes it to the disk. */
    method Bwrite(b: int, data: Block)
      requires 0 <= b < |disk|
      modifies `disk, `cache, `images
      ensures disk == old(disk)[b := data] && cache == old(cache)[b := data]
      ensures images == old(images) + [disk]
    {
      disk := disk[b := data];
      cache := cache[b := data];
      images := images + [disk];
    }

    method Bpin(b: int)
      requires 0 <= b < |pins|
      modifies `pins
      ensures pins == old(pins)[b := old(pins)[b] + 1]
    {
      pins := pins[b := pins[b] + 1];
    }

    method Bunpin(b: int)
      requires 0 <= b < |pins|
      modifies `pins
      ensures pins == old(pins)[b := old(pins)[b] - 1]
    {
      pins := pins[b := pins[b] - 1];
    }

    /** write_log. */
    method WriteLog()
      requires Valid()
      modifies `disk, `cache, `images
      ensures Copying(g, old(disk), old(images), List(), old(Contents(cache, List())), disk, cache, images, n)
    {
      ghost var list := List();
      ghost var data := Contents(cache, list);
      for tail := 0 to n
        invariant Copying(g, old(disk), old(images), list, data, disk, cache, images, tail)
      {
        WriteOne(tail, old(disk), old(images), list, data);
      }
    }

    method WriteOne(tail: nat, ghost d0: Disk, ghost past: seq<Disk>, ghost list: seq<int>, ghost data: seq<Block>)
      requires block.Length == LOGSIZE && tail < n <= LOGSIZE && list == List()
      requires Copying(g, d0, past, list, data, disk, cache, images, tail)
      modifies `disk, `cache, `images
      ensures Copying(g, d0, past, list, data, disk, cache, images, tail + 1)
    {
      CopyingStep(g, d0, past, list, data, disk, cache, images, tail);
      var to := Bread(g.start + tail + 1);
      var from := Bread(block[tail]);
      Bwrite(g.start + tail + 1, from);
    }

    method WriteHead()
      requires block.Length == LOGSIZE && n <= LOGSIZE && Settled(g, disk, cache, List())
      modifies `disk, `cache, `images
      ensures Settled(g, disk, cache, List())
      ensures disk == old(disk)[g.start := PutHeader(old(disk)[g.start], List())]
      ensures images == old(images) + [disk]
      ensures old(cache).Keys <= cache.Keys
    {
      assert forall i | 0 <= i < n :: g.Home(List()[i]);
      FetchSettled(g, disk, cache, List(), g.start);
      var buf := Bread(g.start);
      PutSettled(g, disk, cache, List(), g.start, PutHeader(buf, List()));
      Bwrite(g.start, PutHeader(buf, block[..n]));
    }

    method ReadHead()
      requires Recoverable(g, disk) && block.Length == LOGSIZE && Settled(g, disk, cache, [])
      modifies `n, `cache, block
      ensures n <= LOGSIZE && List() == Header(g, disk) && Settled(g, disk, cache, [])
    {
      FetchSettled(g, disk, cache, [], g.start);
      var buf := Bread(g.start);
      assert 0 <= buf[0] <= LOGSIZE;
      n := buf[0];
      var i := 0;
      while i < n
        invariant i <= n
        invariant forall k | 0 <= k < i :: block[k] == buf[1 + k]
        modifies block
      {
        block[i] := buf[1 + i];
        i := i + 1;
      }
      assert block[..n] == GetHeader(buf);
    }

    /** install_trans; every block it copies home ends up clean, and is unpinned after a commit. */
    method InstallTrans(recovering: bool)
      requires block.Length == LOGSIZE && n <= LOGSIZE && Settled(g, disk, cache, List()) && |pins| == g.total
      modifies `disk, `cache, `images, `pins
      ensures Installing(g, old(disk), old(images), List(), disk, cache, images, n)
      ensures Unpinned(g, old(pins), pins, List(), if recovering then 0 else n)
    {
      ghost var list := List();
      UnpinNone(g, pins, list);
      for tail := 0 to n
        invariant Installing(g, old(disk), old(images), list, disk, cache, images, tail)
        invariant Unpinned(g, old(pins), pins, list, if recovering then 0 else tail)
      {
        InstallOne(tail, old(disk), old(images), list);
        if !recovering {
          assert g.Home(list[tail]) && forall i | 0 <= i < |list| :: g.Home(list[i]);
          UnpinMore(g, old(pins), pins, list, tail);
          Bunpin(block[tail]);
        }
      }
    }

    method InstallOne(tail: nat, ghost d0: Disk, ghost past: seq<Disk>, ghost list: seq<int>)
      requires block.Length == LOGSIZE && tail < n <= LOGSIZE && list == List()
      requires Installing(g, d0, past, list, disk, cache, images, tail)
      modifies `disk, `cache, `images
      ensures Installing(g, d0, past, list, disk, cache, images, tail + 1)
    {
      InstallingStep(g, d0, past, list, disk, cache, images, tail);
      var lbuf := Bread(g.start + tail + 1);
      var dbuf := Bread(block[tail]);
      Bwrite(block[tail], lbuf);
    }

    /** recover_from_log: it leaves, write by write, the images of RecoveryImages, and a crash after any of
        its writes changes nothing. */
    method RecoverFromLog()
      requires Recoverable(g, disk) && block.Length == LOGSIZE && cache == map[] && PinsAre(pins, [])
      requires |pins| == g.total
      modifies this, block
      ensures Valid() && n == 0 && disk == Recovered(g, old(disk))
      ensures images == RecoveryImages(old(images), g, old(disk))
      ensures forall i {:trigger images[i]} | |old(images)| <= i < |images| ::
        Recoverable(g, images[i]) && Recovered(g, images[i]) == Recovered(g, old(disk))
      ensures outstanding == old(outstanding) && committing == old(committing)
    {
      RecoveryRecovers(images, g, disk);
      RecoveredIsLogical(g, disk);
      RecoveryWrites();
    }

    /** The writes of recovery. */
    method RecoveryWrites()
      requires Recoverable(g, disk) && block.Length == LOGSIZE && cache == map[] && PinsAre(pins, [])
      requires |pins| == g.total
      modifies `disk, `cache, `images, `pins, `n, block
      ensures n == 0 && Settled(g, disk, cache, []) && PinsAre(pins, []) && |pins| == g.total
      ensures disk == Recovered(g, old(disk)) && images == RecoveryImages(old(images), g, old(disk))
    {
      ReadHead();
      InstallTrans(true);
      NoneUnpinned(g, old(pins), pins, List());
      n := 0;
      assert block[..n] == [];
      WriteHead();
    }

    /** commit: the writes are those of CommitImages, in that order, and every pin is released.  A crash
        after one of the first n of them undoes the transaction, a crash after any other does not. */
    method Commit()
      requires Valid() && committing
      modifies `disk, `cache, `images, `pins, `n
      ensures Valid() && n == 0
      ensures old(n) == 0 ==> images == old(images) && disk == old(disk)
      ensures old(n) > 0 ==>
                && images == CommitImages(old(images), g, old(disk), old(List()), old(Contents(cache, List())))
                && disk == images[|images| - 1]
                && forall i {:trigger images[i]} | |old(images)| <= i < |images| ::
                     RecoversTo(g, old(disk), old(List()), old(Contents(cache, List())), i >= |old(images)| + old(n),
                       images[i])
    {
      if n > 0 {
        CommitRecovers(images, g, disk, List(), Contents(cache, List()));
        Writes(List(), Contents(cache, List()));
      }
    }

    /** The writes of commit. */
    method Writes(ghost list: seq<int>, ghost data: seq<Block>)
      requires Valid() && list == List() && data == Contents(cache, List())
      modifies `disk, `cache, `images, `pins, `n
      ensures n == 0 && Settled(g, disk, cache, []) && |pins| == g.total && PinsAre(pins, [])
      ensures images == CommitImages(old(images), g, old(disk), list, data) && disk == images[|images| - 1]
    {
      WriteLog();
      WriteHead();
      assert disk == Headed(g, old(disk), list, data);
      InstallTrans(false);
      AllUnpinned(g, old(pins), pins, list);
      n := 0;
      assert block[..n] == [];
      WriteHead();
    }

    /** log_write.  A panic changes nothing; otherwise the block is in the list, appended and
        pinned only if it was not there before. */
    method LogWrite(b: int) returns (panicked: bool)
      requires Valid() && g.Home(b) && b in cache
      modifies `n, `pins, block
      ensures panicked <==> old(n) >= LOGSIZE || old(n) >= g.size - 1 || outstanding < 1
      ensures panicked ==> n == old(n) && List() == old(List()) && pins == old(pins)
      ensures !panicked ==> Valid() && List() == if b in old(List()) then old(List()) else old(List()) + [b]
    {
      if n >= LOGSIZE || n >= g.size - 1 || outstanding < 1 {
        return true;
      }
      ghost var list := List();
      var i := 0;
      while i < n && block[i] != b
        invariant i <= n && b !in block[..i]
        modifies {}
      {
        i := i + 1;
      }
      block[i] := b;
      if i == n {
        Bpin(b);
        n := n + 1;
        assert List() == list + [b];
      } else {
        assert List() == list && block[i] in list;
      }
      return false;
    }

    /** One round of begin_op: the operation starts if no commit is running and the log has room
        for it in the worst case, and otherwise has to sleep. */
    method TryBeginOp() returns (started: bool)
      requires Valid()
      modifies `outstanding
      ensures started <==> !committing && n + (old(outstanding) + 1) * MAXOPBLOCKS <= LOGSIZE
      ensures outstanding == old(outstanding) + if started then 1 else 0
    {
      if committing {
        return false;
      } else if n + (outstanding + 1) * MAXOPBLOCKS > LOGSIZE {
        return false;
      } else {
        outstanding := outstanding + 1;
        return true;
      }
    }

    /** end_op: the last operation to leave commits for all. */
    method EndOp() returns (panicked: bool)
      requires Valid()
      modifies `outstanding, `committing, `disk, `cache, `images, `pins, `n
      ensures panicked <==> old(committing)
      ensures outstanding == old(outstanding) - 1
      ensures !panicked ==> Valid() && !committing
      ensures !panicked && outstanding != 0 ==> n == old(n) && disk == old(disk) && images == old(images)
      ensures !panicked && outstanding == 0 ==>
                && n == 0
                && (old(n) == 0 ==> images == old(images) && disk == old(disk))
                && (old(n) > 0 ==>
                      && images == CommitImages(old(images), g, old(disk), old(List()), old(Contents(cache, List())))
                      && disk == images[|images| - 1])
    {
      var doCommit := false;
      outstanding := outstanding - 1;
      if committing {
        return true;
      }
      if outstanding == 0 {
        doCommit := true;
        committing := true;
      }
      if doCommit {
        Commit();
        committing := false;
      }
      return false;
    }
  }

  /** The loop of write_log, `tail` writes in: from disk d0 and images `past`, for the listed
      blocks and their contents. */
  ghost predicate Copying(g: Geometry, d0: Disk, past: seq<Disk>, list: seq<int>, data: seq<Block>,
    disk: Disk, cache: map<int, Block>, images: seq<Disk>, tail: nat)
  {
    && Settled(g, disk, cache, list) && |d0| == g.total && |data| == |list| && tail <= |list|
    && (forall i {:trigger data[i]} {:trigger list[i] in cache} | 0 <= i < |list| ::
          list[i] in cache && cache[list[i]] == data[i])
    && disk == CopyLog(g, d0, data, tail) && images == CopyImages(past, g, d0, data, tail)
  }

  /** bread of block b. */
  function Fetch(disk: Disk, cache: map<int, Block>, b: int): Block
    requires 0 <= b < |disk|
  {
    if b in cache then cache[b] else disk[b]
  }

  lemma CopyingStep(g: Geometry, d0: Disk, past: seq<Disk>, list: seq<int>, data: seq<Block>,
    disk: Disk, cache: map<int, Block>, images: seq<Disk>, tail: nat)
    requires Copying(g, d0, past, list, data, disk, cache, images, tail) && tail < |list|
    ensures var b := g.start + tail + 1;
            && g.Home(list[tail]) && list[tail] in cache
            && var c1 := cache[b := Fetch(disk, cache, b)];
            && var from := Fetch(disk, c1, list[tail]);
            && var c2 := c1[list[tail] := from];
            && var disk' := disk[b := from];
            Copying(g, d0, past, list, data, disk', c2[b := from], images + [disk'], tail + 1)
  {
    assert forall i | 0 <= i < |list| :: g.Home(list[i]);
  }

  /** The first `tail` listed blocks have lost one pin, the others none. */
  ghost predicate Unpinned(g: Geometry, before: seq<int>, pins: seq<int>, list: seq<int>, tail: nat)
    requires |before| == g.total
  {
    && |pins| == |before|
    && forall b {:trigger pins[b]} | 0 <= b < |pins| ::
         pins[b] == before[b] - if b in list && IndexOf(list, b) < tail then 1 else 0
  }

  lemma AllUnpinned(g: Geometry, before: seq<int>, pins: seq<int>, list: seq<int>)
    requires |before| == g.total && PinsAre(before, list) && Unpinned(g, before, pins, list, |list|)
    ensures PinsAre(pins, [])
  {}

  lemma NoneUnpinned(g: Geometry, before: seq<int>, pins: seq<int>, list: seq<int>)
    requires |before| == g.total && Unpinned(g, before, pins, list, 0)
    ensures pins == before
  {
    assert forall b | 0 <= b < |pins| && b in list :: IndexOf(list, b) >= 0;
  }

  lemma UnpinNone(g: Geometry, pins: seq<int>, list: seq<int>)
    requires |pins| == g.total
    ensures Unpinned(g, pins, pins, list, 0)
  {
    forall b | 0 <= b < |pins| ensures pins[b] == pins[b] - if b in list && IndexOf(list, b) < 0 then 1 else 0 {
      if b in list { assert IndexOf(list, b) >= 0; }
    }
  }

  lemma UnpinMore(g: Geometry, before: seq<int>, pins: seq<int>, list: seq<int>, tail: nat)
    requires |before| == g.total && g.Loggable(list) && tail < |list|
    requires forall i | 0 <= i < |list| :: g.Home(list[i])
    requires Unpinned(g, before, pins, list, tail)
    ensures Unpinned(g, before, pins[list[tail] := pins[list[tail]] - 1], list, tail + 1)
  {}

  /** The loop of install_trans, `tail` writes in. */
  ghost predicate Installing(g: Geometry, d0: Disk, past: seq<Disk>, list: seq<int>,
    disk: Disk, cache: map<int, Block>, images: seq<Disk>, tail: nat)
  {
    && Settled(g, disk, cache, list) && |d0| == g.total && tail <= |list|
    && (forall i {:trigger list[i] in cache} | 0 <= i < tail && list[i] in cache ::
          g.Home(list[i]) && cache[list[i]] == disk[list[i]])
    && disk == Install(g, d0, list, tail) && images == InstallImages(past, g, d0, list, tail)
  }

  lemma InstallingStep(g: Geometry, d0: Disk, past: seq<Disk>, list: seq<int>,
    disk: Disk, cache: map<int, Block>, images: seq<Disk>, tail: nat)
    requires Installing(g, d0, past, list, disk, cache, images, tail) && tail < |list|
    ensures var b, dst := g.start + tail + 1, list[tail];
            && g.Home(dst)
            && var lbuf := Fetch(disk, cache, b);
            && var c1 := cache[b := lbuf];
            && var c2 := c1[dst := Fetch(disk, c1, dst)];
            && var disk' := disk[dst := lbuf];
            Installing(g, d0, past, list, disk', c2[dst := lbuf], images + [disk'], tail + 1)
  {
    var b, dst := g.start + tail + 1, list[tail];
    assert forall i | 0 <= i < |list| :: g.Home(list[i]);
    assert disk[b] == Copy(g, disk, tail) && b !in list;
    FetchSettled(g, disk, cache, list, b);
    var c1 := cache[b := disk[b]];
    FetchSettled(g, disk, c1, list, dst);
    var c2 := c1[dst := Fetch(disk, c1, dst)];
    PutSettled(g, disk, c2, list, dst, disk[b]);
  }

  lemma FetchSettled(g: Geometry, disk: Disk, cache: map<int, Block>, list: seq<int>, b: int)
    requires Settled(g, disk, cache, list) && 0 <= b < g.total
    ensures Settled(g, disk, cache[b := Fetch(disk, cache, b)], list)
    ensures b !in list ==> Fetch(disk, cache, b) == disk[b]
  {}
}
