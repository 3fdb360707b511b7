/** The mirrored buffer layer of mp4: every block twice on one disk, with faults that are injected. */
module Raid {

  const FSSIZE := 4096
  /** The blocks that the file system may use. */
  const LOGICAL := FSSIZE / 2
  /** Where the second copies begin: block b has its copies at b and at b + DISK1. */
  const DISK1 := FSSIZE / 2

  type Bytes = seq<int>
  datatype Buf = Buf(blockno: int, valid: bool, data: Bytes)

  /** What has gone wrong: nothing, one disk, or the first copy of one block. */
  datatype Fault = None | Disk0 | Disk1 | Block(pbn: int)

  function Read(disk: map<int, Bytes>, pbn: int): Bytes { if pbn in disk then disk[pbn] else [] }

  /** The first copy of block b is out of use. */
  predicate FirstFails(f: Fault, b: int) { f == Disk0 || f == Block(b) }

  /** The copies of b that are in use hold x. */
  predicate Holds(disk: map<int, Bytes>, f: Fault, b: int, x: Bytes) {
    && (!FirstFails(f, b) ==> Read(disk, b) == x)
    && (f != Disk1 ==> Read(disk, b + DISK1) == x)
  }

  /** What bwrite() leaves on disk under the two flags, whatever they are, */
  function WriteCopies(disk: map<int, Bytes>, failDisk: int, failPbn: int, b: int, x: Bytes): map<int, Bytes> {
    var disk1 := if failDisk == 0 || failPbn == b then disk else disk[b := x];
    if failDisk == 1 then disk1 else disk1[b + DISK1 := x]
  }

  /** ... and what bread() finds there when it has to read. */
  function ReadCopy(disk: map<int, Bytes>, failDisk: int, failPbn: int, b: int): Bytes {
    Read(disk, if failDisk == 0 || failPbn == b then b + DISK1 else b)
  }

  /** Reading block b falls back on its second copy. */
  predicate FallsBack(failDisk: int, failPbn: int, b: int) { failDisk == 0 || failPbn == b }

  /** A block that is written under some flags, and read from the disk under others, reads as written
      exactly if the write reached the copy that is read, or that copy held the same before. */
  lemma SurvivesExactly(disk: map<int, Bytes>, fd: int, fp: int, b: int, x: Bytes, fd': int, fp': int)
    ensures ReadCopy(WriteCopies(disk, fd, fp, b, x), fd', fp', b) == x <==>
      if FallsBack(fd', fp', b) then fd != 1 || Read(disk, b + DISK1) == x
      else !FallsBack(fd, fp, b) || Read(disk, b) == x
  {
    assert b != b + DISK1;
  }

  /** So under flags that stay as they are it reads as written, unless Disk 1 and the block's first copy
      are both out, and then exactly if the second copy happened to hold it. */
  lemma ReadsBackExactly(disk: map<int, Bytes>, fd: int, fp: int, b: int, x: Bytes)
    ensures ReadCopy(WriteCopies(disk, fd, fp, b, x), fd, fp, b) == x <==>
      !(fd == 1 && fp == b) || Read(disk, b + DISK1) == x
  {
    SurvivesExactly(disk, fd, fp, b, x, fd, fp);
  }

  /** Where the flags matter for another block: nowhere. */
  lemma OthersUntouched(disk: map<int, Bytes>, fd: int, fp: int, b: int, x: Bytes, fd': int, fp': int, c: int)
    requires 0 <= b < LOGICAL && 0 <= c < LOGICAL && c != b
    ensures ReadCopy(WriteCopies(disk, fd, fp, b, x), fd', fp', c) == ReadCopy(disk, fd', fp', c)
  {
    assert c != b + DISK1 && c + DISK1 != b;
  }

  /** The disk has room for both copies of every block: a write stays on it, and each place on the disk is for one
      block only. */
  lemma CopiesWithin(disk: map<int, Bytes>, fd: int, fp: int, b: int, x: Bytes, pbn: int)
    requires 0 <= b < LOGICAL && Read(WriteCopies(disk, fd, fp, b, x), pbn) != Read(disk, pbn)
    ensures 0 <= pbn < FSSIZE && pbn % LOGICAL == b
  {
    PlacesOf(b);
    assert pbn == b || pbn == b + DISK1 by { WriteWhere(disk, fd, fp, b, x, pbn); }
  }

  lemma WriteWhere(disk: map<int, Bytes>, fd: int, fp: int, b: int, x: Bytes, pbn: int)
    ensures pbn != b && pbn != b + DISK1 ==> Read(WriteCopies(disk, fd, fp, b, x), pbn) == Read(disk, pbn)
  {}

  lemma PlacesOf(b: int)
    requires 0 <= b < LOGICAL
    ensures b % LOGICAL == b && (b + LOGICAL) % LOGICAL == b
  {
    assert LOGICAL == 2048;
    assert (b + 2048) / 2048 == 1;
  }

  class Mirror {
    var disk: map<int, Bytes>
    var cache: map<int, Buf>
    /** force_disk_fail_id and force_read_error_pbn; -1 for none. */
    var failDisk: int
    var failPbn: int
    /** What each block was last written with. */
    ghost var last: map<int, Bytes>
    ghost var fault: Fault

    ghost predicate Flags() reads this {
      match fault
      case None => failDisk == -1 && failPbn == -1
      case Disk0 => failDisk == 0 && failPbn == -1
      case Disk1 => failDisk == 1 && failPbn == -1
      case Block(b) => failDisk == -1 && failPbn == b && 0 <= b
    }

    /** Each buffer is for its block, under whatever flags. */
    ghost predicate Sane() reads this {
      forall b {:trigger cache[b]} {:trigger b in cache} | b in cache :: cache[b].blockno == b
    }

    /** Under a single fault: every block that was ever written is on all copies in use, and in its
        buffer if that is valid. */
    ghost predicate Valid() reads this {
      && Flags() && Sane()
      && (forall b {:trigger last[b]} {:trigger b in last} | b in last ::
            0 <= b < LOGICAL && Holds(disk, fault, b, last[b]))
      && (forall b {:trigger cache[b]} {:trigger b in cache} | b in cache ::
            cache[b].valid && b in last ==> cache[b].data == last[b])
    }

    constructor (disk: map<int, Bytes>)
      ensures Valid() && this.disk == disk && cache == map[] && last == map[] && fault == None
    {
      this.disk, cache, failDisk, failPbn := disk, map[], -1, -1;
      last, fault := map[], None;
    }

    /** One fault appears, and is never cleared. */
    method Inject(f: Fault)
      requires Valid() && fault == None && (f.Block? ==> 0 <= f.pbn)
      modifies `failDisk, `failPbn, `fault
      ensures Valid() && fault == f
    {
      fault := f;
      match f
      case None =>
      case Disk0 => failDisk := 0;
      case Disk1 => failDisk := 1;
      case Block(pbn) => failPbn := pbn;
    }

    /** The flags are set to anything, whatever they were. */
    method SetFlags(fd: int, fp: int)
      requires Sane()
      modifies `failDisk, `failPbn
      ensures Sane() && failDisk == fd && failPbn == fp
    {
      failDisk, failPbn := fd, fp;
    }

    /** bget() may drop the buffer of a block from the cache. */
    method Evict(b: int)
      requires Sane()
      modifies `cache
      ensures Sane() && cache == old(cache) - {b}
      ensures old(Valid()) ==> Valid()
    {
      cache := cache - {b};
    }

    /** A block that was ever written reads as it was last written, whatever single fault there is. */
    method Bread(blockno: int) returns (data: Bytes)
      requires Sane() && 0 <= blockno < LOGICAL
      modifies `cache
      ensures Sane() && blockno in cache && cache[blockno] == Buf(blockno, true, data)
      ensures old(Valid()) ==> Valid() && (blockno in last ==> data == last[blockno])
      ensures data == if blockno in old(cache) && old(cache)[blockno].valid && !FallsBack(failDisk, failPbn, blockno)
                      then old(cache)[blockno].data else ReadCopy(disk, failDisk, failPbn, blockno)
      ensures forall c | c in old(cache) && c != blockno :: c in cache && cache[c] == old(cache)[c]
    {
      var b := if blockno in cache then cache[blockno] else Buf(blockno, false, []);
      var forced := failDisk == 0 || failPbn == blockno;
      if !b.valid || forced {
        if forced {
          b := b.(blockno := blockno + DISK1);
          b := b.(data := Read(disk, b.blockno));
          b := b.(blockno := blockno);
        } else {
          b := b.(data := Read(disk, b.blockno));
        }
        b := b.(valid := true);
      }
      cache := cache[blockno := b];
      data := b.data;
    }

    /** The holder of a valid buffer fills it and writes it. */
    method Bwrite(blockno: int, x: Bytes)
      requires Sane() && 0 <= blockno < LOGICAL && blockno in cache && cache[blockno].valid
      modifies `cache, `disk, `last
      ensures Sane() && cache == old(cache)[blockno := Buf(blockno, true, x)]
      ensures old(Valid()) ==> Valid() && last == old(last)[blockno := x]
      ensures old(Valid()) && fault == None ==> Read(disk, blockno) == x && Read(disk, blockno + DISK1) == x
      ensures disk == WriteCopies(old(disk), failDisk, failPbn, blockno, x)
    {
      var b := cache[blockno].(data := x);
      var pbn0 := b.blockno;
      var pbn1 := pbn0 + DISK1;
      if failDisk != 0 && failPbn != pbn0 {
        disk := disk[b.blockno := b.data];
      }
      if failDisk != 1 {
        b := b.(blockno := pbn1);
        disk := disk[b.blockno := b.data];
      }
      b := b.(blockno := pbn0);
      cache := cache[blockno := b];
      last := last[blockno := x];
    }

    /** A write, a change of the flags, and a read, with the buffer still cached or not.  What was written
        comes back exactly in the cases of SurvivesExactly; from a valid buffer that is not forced to
        be read again it always does. */
    method WriteThenRead(b: int, x: Bytes, fd': int, fp': int, evicted: bool) returns (data: Bytes)
      requires Sane() && 0 <= b < LOGICAL && b in cache && cache[b].valid
      modifies this
      ensures data == x <==>
        if FallsBack(fd', fp', b) then old(failDisk) != 1 || Read(old(disk), b + DISK1) == x
        else !evicted || !FallsBack(old(failDisk), old(failPbn), b) || Read(old(disk), b) == x
    {
      SurvivesExactly(disk, failDisk, failPbn, b, x, fd', fp');
      Bwrite(b, x);
      SetFlags(fd', fp');
      if evicted {
        Evict(b);
      }
      data := Bread(b);
    }
  }

  /** A second fault that loses data: Disk 1 is out while a block is written, then Disk 0 instead.  The
      block is still in a valid buffer, and reads as it was before all the same. */
  method SecondFaultLoses() returns (data: Bytes)
    ensures data == [] != [1]
  {
    var m := new Mirror(map[]);
    var before := m.Bread(0);
    m.SetFlags(1, -1);
    m.Bwrite(0, [1]);
    m.SetFlags(0, -1);
    data := m.Bread(0);
  }
}
