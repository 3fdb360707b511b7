/** The bound on the blocks that one chunk of filewrite() logs is reached, for every number of bitmap
    blocks: six and as many bitmap blocks as there are, up to four. */
module FsTight {
  import opened Basics
  import opened FsBlocks
  import opened FsRoom
  import opened Fs

  const MAPSTART := 20
  const INODESTART := 30
  /** Twelve blocks, the last of them half full. */
  const SIZE := 11 * BSIZE + 512

  /** The free blocks, as many as the chunk will take. */
  function Spares(hole: bool): nat { if hole then 5 else 4 }

  /** How many blocks the bitmap may have. */
  predicate Rows(maps: nat, hole: bool) { 1 <= maps <= Spares(hole) }

  /** They are in as many blocks of the bitmap as there are. */
  function Spare(maps: nat, k: nat): int { 100 + k + Min(k, maps - 1) * BPB }

  predicate IsSpare(maps: nat, hole: bool, b: int) {
    b == Spare(maps, 0) || b == Spare(maps, 1) || b == Spare(maps, 2) || b == Spare(maps, 3)
    || (hole && b == Spare(maps, 4))
  }

  function SlotOf(maps: nat, hole: bool, b: int): Slot {
    if 1 <= b <= NDIRECT && !(hole && b == NDIRECT) then Data(0, b - 1)
    else if IsSpare(maps, hole, b) then Free else Meta
  }

  ghost function Owners(maps: nat, hole: bool): (owner: map<int, Slot>)
    ensures forall b :: b in owner <==> 0 <= b < maps * BPB
    ensures forall b {:trigger owner[b]} | b in owner :: owner[b] == SlotOf(maps, hole, b)
  {
    map b | 0 <= b < maps * BPB :: SlotOf(maps, hole, b)
  }

  /** The first n bits of row j of the bitmap, */
  function Bits(maps: nat, hole: bool, j: nat, n: nat): (row: seq<bool>)
    ensures |row| == n && forall k | 0 <= k < n :: row[k] == (SlotOf(maps, hole, j * BPB + k) != Free)
  {
    if n == 0 then [] else Bits(maps, hole, j, n - 1) + [SlotOf(maps, hole, j * BPB + n - 1) != Free]
  }

  /** ... and its first n rows. */
  function Bitmap(maps: nat, hole: bool, n: nat): (bitmap: seq<seq<bool>>)
    ensures |bitmap| == n && forall j | 0 <= j < n :: bitmap[j] == Bits(maps, hole, j, BPB)
  {
    if n == 0 then [] else Bitmap(maps, hole, n - 1) + [Bits(maps, hole, n - 1, BPB)]
  }

  /** The only file: twelve direct blocks and no indirect block. */
  function FileOf(hole: bool): Inode { Inode([1, 2, 3, 4, 5, 6, 7, 8, 9, 10, 11, if hole then 0 else 12, 0], SIZE) }

  lemma FilePtr(disk: Disk, hole: bool, n: int)
    ensures Ptr(disk, FileOf(hole), n) == if 0 <= n < NDIRECT && !(hole && n == 11) then n + 1 else 0
  {}

  lemma ImageOk(maps: nat, hole: bool, disk: Disk)
    requires Rows(maps, hole) && forall b :: b in disk <==> 0 <= b < maps * BPB
    ensures FsOk(Bitmap(maps, hole, maps), disk, map[0 := FileOf(hole)], Owners(maps, hole))
    ensures NoneHeld(Owners(maps, hole))
    ensures NoHoles(disk, FileOf(hole)) <==> !hole
  {
    assert disk.Keys == Owners(maps, hole).Keys;
    forall b ensures BitOk(Bitmap(maps, hole, maps), Owners(maps, hole), b) {
      ImageBit(maps, hole, b);
    }
    forall b {:trigger Owners(maps, hole)[b]} | b in Owners(maps, hole)
      ensures SlotOk(disk, map[0 := FileOf(hole)], b, Owners(maps, hole)[b])
    {
      ImageSlot(maps, hole, disk, b);
    }
    ImageInode(maps, hole, disk);
  }

  lemma ImageSlot(maps: nat, hole: bool, disk: Disk, b: int)
    requires Rows(maps, hole) && b in Owners(maps, hole)
    ensures SlotOk(disk, map[0 := FileOf(hole)], b, Owners(maps, hole)[b])
  {
    FilePtr(disk, hole, b - 1);
  }

  lemma ImageBit(maps: nat, hole: bool, b: int)
    requires Rows(maps, hole)
    ensures BitOk(Bitmap(maps, hole, maps), Owners(maps, hole), b)
  {
    if 0 <= b < maps * BPB {
      assert 0 <= b / BPB < maps && b / BPB * BPB + b % BPB == b;
    }
  }

  lemma ImageInode(maps: nat, hole: bool, disk: Disk)
    requires Rows(maps, hole) && forall b :: b in disk <==> 0 <= b < maps * BPB
    ensures InodeOk(disk, Owners(maps, hole), 0, FileOf(hole)) && (NoHoles(disk, FileOf(hole)) <==> !hole)
  {
    forall n {:trigger Ptr(disk, FileOf(hole), n)} {:trigger PtrOk(disk, Owners(maps, hole), 0, FileOf(hole), n)}
      ensures PtrOk(disk, Owners(maps, hole), 0, FileOf(hole), n)
    {
      FilePtr(disk, hole, n);
    }
    forall n {:trigger Ptr(disk, FileOf(hole), n)} | 0 <= n && n * BSIZE < SIZE && !(hole && n == 11)
      ensures Ptr(disk, FileOf(hole), n) != 0
    {
      FilePtr(disk, hole, n);
    }
    FilePtr(disk, hole, 11);
    assert 11 * BSIZE < FileOf(hole).size == SIZE;
  }

  /** Blocks have gone to slots 11 to 14 of that file, or to its indirect block, and nothing else has happened. */
  ghost predicate Later(maps: nat, hole: bool, bitmap: seq<seq<bool>>, disk: Disk, inodes: map<int, Inode>,
                        owner: map<int, Slot>) {
    Rows(maps, hole) && FsOk(bitmap, disk, inodes, owner) && 0 in inodes && Given(Owners(maps, hole), owner, 0, 11, 15)
  }

  /** Every spare block is among these. */
  ghost predicate AllIn(maps: nat, hole: bool, blocks: set<int>) {
    forall k: nat {:trigger Spare(maps, k)} | k < Spares(hole) :: Spare(maps, k) in blocks
  }

  ghost predicate AllUsed(maps: nat, hole: bool, owner: map<int, Slot>) {
    forall k: nat {:trigger Spare(maps, k)} | k < Spares(hole) ::
      Spare(maps, k) in owner && owner[Spare(maps, k)] != Free
  }

  /** The block that is in slot n of file 0, with MAXFILE for its indirect block. */
  ghost function InSlot(disk: Disk, ip: Inode,
                        n: int): int { if n == MAXFILE then IndirectOf(ip) else Ptr(disk, ip, n) }

  /** The slot that spare block k has been given; -1 for none. */
  ghost function Went(owner: map<int, Slot>, maps: nat, k: nat): int
    requires Spare(maps, k) in owner
  {
    var o := owner[Spare(maps, k)];
    if o.Indirect? then MAXFILE else if o.Data? then o.bn else -1
  }

  /** Where a spare block went, it is. */
  lemma WentThere(maps: nat, hole: bool, bitmap: seq<seq<bool>>, disk: Disk, inodes: map<int, Inode>,
                  owner: map<int, Slot>, k: nat)
    requires Later(maps, hole, bitmap, disk, inodes, owner) && k < Spares(hole)
    ensures Spare(maps, k) in owner
    ensures owner[Spare(maps, k)] == Free <==> Went(owner, maps, k) == -1
    ensures Went(owner, maps, k) != -1 ==> InSlot(disk, inodes[0], Went(owner, maps, k)) == Spare(maps, k)
    ensures Went(owner, maps, k) in {-1, 12, 13, 14, MAXFILE} || (hole && Went(owner, maps, k) == 11)
  {
    var b := Spare(maps, k);
    assert owner[b] == owner[b] && SlotOk(disk, inodes, b, owner[b]);
    if !hole {
      assert owner[12] == Data(0, 11) && SlotOk(disk, inodes, 12, owner[12]);
    }
  }

  /** What is in a slot that was empty was a spare block. */
  lemma CameFrom(maps: nat, hole: bool, bitmap: seq<seq<bool>>, disk: Disk, inodes: map<int, Inode>,
                 owner: map<int, Slot>, n: int)
    requires Later(maps, hole, bitmap, disk, inodes, owner) && (if hole then 11 else 12) <= n <= MAXFILE
    requires InSlot(disk, inodes[0], n) != 0
    ensures var b := InSlot(disk, inodes[0], n); b in owner && IsSpare(maps, hole, b) && owner[b] != Free
    ensures var b := InSlot(disk, inodes[0], n); owner[b] == if n == MAXFILE then Indirect(0) else Data(0, n)
  {
    assert InodeOk(disk, owner, 0, inodes[0]) && PtrOk(disk, owner, 0, inodes[0], n);
    var b := InSlot(disk, inodes[0], n);
    assert owner[b] == owner[b];
  }

  /** The slots that are empty at first, and will not be. */
  function Slots(hole: bool): seq<int> { (if hole then [11] else []) + [12, 13, 14, MAXFILE] }

  /** Where the spare blocks are. */
  lemma Places(maps: nat, hole: bool, bitmap: seq<seq<bool>>, disk: Disk, inodes: map<int, Inode>,
               owner: map<int, Slot>)
    returns (w: seq<int>)
    requires Later(maps, hole, bitmap, disk, inodes, owner)
    ensures |w| == Spares(hole)
    ensures forall k {:trigger w[k]} | 0 <= k < |w| :: Spare(maps, k) in owner && w[k] == Went(owner, maps, k)
    ensures forall k {:trigger w[k]} | 0 <= k < |w| :: w[k] == -1 <==> owner[Spare(maps, k)] == Free
    ensures forall k {:trigger w[k]} | 0 <= k < |w| && w[k] != -1 ::
      w[k] in Slots(hole) && InSlot(disk, inodes[0], w[k]) == Spare(maps, k)
  {
    forall k | 0 <= k < Spares(hole) ensures Spare(maps, k) in owner {}
    w := seq(Spares(hole), k requires 0 <= k < Spares(hole) => Went(owner, maps, k));
    forall k {:trigger w[k]} | 0 <= k < |w|
      ensures w[k] == -1 <==> owner[Spare(maps, k)] == Free
      ensures w[k] != -1 ==> w[k] in Slots(hole) && InSlot(disk, inodes[0], w[k]) == Spare(maps, k)
    {
      WentThere(maps, hole, bitmap, disk, inodes, owner, k);
      assert Slots(hole)[|Slots(hole)| - 1] == MAXFILE;
      if hole {
        assert Slots(hole) == [11, 12, 13, 14, MAXFILE];
      } else {
        assert Slots(hole) == [12, 13, 14, MAXFILE];
      }
    }
  }

  /** If every slot has a spare block, every spare block has a slot, */
  lemma NoneLeft(hole: bool, w: seq<int>, k: nat)
    requires |w| == Spares(hole) && k < |w|
    requires forall i {:trigger Slots(hole)[i]} | 0 <= i < |Slots(hole)| :: Slots(hole)[i] in w
    ensures w[k] != -1
  {
    if w[k] == -1 {
      var rest := w[..k] + w[k + 1..];
      forall i {:trigger Slots(hole)[i]} | 0 <= i < |Slots(hole)| ensures Slots(hole)[i] in rest {
        var j :| 0 <= j < |w| && w[j] == Slots(hole)[i];
        assert rest[if j < k then j else j - 1] == w[j];
      }
      Pigeonhole(Slots(hole), rest);
    }
  }

  /** and the other way round. */
  lemma NoneEmpty(hole: bool, w: seq<int>, j: nat)
    requires |w| == Spares(hole) && j < |Slots(hole)|
    requires forall k {:trigger w[k]} | 0 <= k < |w| :: w[k] in Slots(hole)
    requires forall i, k {:trigger w[i], w[k]} | 0 <= i < k < |w| :: w[i] != w[k]
    ensures Slots(hole)[j] in w
  {
    if Slots(hole)[j] !in w {
      var rest := Slots(hole)[..j] + Slots(hole)[j + 1..];
      forall k {:trigger w[k]} | 0 <= k < |w| ensures w[k] in rest {
        var i :| 0 <= i < |Slots(hole)| && Slots(hole)[i] == w[k];
        assert rest[if i < j then i else i - 1] == w[k];
      }
      Pigeonhole(w, rest);
    }
  }

  /** The spare block in a slot. */
  lemma WhoIs(maps: nat, hole: bool, bitmap: seq<seq<bool>>, disk: Disk, inodes: map<int, Inode>,
              owner: map<int, Slot>, n: int)
    returns (k: nat)
    requires Later(maps, hole, bitmap, disk, inodes, owner) && n in Slots(hole) && InSlot(disk, inodes[0], n) != 0
    ensures k < Spares(hole) && Spare(maps, k) in owner && Went(owner, maps, k) == n
  {
    CameFrom(maps, hole, bitmap, disk, inodes, owner, n);
    var b := InSlot(disk, inodes[0], n);
    k := if b == Spare(maps, 0) then 0 else if b == Spare(maps, 1) then 1 else if b == Spare(maps, 2) then 2
         else if b == Spare(maps, 3) then 3 else 4;
  }

  /** When a chunk of that file has been written all spare blocks are in use. */
  lemma AllTaken(maps: nat, hole: bool, bitmap: seq<seq<bool>>, disk: Disk, inodes: map<int, Inode>,
                 owner: map<int, Slot>)
    requires Later(maps, hole, bitmap, disk, inodes, owner)
    requires forall n | 11 <= n < 15 :: Ptr(disk, inodes[0], n) != 0
    ensures AllUsed(maps, hole, owner)
  {
    var w := Places(maps, hole, bitmap, disk, inodes, owner);
    forall i {:trigger Slots(hole)[i]} | 0 <= i < |Slots(hole)| ensures Slots(hole)[i] in w {
      SlotFull(disk, inodes[0], hole, Slots(hole)[i]);
      var k := WhoIs(maps, hole, bitmap, disk, inodes, owner, Slots(hole)[i]);
      assert w[k] == Slots(hole)[i];
    }
    forall k: nat {:trigger Spare(maps, k)} | k < Spares(hole)
      ensures Spare(maps, k) in owner && owner[Spare(maps, k)] != Free
    {
      NoneLeft(hole, w, k);
    }
  }

  lemma SlotFull(disk: Disk, ip: Inode, hole: bool, n: int)
    requires n in Slots(hole) && forall n | 11 <= n < 15 :: Ptr(disk, ip, n) != 0
    ensures InSlot(disk, ip, n) != 0
  {
    assert Ptr(disk, ip, 12) != 0;
  }

  /** The write cannot stop short for want of a block. */
  lemma NotShort(maps: nat, hole: bool, bitmap: seq<seq<bool>>, disk: Disk, inodes: map<int, Inode>,
                 owner: map<int, Slot>, n: int)
    requires Later(maps, hole, bitmap, disk, inodes, owner)
    requires 11 <= n < 15 && NoneFree(owner)
    ensures Ptr(disk, inodes[0], n) != 0
  {
    if n == 11 && !hole {
      assert owner[12] == Data(0, 11) && SlotOk(disk, inodes, 12, owner[12]);
    } else {
      var w := Places(maps, hole, bitmap, disk, inodes, owner);
      var j := if hole then n - 11 else n - 12;
      assert Slots(hole)[j] == n;
      forall k {:trigger w[k]} | 0 <= k < |w| ensures w[k] != -1 {
        assert owner[Spare(maps, k)] != Free;
      }
      NoneEmpty(hole, w, j);
    }
  }

  /** The data blocks and the indirect block that must have been logged by then, */
  ghost function LeastBlocks(maps: nat, hole: bool): set<int> {
    {if hole then Spare(maps, 4) else 12, Spare(maps, 0), Spare(maps, 1), Spare(maps, 2), Spare(maps, 3)}
  }

  /** ... and all blocks. */
  ghost function Least(maps: nat, hole: bool): set<int> {
    Range(MAPSTART, maps) + LeastBlocks(maps, hole) + {INODESTART}
  }

  lemma Apart<T>(a: set<T>, b: set<T>)
    requires a !! b
    ensures |a + b| == |a| + |b|
  {}

  lemma FiveBlocks(maps: nat, hole: bool)
    requires Rows(maps, hole)
    ensures |LeastBlocks(maps, hole)| == 5 && forall b | b in LeastBlocks(maps, hole) :: b == 12 || b >= 100
  {
    var a, b, c, d := Spare(maps, 0), Spare(maps, 1), Spare(maps, 2), Spare(maps, 3);
    var e := if hole then Spare(maps, 4) else 12;
    assert a < b < c < d && (e == 12 || d < e);
    assert LeastBlocks(maps, hole) == {e} + {a} + {b} + {c} + {d};
  }

  lemma LeastSize(maps: nat, hole: bool)
    requires Rows(maps, hole)
    ensures |Least(maps, hole)| == 6 + maps
  {
    FiveBlocks(maps, hole);
    Apart(Range(MAPSTART, maps), LeastBlocks(maps, hole));
    Apart(Range(MAPSTART, maps) + LeastBlocks(maps, hole), {INODESTART});
  }

  lemma MapsLogged(maps: nat, hole: bool, changed: set<int>)
    requires Rows(maps, hole) && AllIn(maps, hole, changed)
    ensures Range(MAPSTART, maps) <= MapsOf(MAPSTART, changed)
  {
    forall m | m in Range(MAPSTART, maps) ensures m in MapsOf(MAPSTART, changed) {
      SpareMap(maps, hole, m - MAPSTART);
      assert Spare(maps, m - MAPSTART) in changed;
    }
  }

  lemma SpareMap(maps: nat, hole: bool, j: nat)
    requires Rows(maps, hole) && j < maps
    ensures Spare(maps, j) / BPB == j
  {}

  lemma BlocksLogged(maps: nat, hole: bool, blocks: set<int>)
    requires Rows(maps, hole) && (hole || 12 in blocks)
    requires AllIn(maps, hole, blocks)
    ensures LeastBlocks(maps, hole) <= blocks
  {
    assert Spare(maps, 0) in blocks && Spare(maps, 1) in blocks && Spare(maps, 2) in blocks && Spare(maps, 3) in blocks;
  }

  lemma LeastLogged(maps: nat, hole: bool, changed: set<int>, blocks: set<int>, inos: set<int>)
    requires Rows(maps, hole) && (hole || 12 in blocks) && INODESTART in inos
    requires AllIn(maps, hole, changed) && AllIn(maps, hole, blocks)
    ensures Least(maps, hole) <= MapsOf(MAPSTART, changed) + blocks + inos
  {
    MapsLogged(maps, hole, changed);
    BlocksLogged(maps, hole, blocks);
  }

  /** The file, read to its end. */
  method Image(maps: nat, hole: bool) returns (f: File)
    requires Rows(maps, hole)
    ensures fresh(f) && fresh(f.fs) && f.fs.Valid() && f.i == 0 && f.off == SIZE
    ensures f.fs.size == maps * BPB && f.fs.bmapstart == MAPSTART && f.fs.inodestart == INODESTART
    ensures f.fs.inodes == map[0 := FileOf(hole)] && (NoHoles(f.fs.disk, FileOf(hole)) <==> !hole)
    ensures f.fs.owner == Owners(maps, hole)
  {
    var disk := Uniform(0, maps * BPB, ZEROS);
    ImageOk(maps, hole, disk);
    var fs := new FileSystem(maps * BPB, MAPSTART, INODESTART, Bitmap(maps, hole, maps), disk, map[0 := FileOf(hole)],
      Owners(maps, hole));
    f := new File(fs, 0, true);
    f.off := SIZE;
  }

  /** A chunk appended to that file is written, and logs exactly six blocks and its bitmap blocks: four data
      blocks, the indirect block, the inode, and up to four of the bitmap.  If the half-full block is missing
      it is up to five of the bitmap, and more than an operation may log. */
  method Append(maps: nat, hole: bool, chunk: seq<Byte>) returns (f: File, r: int)
    requires Rows(maps, hole) && |chunk| == CHUNK
    ensures f.fs.Valid() && MapCount(f.fs.size) == maps
    ensures r == CHUNK && |f.fs.LoggedBlocks()| == 6 + maps
    ensures maps == Spares(hole) ==> |f.fs.LoggedBlocks()| == if hole then MAXOPBLOCKS + 1 else MAXOPBLOCKS
  {
    f := Image(maps, hole);
    FilePtr(f.fs.disk, hole, 11);
    r := f.WriteChunk(chunk, CHUNK);
    Finished(maps, hole, f.fs, r);
  }

  /** After the write. */
  lemma Finished(maps: nat, hole: bool, fs: FileSystem, r: int)
    requires Rows(maps, hole) && fs.Valid() && 0 in fs.inodes && fs.size == maps * BPB && fs.bmapstart == MAPSTART
    requires Given(Owners(maps, hole), fs.owner, 0, 11, 15)
    requires Noted(Owners(maps, hole), fs.owner, {}, fs.changed, {}, fs.logBlocks)
    requires 0 <= r <= CHUNK && Present(fs.disk, fs.inodes[0], fs.logBlocks, 11, Touched(SIZE, r))
    requires INODESTART in fs.logInodes
    requires |fs.LoggedBlocks()| <= 6 + Min(Spares(hole), MapCount(fs.size))
    requires r < CHUNK ==> Ptr(fs.disk, fs.inodes[0], (SIZE + r) / BSIZE) == 0
    requires r < CHUNK ==> NoneFree(fs.owner)
    ensures r == CHUNK && |fs.LoggedBlocks()| == 6 + maps
  {
    if r < CHUNK {
      ShortOf(maps, hole, fs, (SIZE + r) / BSIZE);
    }
    Logged(maps, hole, fs);
  }

  lemma ShortOf(maps: nat, hole: bool, fs: FileSystem, n: int)
    requires Rows(maps, hole) && fs.Valid() && 0 in fs.inodes && Given(Owners(maps, hole), fs.owner, 0, 11, 15)
    requires 11 <= n < 15 && NoneFree(fs.owner)
    ensures Ptr(fs.disk, fs.inodes[0], n) != 0
  {
    fs.Open(fs.inodes);
    NotShort(maps, hole, fs.bitmap, fs.disk, fs.inodes, fs.owner, n);
  }

  /** All that must be logged is: block 12, in which the chunk begins, */
  lemma TwelveLogged(maps: nat, hole: bool, bitmap: seq<seq<bool>>, disk: Disk, inodes: map<int, Inode>,
                     owner: map<int, Slot>, blocks: set<int>)
    requires Later(maps, hole, bitmap, disk, inodes, owner)
    requires Present(disk, inodes[0], blocks, 11, 4)
    ensures (hole || 12 in blocks) && Ptr(disk, inodes[0], 11) != 0 && Ptr(disk, inodes[0], 12) != 0
    ensures Ptr(disk, inodes[0], 13) != 0 && Ptr(disk, inodes[0], 14) != 0
  {
    if !hole {
      assert owner[12] == Data(0, 11) && SlotOk(disk, inodes, 12, owner[12]);
    }
    assert Ptr(disk, inodes[0], 11) != 0 && (hole || Ptr(disk, inodes[0], 11) == 12);
  }

  /** and the four blocks that it takes, with their bits. */
  lemma SpareLogged(maps: nat, hole: bool, owner: map<int, Slot>, changed: set<int>, blocks: set<int>)
    requires Rows(maps, hole) && Noted(Owners(maps, hole), owner, {}, changed, {}, blocks)
    requires AllUsed(maps, hole, owner)
    ensures AllIn(maps, hole, changed) && AllIn(maps, hole, blocks)
  {
    forall k: nat {:trigger Spare(maps, k)} | k < Spares(hole)
      ensures Spare(maps, k) in changed && Spare(maps, k) in blocks
    {
      assert owner[Spare(maps, k)] != Free && Owners(maps, hole)[Spare(maps, k)] == Free;
    }
  }

  lemma Taken(maps: nat, hole: bool, fs: FileSystem)
    requires Rows(maps, hole) && fs.Valid() && 0 in fs.inodes && fs.size == maps * BPB
    requires Given(Owners(maps, hole), fs.owner, 0, 11, 15)
    requires Noted(Owners(maps, hole), fs.owner, {}, fs.changed, {}, fs.logBlocks)
    requires Present(fs.disk, fs.inodes[0], fs.logBlocks, 11, 4)
    ensures hole || 12 in fs.logBlocks
    ensures AllIn(maps, hole, fs.changed) && AllIn(maps, hole, fs.logBlocks)
  {
    fs.Open(fs.inodes);
    TwelveLogged(maps, hole, fs.bitmap, fs.disk, fs.inodes, fs.owner, fs.logBlocks);
    AllTaken(maps, hole, fs.bitmap, fs.disk, fs.inodes, fs.owner);
    SpareLogged(maps, hole, fs.owner, fs.changed, fs.logBlocks);
  }

  /** The end of the account. */
  lemma Logged(maps: nat, hole: bool, fs: FileSystem)
    requires Rows(maps, hole) && fs.Valid() && 0 in fs.inodes && fs.size == maps * BPB && fs.bmapstart == MAPSTART
    requires Given(Owners(maps, hole), fs.owner, 0, 11, 15)
    requires Noted(Owners(maps, hole), fs.owner, {}, fs.changed, {}, fs.logBlocks)
    requires Present(fs.disk, fs.inodes[0], fs.logBlocks, 11, 4) && INODESTART in fs.logInodes
    requires |fs.LoggedBlocks()| <= 6 + Min(Spares(hole), MapCount(fs.size))
    ensures |fs.LoggedBlocks()| == 6 + maps
  {
    fs.OpenLog(fs.inodes);
    Taken(maps, hole, fs);
    LeastLogged(maps, hole, fs.changed, fs.logBlocks, fs.logInodes);
    LeastSize(maps, hole);
    SubsetSize(Least(maps, hole), fs.LoggedBlocks());
  }
}
