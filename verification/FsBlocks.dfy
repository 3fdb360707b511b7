/** Disk blocks of the file system: who owns each, and what an inode's block map says. */
module FsBlocks {
  import opened Basics

  const BPB := 8192
  const NDIRECT := 12
  const NINDIRECT := 256
  const MAXFILE := 268

  type Byte = x: int | 0 <= x < 256
  type Block = b: seq<Byte> | |b| == BSIZE witness seq(BSIZE, _ => 0)

  const ZEROS: Block := seq(BSIZE, _ => 0)

  /** The j-th little-endian uint of a block. */
  function UintAt(b: Block, j: int): nat
    requires 0 <= j < NINDIRECT
  {
    var b0: int, b1: int, b2: int, b3: int := b[4 * j], b[4 * j + 1], b[4 * j + 2], b[4 * j + 3];
    b0 + 0x100 * b1 + 0x1_0000 * b2 + 0x100_0000 * b3
  }

  function PutUint(b: Block, j: int, x: nat): Block
    requires 0 <= j < NINDIRECT && x < 0x1_0000_0000
  {
    b[4 * j := x % 0x100][4 * j + 1 := x / 0x100 % 0x100]
      [4 * j + 2 := x / 0x1_0000 % 0x100][4 * j + 3 := x / 0x100_0000]
  }

  lemma UintPut(b: Block, j: int, x: nat, k: int)
    requires 0 <= j < NINDIRECT && 0 <= k < NINDIRECT && x < 0x1_0000_0000
    ensures UintAt(PutUint(b, j, x), k) == if k == j then x else UintAt(b, k)
  {
    Digits(x);
  }

  lemma Digits(x: nat)
    requires x < 0x1_0000_0000
    ensures x % 0x100 + 0x100 * (x / 0x100 % 0x100) + 0x1_0000 * (x / 0x1_0000 % 0x100)
            + 0x100_0000 * (x / 0x100_0000) == x
  {
    assert x / 0x1_0000 == x / 0x100 / 0x100;
    assert x / 0x100_0000 == x / 0x1_0000 / 0x100;
  }

  datatype Inode = Inode(addrs: seq<int>, size: nat)

  type Disk = map<int, Block>

  function IndirectOf(ip: Inode): int { if |ip.addrs| == NDIRECT + 1 then ip.addrs[NDIRECT] else 0 }

  /** The disk block with block bn of a file; 0 when there is none. */
  function Ptr(disk: Disk, ip: Inode, bn: int): int {
    if |ip.addrs| != NDIRECT + 1 || bn < 0 || bn >= MAXFILE then 0
    else if bn < NDIRECT then ip.addrs[bn]
    else if IndirectOf(ip) == 0 || IndirectOf(ip) !in disk then 0
    else UintAt(disk[IndirectOf(ip)], bn - NDIRECT)
  }

  // ---------------------------------------------------------------- who owns a block

  /** A block holds metadata, is free, holds block bn of file i, or is its indirect block; or it has
      just been allocated, or is about to be freed. */
  datatype Slot = Meta | Free | Held | Data(i: int, bn: int) | Indirect(i: int)

  /** The bitmap says of block b whether it is in use. */
  ghost predicate BitOk(bitmap: seq<seq<bool>>, owner: map<int, Slot>, b: int) {
    b in owner ==> 0 <= b / BPB < |bitmap| && |bitmap[b / BPB]| == BPB && bitmap[b / BPB][b % BPB] == (owner[b] != Free)
  }

  ghost predicate SlotOk(disk: Disk, inodes: map<int, Inode>, b: int, o: Slot) {
    match o
    case Data(i, bn) => i in inodes && 0 <= bn < MAXFILE && Ptr(disk, inodes[i], bn) == b
    case Indirect(i) => i in inodes && IndirectOf(inodes[i]) == b != 0
    case _ => true
  }

  ghost predicate PtrOk(disk: Disk, owner: map<int, Slot>, i: int, ip: Inode, bn: int) {
    var b := Ptr(disk, ip, bn);
    b != 0 ==> b in owner && owner[b] == Data(i, bn)
  }

  ghost predicate InodeOk(disk: Disk, owner: map<int, Slot>, i: int, ip: Inode) {
    && |ip.addrs| == NDIRECT + 1
    && (IndirectOf(ip) != 0 ==> IndirectOf(ip) in owner && owner[IndirectOf(ip)] == Indirect(i))
    && (forall bn {:trigger Ptr(disk, ip, bn)} {:trigger PtrOk(disk, owner, i, ip, bn)} ::
          PtrOk(disk, owner, i, ip, bn))
  }

  /** Every block below size is in use exactly if it is metadata, or in just one slot of one file. */
  ghost predicate FsOk(bitmap: seq<seq<bool>>, disk: Disk, inodes: map<int, Inode>, owner: map<int, Slot>) {
    && disk.Keys == owner.Keys && 0 in owner && owner[0] == Meta
    && (forall b {:trigger b in owner} | b in owner :: b < 0x1_0000_0000)
    && (forall b :: BitOk(bitmap, owner, b))
    && (forall b {:trigger owner[b]} | b in owner :: SlotOk(disk, inodes, b, owner[b]))
    && (forall i {:trigger inodes[i]} | i in inodes :: InodeOk(disk, owner, i, inodes[i]))
  }

  /** No block below the size of a file is missing. */
  ghost predicate NoHoles(disk: Disk, ip: Inode) {
    && ip.size <= MAXFILE * BSIZE
    && (forall bn {:trigger Ptr(disk, ip, bn)} | 0 <= bn && bn * BSIZE < ip.size :: Ptr(disk, ip, bn) != 0)
  }

  /** Byte k of a file. */
  function ByteAt(disk: Disk, ip: Inode, k: nat): Byte {
    var b := Ptr(disk, ip, k / BSIZE);
    if b == 0 || b !in disk then 0 else disk[b][k % BSIZE]
  }

  // ---------------------------------------------------------------- what leaves a file alone

  /** Blocks that a change to file i does not touch. */
  predicate Outside(o: Slot, i: int) {
    o.Meta? || o.Free? || (o.Data? && o.i != i) || (o.Indirect? && o.i != i)
  }

  lemma PtrFrame(disk: Disk, disk': Disk, ip: Inode, bn: int)
    requires disk'.Keys == disk.Keys
    requires IndirectOf(ip) != 0 && IndirectOf(ip) in disk ==> disk'[IndirectOf(ip)] == disk[IndirectOf(ip)]
    ensures Ptr(disk', ip, bn) == Ptr(disk, ip, bn)
  {}

  lemma InodeFrame(disk: Disk, owner: map<int, Slot>, disk': Disk, owner': map<int, Slot>, i: int, ip: Inode)
    requires InodeOk(disk, owner, i, ip) && disk'.Keys == disk.Keys == owner.Keys == owner'.Keys
    requires forall b {:trigger owner'[b]} | b in owner && (owner[b].Data? || owner[b].Indirect?) && owner[b].i == i ::
      owner'[b] == owner[b]
    requires forall b {:trigger disk'[b]} | b in disk && owner[b] == Indirect(i) :: disk'[b] == disk[b]
    ensures InodeOk(disk', owner', i, ip)
    ensures forall bn {:trigger Ptr(disk', ip, bn)} :: Ptr(disk', ip, bn) == Ptr(disk, ip, bn)
  {
    var d := IndirectOf(ip);
    if d != 0 {
      assert owner'[d] == owner[d] && disk'[d] == disk[d];
    }
    forall bn {:trigger Ptr(disk', ip, bn)} {:trigger PtrOk(disk', owner', i, ip, bn)}
      ensures Ptr(disk', ip, bn) == Ptr(disk, ip, bn) && PtrOk(disk', owner', i, ip, bn)
    {
      assert d == 0 || d in disk;
      PtrFrame(disk, disk', ip, bn);
      assert PtrOk(disk, owner, i, ip, bn);
      var b := Ptr(disk, ip, bn);
      assert b != 0 ==> owner'[b] == owner[b];
    }
  }

  /** A change to one file, and to blocks that it has or takes. */
  lemma Changed(bitmap: seq<seq<bool>>, disk: Disk, inodes: map<int, Inode>, owner: map<int, Slot>,
                i: int, disk': Disk, ip': Inode, owner': map<int, Slot>)
    requires FsOk(bitmap, disk, inodes, owner) && i in inodes && disk'.Keys == disk.Keys == owner'.Keys
    requires InodeOk(disk', owner', i, ip')
    requires forall b {:trigger owner'[b]} {:trigger disk'[b]} | b in owner && Outside(owner[b], i) ::
      owner'[b] == owner[b] && disk'[b] == disk[b]
    requires forall b {:trigger owner'[b]} | b in owner && !Outside(owner[b], i) ::
      owner'[b] != Free && owner'[b] != Meta && SlotOk(disk', map[i := ip'], b, owner'[b])
    ensures FsOk(bitmap, disk', inodes[i := ip'], owner')
  {
    var inodes' := inodes[i := ip'];
    forall j {:trigger inodes'[j]} | j in inodes' ensures InodeOk(disk', owner', j, inodes'[j]) {
      if j != i {
        OtherInode(disk, owner, disk', owner', i, j, inodes[j]);
      }
    }
    forall b | b in owner' ensures SlotOk(disk', inodes', b, owner'[b]) {
      assert SlotOk(disk, inodes, b, owner[b]);
      if owner[b].Data? && owner[b].i != i {
        OtherInode(disk, owner, disk', owner', i, owner[b].i, inodes[owner[b].i]);
      }
    }
    forall b ensures BitOk(bitmap, owner', b) {
      assert BitOk(bitmap, owner, b);
    }
  }

  lemma OtherInode(disk: Disk, owner: map<int, Slot>, disk': Disk, owner': map<int, Slot>, i: int, j: int, ip: Inode)
    requires InodeOk(disk, owner, j, ip) && j != i && disk'.Keys == disk.Keys == owner.Keys == owner'.Keys
    requires forall b {:trigger owner'[b]} {:trigger disk'[b]} | b in owner && Outside(owner[b], i) ::
      owner'[b] == owner[b] && disk'[b] == disk[b]
    ensures InodeOk(disk', owner', j, ip)
    ensures forall bn {:trigger Ptr(disk', ip, bn)} :: Ptr(disk', ip, bn) == Ptr(disk, ip, bn)
  {
    InodeFrame(disk, owner, disk', owner', j, ip);
  }

  // ---------------------------------------------------------------- the steps

  /** A block that is no indirect block is written. */
  lemma Written(bitmap: seq<seq<bool>>, disk: Disk, inodes: map<int, Inode>, owner: map<int, Slot>, b: int, x: Block)
    requires FsOk(bitmap, disk, inodes, owner) && b in owner && !owner[b].Indirect?
    ensures FsOk(bitmap, disk[b := x], inodes, owner)
    ensures forall i, bn {:trigger Ptr(disk[b := x], inodes[i], bn)} | i in inodes ::
      Ptr(disk[b := x], inodes[i], bn) == Ptr(disk, inodes[i], bn)
  {
    var disk' := disk[b := x];
    forall i | i in inodes ensures InodeOk(disk', owner, i, inodes[i]) {
      InodeFrame(disk, owner, disk', owner, i, inodes[i]);
    }
    forall i, bn {:trigger Ptr(disk', inodes[i], bn)} | i in inodes
      ensures Ptr(disk', inodes[i], bn) == Ptr(disk, inodes[i], bn)
    {
      InodeFrame(disk, owner, disk', owner, i, inodes[i]);
    }
    forall c | c in owner ensures SlotOk(disk', inodes, c, owner[c]) {
      assert SlotOk(disk, inodes, c, owner[c]);
    }
  }

  function Mark(bitmap: seq<seq<bool>>, b: int, used: bool): seq<seq<bool>>
    requires 0 <= b / BPB < |bitmap| && |bitmap[b / BPB]| == BPB
  {
    bitmap[b / BPB := bitmap[b / BPB][b % BPB := used]]
  }

  /** Block b passes from o to o', neither of them a slot of a file, and its bit is set to match. */
  lemma Marked(bitmap: seq<seq<bool>>, disk: Disk, inodes: map<int, Inode>, owner: map<int, Slot>, b: int, o': Slot)
    requires FsOk(bitmap, disk, inodes, owner) && b in owner && (owner[b].Free? || owner[b].Held?)
    requires (o'.Free? || o'.Held?)
    ensures 0 <= b / BPB < |bitmap| && |bitmap[b / BPB]| == BPB && bitmap[b / BPB][b % BPB] == owner[b].Held?
    ensures FsOk(Mark(bitmap, b, o'.Held?), disk, inodes, owner[b := o'])
  {
    assert BitOk(bitmap, owner, b);
    var bitmap', owner' := Mark(bitmap, b, o'.Held?), owner[b := o'];
    forall c ensures BitOk(bitmap', owner', c) {
      assert BitOk(bitmap, owner, c);
      assert c / BPB == b / BPB && c % BPB == b % BPB ==> c == b;
    }
    forall i | i in inodes ensures InodeOk(disk, owner', i, inodes[i]) {
      InodeFrame(disk, owner, disk, owner', i, inodes[i]);
    }
  }

  /** bmap() enters block a into the inode itself. */
  lemma DirectSet(bitmap: seq<seq<bool>>, disk: Disk, inodes: map<int, Inode>, owner: map<int, Slot>, i: int, bn: int,
                  a: int)
    requires FsOk(bitmap, disk, inodes, owner) && i in inodes && 0 <= bn < NDIRECT && Ptr(disk, inodes[i], bn) == 0
    requires a in owner && owner[a] == Held
    ensures |inodes[i].addrs| == NDIRECT + 1
    ensures var ip' := inodes[i].(addrs := inodes[i].addrs[bn := a]);
            && FsOk(bitmap, disk, inodes[i := ip'], owner[a := Data(i, bn)])
            && (forall n {:trigger Ptr(disk, ip', n)} ::
                  Ptr(disk, ip', n) == if n == bn then a else Ptr(disk, inodes[i], n))
  {
    var ip := inodes[i];
    var ip', owner' := ip.(addrs := ip.addrs[bn := a]), owner[a := Data(i, bn)];
    forall n {:trigger Ptr(disk, ip', n)} {:trigger PtrOk(disk, owner', i, ip', n)}
      ensures Ptr(disk, ip', n) == (if n == bn then a else Ptr(disk, ip, n)) && PtrOk(disk, owner', i, ip', n)
    {
      assert PtrOk(disk, owner, i, ip, n);
    }
    SlotsKept(disk, inodes, owner, i, disk, ip');
    Changed(bitmap, disk, inodes, owner, i, disk, ip', owner');
  }

  /** ... or makes the zeroed block a its indirect block, */
  lemma IndirectSet(bitmap: seq<seq<bool>>, disk: Disk, inodes: map<int, Inode>, owner: map<int, Slot>, i: int, a: int)
    requires FsOk(bitmap, disk, inodes, owner) && i in inodes && IndirectOf(inodes[i]) == 0
    requires a in owner && owner[a] == Held && disk[a] == ZEROS
    ensures |inodes[i].addrs| == NDIRECT + 1
    ensures var ip' := inodes[i].(addrs := inodes[i].addrs[NDIRECT := a]);
            && FsOk(bitmap, disk, inodes[i := ip'], owner[a := Indirect(i)])
            && (forall n {:trigger Ptr(disk, ip', n)} :: Ptr(disk, ip', n) == Ptr(disk, inodes[i], n))
  {
    var ip := inodes[i];
    var ip', owner' := ip.(addrs := ip.addrs[NDIRECT := a]), owner[a := Indirect(i)];
    forall n {:trigger Ptr(disk, ip', n)} {:trigger PtrOk(disk, owner', i, ip', n)}
      ensures Ptr(disk, ip', n) == Ptr(disk, ip, n) && PtrOk(disk, owner', i, ip', n)
    {
      assert PtrOk(disk, owner, i, ip, n);
    }
    SlotsKept(disk, inodes, owner, i, disk, ip');
    Changed(bitmap, disk, inodes, owner, i, disk, ip', owner');
  }

  /** ... or enters it into the indirect block. */
  lemma EntrySet(bitmap: seq<seq<bool>>, disk: Disk, inodes: map<int, Inode>, owner: map<int, Slot>, i: int, bn: int,
                 a: int)
    requires FsOk(bitmap, disk, inodes, owner) && i in inodes && NDIRECT <= bn < MAXFILE
    requires Ptr(disk, inodes[i], bn) == 0
    requires a in owner && owner[a] == Held && IndirectOf(inodes[i]) != 0 && 0 <= a < 0x1_0000_0000
    ensures IndirectOf(inodes[i]) in disk
    ensures var d := IndirectOf(inodes[i]); var disk' := disk[d := PutUint(disk[d], bn - NDIRECT, a)];
            && FsOk(bitmap, disk', inodes, owner[a := Data(i, bn)])
            && (forall n {:trigger Ptr(disk', inodes[i], n)} ::
                  Ptr(disk', inodes[i], n) == if n == bn then a else Ptr(disk, inodes[i], n))
            && (forall j, n {:trigger Ptr(disk', inodes[j], n)} | j in inodes && j != i ::
                  Ptr(disk', inodes[j], n) == Ptr(disk, inodes[j], n))
  {
    var ip := inodes[i];
    var d := IndirectOf(ip);
    assert owner[d] == Indirect(i);
    var disk', owner' := disk[d := PutUint(disk[d], bn - NDIRECT, a)], owner[a := Data(i, bn)];
    forall n {:trigger Ptr(disk', ip, n)} {:trigger PtrOk(disk', owner', i, ip, n)}
      ensures Ptr(disk', ip, n) == (if n == bn then a else Ptr(disk, ip, n)) && PtrOk(disk', owner', i, ip, n)
    {
      assert PtrOk(disk, owner, i, ip, n);
      EntryPtr(disk, ip, d, bn, a, n);
    }
    SlotsKept(disk, inodes, owner, i, disk', ip);
    Changed(bitmap, disk, inodes, owner, i, disk', ip, owner');
    assert inodes[i := ip] == inodes;
    forall j, n {:trigger Ptr(disk', inodes[j], n)} | j in inodes && j != i
      ensures Ptr(disk', inodes[j], n) == Ptr(disk, inodes[j], n)
    {
      OtherInode(disk, owner, disk', owner', i, j, inodes[j]);
    }
  }

  lemma EntryPtr(disk: Disk, ip: Inode, d: int, bn: int, a: int, n: int)
    requires d == IndirectOf(ip) != 0 && d in disk && NDIRECT <= bn < MAXFILE && 0 <= a < 0x1_0000_0000
    ensures var disk' := disk[d := PutUint(disk[d], bn - NDIRECT, a)];
            Ptr(disk', ip, n) == if n == bn then a else Ptr(disk, ip, n)
  {
    if NDIRECT <= n < MAXFILE {
      UintPut(disk[d], bn - NDIRECT, a, n - NDIRECT);
    }
  }

  /** The slots of file i still hold their blocks, as far as they held any. */
  lemma SlotsKept(disk: Disk, inodes: map<int, Inode>, owner: map<int, Slot>, i: int, disk': Disk, ip': Inode)
    requires i in inodes && 0 in owner && owner[0] == Meta
    requires forall b {:trigger owner[b]} | b in owner :: SlotOk(disk, inodes, b, owner[b])
    requires forall n {:trigger Ptr(disk', ip', n)} ::
      Ptr(disk, inodes[i], n) != 0 ==> Ptr(disk', ip', n) == Ptr(disk, inodes[i], n)
    requires IndirectOf(inodes[i]) != 0 ==> IndirectOf(ip') == IndirectOf(inodes[i])
    ensures forall b {:trigger owner[b]} | b in owner && (owner[b].Data? || owner[b].Indirect?) && owner[b].i == i ::
      SlotOk(disk', map[i := ip'], b, owner[b])
  {
    forall b {:trigger owner[b]} | b in owner && (owner[b].Data? || owner[b].Indirect?) && owner[b].i == i
      ensures SlotOk(disk', map[i := ip'], b, owner[b])
    {
      assert SlotOk(disk, inodes, b, owner[b]);
      if owner[b].Data? {
        assert Ptr(disk', ip', owner[b].bn) == Ptr(disk, inodes[i], owner[b].bn) || b == 0;
      }
    }
  }

  // ---------------------------------------------------------------- truncation

  predicate InFile(o: Slot, i: int) { (o.Data? || o.Indirect?) && o.i == i }

  const NO_BLOCKS := Inode(seq(NDIRECT + 1, _ => 0), 0)

  /** The blocks of file i are handed over to be freed, and the file is set aside. */
  lemma Detached(bitmap: seq<seq<bool>>, disk: Disk, inodes: map<int, Inode>, owner: map<int, Slot>, i: int,
                 owner': map<int, Slot>)
    requires FsOk(bitmap, disk, inodes, owner) && owner'.Keys == owner.Keys
    requires forall b {:trigger owner'[b]} | b in owner :: owner'[b] == if InFile(owner[b], i) then Held else owner[b]
    ensures FsOk(bitmap, disk, inodes - {i}, owner')
  {
    var others := inodes - {i};
    forall j {:trigger others[j]} | j in others ensures InodeOk(disk, owner', j, others[j]) {
      InodeFrame(disk, owner, disk, owner', j, inodes[j]);
    }
    forall b ensures BitOk(bitmap, owner', b) {
      assert BitOk(bitmap, owner, b);
    }
    forall b | b in owner' ensures SlotOk(disk, others, b, owner'[b]) {
      assert SlotOk(disk, inodes, b, owner[b]);
    }
  }

  /** A file without blocks joins the others. */
  lemma Attached(bitmap: seq<seq<bool>>, disk: Disk, others: map<int, Inode>, owner: map<int, Slot>, i: int, size: nat)
    requires FsOk(bitmap, disk, others, owner) && i !in others
    ensures FsOk(bitmap, disk, others[i := NO_BLOCKS.(size := size)], owner)
  {
    var ip := NO_BLOCKS.(size := size);
    var inodes := others[i := ip];
    forall bn ensures Ptr(disk, ip, bn) == 0 {}
    forall j {:trigger inodes[j]} | j in inodes ensures InodeOk(disk, owner, j, inodes[j]) {
      assert j != i ==> InodeOk(disk, owner, j, others[j]);
    }
  }
}
