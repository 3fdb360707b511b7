/** The free blocks that a write to a file needs. */
module FsRoom {
  import opened Basics
  import opened FsBlocks

  /** A slot of file i: its indirect block, if blocks up to hi need one, or one of its blocks from lo to hi. */
  predicate SlotIn(o: Slot, i: int, lo: int, hi: int) {
    (o == Indirect(i) && hi > NDIRECT) || (o.Data? && o.i == i && lo <= o.bn < hi)
  }

  /** Some free blocks have become blocks of file i, and no other block has changed hands. */
  ghost predicate Given(owner: map<int, Slot>, owner': map<int, Slot>, i: int, lo: int, hi: int) {
    && owner'.Keys == owner.Keys
    && (forall b {:trigger owner'[b]} | b in owner ::
          owner'[b] == owner[b] || (owner[b] == Free && SlotIn(owner'[b], i, lo, hi)))
  }

  ghost predicate NoneFree(owner: map<int, Slot>) {
    forall b {:trigger owner[b]} | b in owner :: owner[b] != Free
  }

  ghost function FreeBlocks(owner: map<int, Slot>): set<int> { set b | b in owner && owner[b] == Free }

  /** The blocks from lo to hi that a file does not have. */
  ghost function Missing(disk: Disk, ip: Inode, lo: int, hi: int): set<int> {
    set bn | lo <= bn < hi && Ptr(disk, ip, bn) == 0
  }

  /** A file that is to have its blocks from lo to hi also needs an indirect block. */
  predicate LacksIndirect(ip: Inode, lo: int, hi: int) { lo < hi && NDIRECT < hi && IndirectOf(ip) == 0 }

  /** There is a free block for each block that is missing from lo to hi, and for the indirect block. */
  ghost predicate Enough(disk: Disk, ip: Inode, owner: map<int, Slot>, lo: int, hi: int) {
    |Missing(disk, ip, lo, hi)| + (if LacksIndirect(ip, lo, hi) then 1 else 0) <= |FreeBlocks(owner)|
  }

  lemma {:induction false} Injective(s: set<int>, f: map<int, int>, t: set<int>)
    requires forall x | x in s :: x in f && f[x] in t
    requires forall x, y | x in s && y in s && x != y :: f[x] != f[y]
    ensures |s| <= |t|
  {
    if s != {} {
      var x := SomeMember(s);
      Injective(s - {x}, f, t - {f[x]});
    }
  }

  /** The disk is full, and block bn is still missing: of the holes from lo to hi at least one is left. */
  lemma HolesFilled(disk: Disk, ip: Inode, owner: map<int, Slot>, disk': Disk, ip': Inode, owner': map<int, Slot>,
                    i: int, lo: int, hi: int, bn: int)
    requires InodeOk(disk, owner, i, ip) && Given(owner, owner', i, lo, hi) && NoneFree(owner')
    requires forall b {:trigger owner'[b]} | b in owner' && InFile(owner'[b], i) ::
      SlotOk(disk', map[i := ip'], b, owner'[b])
    requires lo <= bn < hi && Ptr(disk', ip', bn) == 0 && 0 in owner && owner[0] == Meta
    ensures |FreeBlocks(owner) - {IndirectOf(ip')}| < |Missing(disk, ip, lo, hi)|
  {
    var data, missing := FreeBlocks(owner) - {IndirectOf(ip')}, Missing(disk, ip, lo, hi);
    var f := map b | b in data :: if owner'[b].Data? then owner'[b].bn else -1;
    forall b | b in data ensures f[b] in missing - {bn} && Ptr(disk', ip', f[b]) == b {
      assert b != 0;
      GivenMissing(disk, ip, owner, disk', ip', owner', i, lo, hi, b);
    }
    Injective(data, f, missing - {bn});
    StaysPresent(disk, ip, owner, disk', ip', owner', i, lo, hi, bn);
    assert bn in missing;
  }

  /** Then there were not enough blocks. */
  lemma RanShort(disk: Disk, ip: Inode, owner: map<int, Slot>, disk': Disk, ip': Inode, owner': map<int, Slot>,
                 i: int, lo: int, hi: int, bn: int)
    requires InodeOk(disk, owner, i, ip) && InodeOk(disk', owner', i, ip')
    requires forall b {:trigger owner'[b]} | b in owner' && InFile(owner'[b], i) ::
      SlotOk(disk', map[i := ip'], b, owner'[b])
    requires Given(owner, owner', i, lo, hi) && NoneFree(owner') && lo <= bn < hi && Ptr(disk', ip', bn) == 0
    requires 0 in owner && owner[0] == Meta
    ensures !Enough(disk, ip, owner, lo, hi)
  {
    HolesFilled(disk, ip, owner, disk', ip', owner', i, lo, hi, bn);
    var free, d := FreeBlocks(owner), IndirectOf(ip');
    if d in free {
      assert owner'[d] == Indirect(i) && owner[IndirectOf(ip)] != Free;
      assert |free - {d}| == |free| - 1;
    } else {
      assert free - {d} == free;
    }
  }

  lemma StaysPresent(disk: Disk, ip: Inode, owner: map<int, Slot>, disk': Disk, ip': Inode, owner': map<int, Slot>,
                     i: int, lo: int, hi: int, bn: int)
    requires InodeOk(disk, owner, i, ip) && Given(owner, owner', i, lo, hi)
    requires forall b {:trigger owner'[b]} | b in owner' && InFile(owner'[b], i) ::
      SlotOk(disk', map[i := ip'], b, owner'[b])
    ensures Ptr(disk, ip, bn) != 0 ==> Ptr(disk', ip', bn) == Ptr(disk, ip, bn)
  {
    assert PtrOk(disk, owner, i, ip, bn);
    var b := Ptr(disk, ip, bn);
    assert b != 0 ==> owner'[b] == owner[b];
  }

  /** A block that was given away, other than the indirect block, fills a hole. */
  lemma GivenMissing(disk: Disk, ip: Inode, owner: map<int, Slot>, disk': Disk, ip': Inode, owner': map<int, Slot>,
                     i: int, lo: int, hi: int, b: int)
    requires InodeOk(disk, owner, i, ip) && Given(owner, owner', i, lo, hi) && NoneFree(owner')
    requires forall b {:trigger owner'[b]} | b in owner' && InFile(owner'[b], i) ::
      SlotOk(disk', map[i := ip'], b, owner'[b])
    requires b in owner && owner[b] == Free && b != IndirectOf(ip')
    ensures var o := owner'[b];
            o.Data? && o.i == i && lo <= o.bn < hi && Ptr(disk, ip, o.bn) == 0 && Ptr(disk', ip', o.bn) == b
  {
    var o := owner'[b];
    assert SlotIn(o, i, lo, hi);
    assert SlotOk(disk', map[i := ip'], b, o);
    if o.Data? {
      assert PtrOk(disk, owner, i, ip, o.bn);
      StaysPresent(disk, ip, owner, disk', ip', owner', i, lo, hi, o.bn);
    }
  }

  lemma WasEnough(disk: Disk, ip: Inode, owner: map<int, Slot>, disk': Disk, ip': Inode, owner': map<int, Slot>,
                  i: int, lo: int, hi: int)
    requires InodeOk(disk, owner, i, ip) && InodeOk(disk', owner', i, ip') && Given(owner, owner', i, lo, hi)
    requires forall b {:trigger owner[b]} | b in owner && InFile(owner[b], i) :: SlotOk(disk, map[i := ip], b, owner[b])
    requires hi <= MAXFILE && forall bn {:trigger Ptr(disk', ip', bn)} | lo <= bn < hi :: Ptr(disk', ip', bn) != 0
    ensures Enough(disk, ip, owner, lo, hi)
  {
    var free, missing := FreeBlocks(owner), Missing(disk, ip, lo, hi);
    var d := IndirectOf(ip');
    var f := map bn | bn in missing :: Ptr(disk', ip', bn);
    forall bn | bn in missing ensures f[bn] in free - {d} && owner'[f[bn]] == Data(i, bn) {
      assert PtrOk(disk', owner', i, ip', bn);
      var b := f[bn];
      assert owner'[b] == owner[b] || owner[b] == Free;
      assert owner[b] == Data(i, bn) ==> SlotOk(disk, map[i := ip], b, owner[b]);
    }
    Injective(missing, f, free - {d});
    if LacksIndirect(ip, lo, hi) {
      assert Ptr(disk', ip', hi - 1) != 0;
      assert owner'[d] == Indirect(i);
      assert owner[d] == Indirect(i) ==> SlotOk(disk, map[i := ip], d, owner[d]);
      assert d in free;
    } else if d in free {
      assert free == free - {d} + {d};
    } else {
      assert free == free - {d};
    }
  }
}
