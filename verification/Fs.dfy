/** The block allocator and inode contents, in place on the disk, with the blocks each operation
    logs. */
module Fs {
  import opened Basics
  import opened FsBlocks
  import opened FsRoom

  const IPB := 16

  /** The bytes of all files, at all positions. */
  ghost predicate SameBytes(disk: Disk, inodes: map<int, Inode>, disk': Disk, inodes': map<int, Inode>) {
    && inodes'.Keys == inodes.Keys
    && (forall j, k: nat {:trigger ByteAt(disk', inodes'[j], k)} | j in inodes ::
          ByteAt(disk', inodes'[j], k) == ByteAt(disk, inodes[j], k))
  }

  lemma SameBytesSelf(disk: Disk, inodes: map<int, Inode>)
    ensures SameBytes(disk, inodes, disk, inodes)
  {}

  lemma SameBytesTrans(disk: Disk, inodes: map<int, Inode>, disk': Disk, inodes': map<int, Inode>, disk'': Disk,
                       inodes'': map<int, Inode>)
    requires SameBytes(disk, inodes, disk', inodes') && SameBytes(disk', inodes', disk'', inodes'')
    ensures SameBytes(disk, inodes, disk'', inodes'')
  {
    forall j, k: nat {:trigger ByteAt(disk'', inodes''[j], k)} | j in inodes
      ensures ByteAt(disk'', inodes''[j], k) == ByteAt(disk, inodes[j], k)
    {
      assert ByteAt(disk', inodes'[j], k) == ByteAt(disk, inodes[j], k);
    }
  }

  /** What bmap() may do to the block map of file i, for its block bn: it adds that block, and the
      indirect block, from free ones. */
  ghost predicate Extended(disk: Disk, inodes: map<int, Inode>, owner: map<int, Slot>, disk': Disk,
                           inodes': map<int, Inode>, owner': map<int, Slot>,
                           i: int, bn: int) {
    && i in inodes && i in inodes' && inodes' == inodes[i := inodes'[i]] && inodes'[i].size == inodes[i].size
    && disk'.Keys == disk.Keys == owner.Keys == owner'.Keys
    && (IndirectOf(inodes[i]) != 0 ==> IndirectOf(inodes'[i]) == IndirectOf(inodes[i]))
    && forall k {:trigger Key(k, owner')} | Key(k, owner') ::
      ExtendedAt(disk, inodes, owner, disk', inodes', owner', i, bn)
  }

  /** What may become of a free block. */
  predicate SlotFor(o: Slot, i: int, bn: int) {
    o == Free || o == Data(i, bn) || (o == Indirect(i) && NDIRECT <= bn)
  }

  ghost predicate ExtendedAt(disk: Disk, inodes: map<int, Inode>, owner: map<int, Slot>, disk': Disk,
                             inodes': map<int, Inode>, owner': map<int, Slot>,
                             i: int, bn: int)
    requires i in inodes && i in inodes' && inodes' == inodes[i := inodes'[i]]
    requires disk'.Keys == disk.Keys == owner.Keys == owner'.Keys
  {
    && (forall j,
      n {:trigger Ptr(disk', inodes'[j], n)} | j in inodes && (j != i || n != bn || Ptr(disk, inodes[j], n) != 0) ::
      Ptr(disk', inodes'[j], n) == Ptr(disk, inodes[j], n))
    && (forall b {:trigger owner'[b]} | b in owner ::
          if owner[b] == Free then SlotFor(owner'[b], i, bn) else owner'[b] == owner[b])
    && (forall b {:trigger disk'[b]} | b in disk && owner[b].Data? :: disk'[b] == disk[b])
  }

  lemma ExtendedGiven(disk: Disk, inodes: map<int, Inode>, owner: map<int, Slot>, disk': Disk, inodes': map<int, Inode>,
                      owner': map<int, Slot>,
                      i: int, bn: int)
    requires Extended(disk, inodes, owner, disk', inodes', owner', i, bn)
    ensures Given(owner, owner', i, bn, bn + 1)
  {
    assert Key(0, owner');
  }

  lemma ExtendedSelf(disk: Disk, inodes: map<int, Inode>, owner: map<int, Slot>, i: int, bn: int)
    requires i in inodes && disk.Keys == owner.Keys
    ensures Extended(disk, inodes, owner, disk, inodes, owner, i, bn)
  {}

  /** A block that is added is zero, as a missing block reads. */
  lemma ExtendedBytes(bitmap: seq<seq<bool>>, disk: Disk, inodes: map<int, Inode>, owner: map<int, Slot>, disk': Disk,
                      inodes': map<int, Inode>, owner': map<int, Slot>,
                      i: int, bn: int)
    requires FsOk(bitmap, disk, inodes, owner) && Extended(disk, inodes, owner, disk', inodes', owner', i, bn)
    requires var b := Ptr(disk', inodes'[i], bn); Ptr(disk, inodes[i], bn) == 0 != b && b in disk' ==> disk'[b] == ZEROS
    ensures SameBytes(disk, inodes, disk', inodes')
  {
    assert Key(0, owner');
    forall j, k: nat {:trigger ByteAt(disk', inodes'[j], k)} | j in inodes
      ensures ByteAt(disk', inodes'[j], k) == ByteAt(disk, inodes[j], k)
    {
      assert InodeOk(disk, owner, j, inodes[j]);
      assert PtrOk(disk, owner, j, inodes[j], k / BSIZE);
      var b, b' := Ptr(disk, inodes[j], k / BSIZE), Ptr(disk', inodes'[j], k / BSIZE);
      assert b != 0 ==> disk'[b] == disk[b];
    }
  }

  lemma ExtendedTrans(disk: Disk, inodes: map<int, Inode>, owner: map<int, Slot>, disk': Disk, inodes': map<int, Inode>,
                      owner': map<int, Slot>,
                      disk'': Disk, inodes'': map<int, Inode>, owner'': map<int, Slot>, i: int, bn: int)
    requires Extended(disk, inodes, owner, disk', inodes', owner', i, bn)
    requires Extended(disk', inodes', owner', disk'', inodes'', owner'', i, bn)
    ensures Extended(disk, inodes, owner, disk'', inodes'', owner'', i, bn)
  {
    assert Key(0, owner') && Key(0, owner'');
    forall j, n {:trigger Ptr(disk'', inodes''[j], n)} | j in inodes
      && (j != i || n != bn || Ptr(disk, inodes[j], n) != 0)
      ensures Ptr(disk'', inodes''[j], n) == Ptr(disk, inodes[j], n)
    {
      assert Ptr(disk', inodes'[j], n) == Ptr(disk, inodes[j], n);
    }
    forall b {:trigger owner''[b]} {:trigger disk''[b]} | b in owner
      ensures if owner[b] == Free then SlotFor(owner''[b], i, bn) else owner''[b] == owner[b]
      ensures owner[b].Data? ==> disk''[b] == disk[b]
    {
      assert owner'[b] == owner[b] || owner[b] == Free;
      assert owner[b].Data? ==> disk'[b] == disk[b];
    }
  }

  /** The bytes of file i from off on are now those of src, and no other byte has changed. */
  ghost predicate Wrote(disk: Disk, inodes: map<int, Inode>, disk': Disk, inodes': map<int, Inode>, i: int, off: nat,
                        src: seq<Byte>) {
    && inodes'.Keys == inodes.Keys
    && (forall j, k: nat {:trigger ByteAt(disk', inodes'[j], k)} | j in inodes ::
         ByteAt(disk', inodes'[j], k) == if j == i
           && off <= k < off + |src| then src[k - off] else ByteAt(disk, inodes[j], k))
  }

  lemma WroteMore(disk: Disk, inodes: map<int, Inode>, disk1: Disk, inodes1: map<int, Inode>, disk2: Disk,
                  inodes2: map<int, Inode>,
                  disk3: Disk, inodes3: map<int, Inode>, i: int, off: nat, src: seq<Byte>, chunk: seq<Byte>)
    requires Wrote(disk, inodes, disk1, inodes1, i, off, src) && SameBytes(disk1, inodes1, disk2, inodes2)
    requires Wrote(disk2, inodes2, disk3, inodes3, i, off + |src|, chunk)
    ensures Wrote(disk, inodes, disk3, inodes3, i, off, src + chunk)
  {
    forall j, k: nat {:trigger ByteAt(disk3, inodes3[j], k)} | j in inodes
      ensures ByteAt(disk3, inodes3[j], k) ==
        if j == i && off <= k < off + |src + chunk| then (src + chunk)[k - off] else ByteAt(disk, inodes[j], k)
    {
      assert ByteAt(disk2, inodes2[j], k) == ByteAt(disk1, inodes1[j], k);
    }
  }

  function Splice(b: Block, o: nat, chunk: seq<Byte>): Block
    requires o + |chunk| <= BSIZE
  {
    b[..o] + chunk + b[o + |chunk|..]
  }

  /** Writing to the one block that holds block bn of file i. */
  lemma BlockBytes(bitmap: seq<seq<bool>>, disk: Disk, inodes: map<int, Inode>, owner: map<int, Slot>, i: int, bn: nat,
                   o: nat, chunk: seq<Byte>)
    requires FsOk(bitmap, disk, inodes, owner) && i in inodes && Ptr(disk, inodes[i], bn) != 0 && o + |chunk| <= BSIZE
    ensures var b := Ptr(disk, inodes[i], bn);
            && b in disk && owner[b] == Data(i, bn)
            && FsOk(bitmap, disk[b := Splice(disk[b], o, chunk)], inodes, owner)
            && (forall j, n {:trigger Ptr(disk[b := Splice(disk[b], o, chunk)], inodes[j], n)} | j in inodes ::
                  Ptr(disk[b := Splice(disk[b], o, chunk)], inodes[j], n) == Ptr(disk, inodes[j], n))
            && Wrote(disk, inodes, disk[b := Splice(disk[b], o, chunk)], inodes, i, bn * BSIZE + o, chunk)
  {
    assert InodeOk(disk, owner, i, inodes[i]) && PtrOk(disk, owner, i, inodes[i], bn);
    var b := Ptr(disk, inodes[i], bn);
    var x := Splice(disk[b], o, chunk);
    Written(bitmap, disk, inodes, owner, b, x);
    forall j, k: nat {:trigger ByteAt(disk[b := x], inodes[j], k)} | j in inodes
      ensures ByteAt(disk[b := x], inodes[j], k) ==
        if j == i
        && bn * BSIZE + o <= k < bn * BSIZE + o + |chunk| then chunk[k - (bn * BSIZE + o)]
        else ByteAt(disk, inodes[j], k)
    {
      assert InodeOk(disk, owner, j, inodes[j]) && PtrOk(disk, owner, j, inodes[j], k / BSIZE);
      assert Ptr(disk[b := x], inodes[j], k / BSIZE) == Ptr(disk, inodes[j], k / BSIZE);
      if Ptr(disk, inodes[j], k / BSIZE) == b {
        assert j == i && k / BSIZE == bn;
      }
    }
  }

  /** Only file i has changed, not in size, and no block of any file has been lost. */
  ghost predicate Kept(disk: Disk, inodes: map<int, Inode>, disk': Disk, inodes': map<int, Inode>, i: int) {
    && i in inodes && i in inodes' && inodes' == inodes[i := inodes'[i]] && inodes'[i].size == inodes[i].size
    && (forall j, n {:trigger Ptr(disk', inodes'[j], n)} | j in inodes && (j != i || Ptr(disk, inodes[j], n) != 0) ::
          Ptr(disk', inodes'[j], n) == Ptr(disk, inodes[j], n))
    && (IndirectOf(inodes[i]) != 0 ==> IndirectOf(inodes'[i]) == IndirectOf(inodes[i]))
  }

  lemma WritingStart(disk: Disk, inodes: map<int, Inode>, i: int, off: nat, logged: set<int>)
    requires i in inodes
    ensures Writing(disk, inodes, disk, inodes, logged, i, off, [], 0)
  {}

  lemma WritingStep(disk0: Disk, inodes0: map<int, Inode>, disk1: Disk, inodes1: map<int, Inode>,
                    owner1: map<int, Slot>,
                    disk2: Disk, inodes2: map<int, Inode>, owner2: map<int, Slot>, disk3: Disk, logged1: set<int>,
                      logged3: set<int>,
                    i: int, off: nat, src: seq<Byte>, chunk: seq<Byte>, c: nat)
    requires Writing(disk0, inodes0, disk1, inodes1, logged1, i, off, src, c)
    requires Extended(disk1, inodes1, owner1, disk2, inodes2, owner2, i, off / BSIZE + c)
    requires SameBytes(disk1, inodes1, disk2, inodes2)
    requires forall j, n {:trigger Ptr(disk3, inodes2[j], n)} | j in inodes2 ::
      Ptr(disk3, inodes2[j], n) == Ptr(disk2, inodes2[j], n)
    requires Ptr(disk2, inodes2[i], off / BSIZE + c) != 0
    requires logged1 <= logged3 && Ptr(disk2, inodes2[i], off / BSIZE + c) in logged3
    requires Wrote(disk2, inodes2, disk3, inodes2, i, off + |src|, chunk)
    ensures Writing(disk0, inodes0, disk3, inodes2, logged3, i, off, src + chunk, c + 1)
  {
    assert Key(0, src) && Key(0, owner2);
    WroteMore(disk0, inodes0, disk1, inodes1, disk2, inodes2, disk3, inodes2, i, off, src, chunk);
    KeptMore(disk0, inodes0, disk1, inodes1, owner1, disk2, inodes2, owner2, disk3, i, off / BSIZE + c);
    forall n {:trigger Ptr(disk3, inodes2[i], n)} | off / BSIZE <= n < off / BSIZE + c + 1
      ensures Ptr(disk3, inodes2[i], n) != 0 && Ptr(disk3, inodes2[i], n) in logged3
    {
      assert n < off / BSIZE + c ==> Ptr(disk1, inodes1[i], n) != 0;
    }
  }

  /** bmap() without the write. */
  lemma WritingStop(disk0: Disk, inodes0: map<int, Inode>, disk1: Disk, inodes1: map<int, Inode>,
                    owner1: map<int, Slot>,
                    disk2: Disk, inodes2: map<int, Inode>, owner2: map<int, Slot>, logged1: set<int>, logged2: set<int>,
                    i: int, off: nat, src: seq<Byte>, c: nat, bn: int)
    requires Writing(disk0, inodes0, disk1, inodes1, logged1, i, off, src, c) && logged1 <= logged2
    requires Extended(disk1, inodes1, owner1, disk2, inodes2, owner2, i, bn)
    requires SameBytes(disk1, inodes1, disk2, inodes2)
    ensures Writing(disk0, inodes0, disk2, inodes2, logged2, i, off, src, c)
  {
    assert Key(0, src) && Key(0, owner2);
    forall j, k: nat {:trigger ByteAt(disk2, inodes2[j], k)} | j in inodes0
      ensures ByteAt(disk2, inodes2[j], k) ==
        if j == i && off <= k < off + |src| then src[k - off] else ByteAt(disk0, inodes0[j], k)
    {
      assert ByteAt(disk1, inodes1[j], k) == ByteAt(disk1, inodes1[j], k);
    }
    KeptMore(disk0, inodes0, disk1, inodes1, owner1, disk2, inodes2, owner2, disk2, i, bn);
    forall n {:trigger Ptr(disk2, inodes2[i], n)} | off / BSIZE <= n < off / BSIZE + c
      ensures Ptr(disk2, inodes2[i], n) != 0 && Ptr(disk2, inodes2[i], n) in logged2
    {
      assert Ptr(disk1, inodes1[i], n) != 0;
    }
  }

  /** What has been written so far, and one piece more. */
  lemma OnePieceMore(src: seq<Byte>, k: nat, n: nat, w: nat)
    requires k + n <= |src| && w <= n
    ensures src[..k] + src[k..k + n][..w] == src[..k + w] && (w == n ==> src[..k] + src[k..k + n] == src[..k + n])
  {}

  /** The next block was there at the start exactly if it is there now, and the first one was. */
  lemma WritingPtr(disk0: Disk, inodes0: map<int, Inode>, disk: Disk, inodes: map<int, Inode>, logged: set<int>, i: int,
                   off: nat,
                   src: seq<Byte>, c: nat)
    requires Writing(disk0, inodes0, disk, inodes, logged, i, off, src, c)
    ensures i in inodes0 && i in inodes && inodes == inodes0[i := inodes[i]] && inodes[i].size == inodes0[i].size
    ensures forall n {:trigger Ptr(disk, inodes[i], n)} | Ptr(disk0, inodes0[i], n) != 0 :: Ptr(disk, inodes[i], n) != 0
  {
    assert Key(0, src);
  }

  lemma WritingEnd(disk0: Disk, inodes0: map<int, Inode>, disk: Disk, inodes: map<int, Inode>, inodes': map<int, Inode>,
                   logged: set<int>,
                   i: int, off: nat, src: seq<Byte>, c: nat)
    requires Writing(disk0, inodes0, disk, inodes, logged, i, off, src, c)
    requires i in inodes && inodes' == inodes[i := inodes[i].(size := Max(inodes[i].size, off + |src|))]
    requires forall j, n {:trigger Ptr(disk, inodes'[j], n)} | j in inodes' ::
      Ptr(disk, inodes'[j], n) == Ptr(disk, inodes[j], n)
    requires |src| > 0 ==> off + |src| <= (off / BSIZE + c) * BSIZE
    requires i in inodes0 && off <= inodes0[i].size && off + |src| <= MAXFILE * BSIZE
    ensures Wrote(disk0, inodes0, disk, inodes', i, off, src)
    ensures Present(disk, inodes'[i], logged, off / BSIZE, Touched(off, |src|))
    ensures forall j | j in inodes0 && NoHoles(disk0, inodes0[j]) :: NoHoles(disk, inodes'[j])
  {
    assert Key(0, src);
    forall j, k: nat {:trigger ByteAt(disk, inodes'[j], k)} | j in inodes0
      ensures ByteAt(disk, inodes'[j], k) ==
        if j == i && off <= k < off + |src| then src[k - off] else ByteAt(disk0, inodes0[j], k)
    {
      assert ByteAt(disk, inodes[j], k) == ByteAt(disk, inodes'[j], k);
    }
    forall j | j in inodes0 && NoHoles(disk0, inodes0[j]) ensures NoHoles(disk, inodes'[j]) {
      forall n {:trigger Ptr(disk, inodes'[j], n)} | 0 <= n && n * BSIZE < inodes'[j].size
        ensures Ptr(disk, inodes'[j], n) != 0
      {
        assert Ptr(disk, inodes[j], n) == Ptr(disk, inodes'[j], n);
        assert n * BSIZE < inodes0[j].size ==> Ptr(disk0, inodes0[j], n) != 0;
      }
    }
  }

  lemma KeptMore(disk: Disk, inodes: map<int, Inode>, disk1: Disk, inodes1: map<int, Inode>, owner1: map<int, Slot>,
                 disk2: Disk, inodes2: map<int, Inode>, owner2: map<int, Slot>, disk3: Disk, i: int, bn: int)
    requires Kept(disk, inodes, disk1, inodes1, i) && Extended(disk1, inodes1, owner1, disk2, inodes2, owner2, i, bn)
    requires forall j, n {:trigger Ptr(disk3, inodes2[j], n)} | j in inodes2 ::
      Ptr(disk3, inodes2[j], n) == Ptr(disk2, inodes2[j], n)
    ensures Kept(disk, inodes, disk3, inodes2, i)
    ensures forall n {:trigger Ptr(disk3, inodes2[i], n)} | Ptr(disk1, inodes1[i], n) != 0 ::
      Ptr(disk3, inodes2[i], n) == Ptr(disk1, inodes1[i], n)
  {
    assert Key(0, owner2);
    forall j, n {:trigger Ptr(disk3, inodes2[j], n)} | j in inodes && (j != i || Ptr(disk, inodes[j], n) != 0)
      ensures Ptr(disk3, inodes2[j], n) == Ptr(disk, inodes[j], n)
    {
      assert Ptr(disk1, inodes1[j], n) == Ptr(disk, inodes[j], n);
      assert Ptr(disk2, inodes2[j], n) == Ptr(disk1, inodes1[j], n);
    }
    forall n {:trigger Ptr(disk3, inodes2[i], n)} | Ptr(disk1, inodes1[i], n) != 0
      ensures Ptr(disk3, inodes2[i], n) == Ptr(disk1, inodes1[i], n)
    {
      assert Ptr(disk2, inodes2[i], n) == Ptr(disk1, inodes1[i], n);
    }
  }

  /** The blocks b0 .. b0 + c of a file are there, and have been logged. */
  ghost predicate Present(disk: Disk, ip: Inode, logged: set<int>, b0: nat, c: nat) {
    forall n {:trigger Ptr(disk, ip, n)} | b0 <= n < b0 + c :: Ptr(disk, ip, n) != 0 && Ptr(disk, ip, n) in logged
  }

  /** What writei() has done after c calls of bmap(). */
  ghost predicate Writing(disk0: Disk, inodes0: map<int, Inode>, disk: Disk, inodes: map<int, Inode>, logged: set<int>,
                          i: int, off: nat,
                          src: seq<Byte>, c: nat) {
    forall k {:trigger Key(k, src)} | Key(k, src) ::
      && Wrote(disk0, inodes0, disk, inodes, i, off, src) && Kept(disk0, inodes0, disk, inodes, i)
      && Present(disk, inodes[i], logged, off / BSIZE, c)
  }

  /** Every block that was taken has been logged, and so has its bit. */
  ghost predicate Noted(owner: map<int, Slot>, owner': map<int, Slot>, changed: set<int>, changed': set<int>,
                        blocks: set<int>, blocks': set<int>) {
    && changed <= changed' && blocks <= blocks'
    && (forall b {:trigger owner'[b]} | b in owner && b in owner' && owner[b] == Free && owner'[b] != Free ::
          b in changed' && b in blocks')
  }

  /** What an operation that adds blocks to file i does to the other blocks: nothing; and it logs what it
      does.  Behind a trigger, for the lemmas below. */
  ghost predicate Allotted(owner: map<int, Slot>, owner': map<int, Slot>, changed: set<int>, changed': set<int>,
                           blocks: set<int>, blocks': set<int>,
                           i: int, lo: int, hi: int) {
    forall k {:trigger Key(k, blocks')} | Key(k, blocks') ::
      Given(owner, owner', i, lo, hi) && Noted(owner, owner', changed, changed', blocks, blocks')
  }

  lemma AllottedStart(owner: map<int, Slot>, changed: set<int>, blocks: set<int>, i: int, lo: int, hi: int)
    ensures Allotted(owner, owner, changed, changed, blocks, blocks, i, lo, hi)
  {}

  lemma AllottedMore(owner: map<int, Slot>, owner1: map<int, Slot>, owner2: map<int, Slot>, changed: set<int>,
                     changed1: set<int>, changed2: set<int>,
                     blocks: set<int>, blocks1: set<int>, blocks2: set<int>, i: int, lo: int, hi: int, lo': int,
                       hi': int, hi'': int)
    requires Allotted(owner, owner1, changed, changed1, blocks, blocks1, i, lo, hi) && lo <= lo' && hi <= hi''
    requires hi' <= hi''
    requires Given(owner1, owner2, i, lo', hi') && Noted(owner1, owner2, changed1, changed2, blocks1, blocks2)
    ensures Allotted(owner, owner2, changed, changed2, blocks, blocks2, i, lo, hi'')
  {
    assert Key(0, blocks1);
    forall b {:trigger owner2[b]} | b in owner
      ensures owner2[b] == owner[b]
        || (owner[b] == Free && SlotIn(owner2[b], i, lo, hi'') && b in changed2 && b in blocks2)
    {
      assert owner1[b] == owner[b] || (owner[b] == Free && SlotIn(owner1[b], i, lo, hi));
    }
  }

  /** One call of bmap() in readi(). */
  lemma ReadGiven(owner: map<int, Slot>, owner1: map<int, Slot>, owner2: map<int, Slot>, changed: set<int>,
                  changed1: set<int>, changed2: set<int>,
                  blocks: set<int>, blocks1: set<int>, blocks2: set<int>, i: int, bn: nat)
    requires Allotted(owner, owner1, changed, changed1, blocks, blocks1, i, 0, MAXFILE)
    requires Given(owner1, owner2, i, bn, bn + 1) && Noted(owner1, owner2, changed1, changed2, blocks1, blocks2)
    requires (bn >= MAXFILE ==> owner2 == owner1)
    ensures Allotted(owner, owner2, changed, changed2, blocks, blocks2, i, 0, MAXFILE)
  {
    assert Key(0, blocks1);
    assert Given(owner1, owner2, i, bn, Min(bn + 1, MAXFILE)) by {
      assert bn >= MAXFILE ==> owner2 == owner1;
    }
    AllottedMore(owner, owner1, owner2, changed, changed1, changed2, blocks, blocks1, blocks2, i, 0, MAXFILE, bn,
      Min(bn + 1, MAXFILE), MAXFILE);
  }

  lemma AllottedWithin(owner: map<int, Slot>, owner': map<int, Slot>, changed: set<int>, changed': set<int>,
                       blocks: set<int>, blocks': set<int>,
                       i: int, off: nat, calls: nat, n: nat)
    requires Allotted(owner, owner', changed, changed', blocks, blocks', i, off / BSIZE, off / BSIZE + calls)
    requires calls > 0 ==> n > 0 && (off / BSIZE + calls - 1) * BSIZE < off + n
    ensures Given(owner, owner', i, off / BSIZE, off / BSIZE + Touched(off, n))
    ensures Noted(owner, owner', changed, changed', blocks, blocks')
  {
    assert Key(0, blocks');
    assert calls > 0 ==> off / BSIZE + calls - 1 <= (off + n - 1) / BSIZE;
  }

  lemma AllottedEnd(owner: map<int, Slot>, owner': map<int, Slot>, changed: set<int>, changed': set<int>,
                    blocks: set<int>, blocks': set<int>,
                    i: int, lo: int, hi: int)
    requires Allotted(owner, owner', changed, changed', blocks, blocks', i, lo, hi)
    ensures Given(owner, owner', i, lo, hi) && Noted(owner, owner', changed, changed', blocks, blocks')
  {
    assert Key(0, blocks');
  }

  // ---------------------------------------------------------------- the blocks of the bitmap

  /** The bitmap blocks with the bits of the blocks in s. */
  ghost function MapsOf(start: int, s: set<int>): set<int> { set b | b in s :: start + b / BPB }

  lemma MapsMore(start: int, s: set<int>, b: int)
    ensures MapsOf(start, s + {b}) == MapsOf(start, s) + {start + b / BPB}
  {
    assert b in s + {b};
    forall m | m in MapsOf(start, s) ensures m in MapsOf(start, s + {b}) {
      var c :| c in s && m == start + c / BPB;
      assert c in s + {b};
    }
  }

  /** There are no more of them than blocks, */
  lemma {:induction false} MapsSize(start: int, s: set<int>)
    ensures |MapsOf(start, s)| <= |s|
  {
    if s != {} {
      var b := SomeMember(s);
      MapsSize(start, s - {b});
      MapsMore(start, s - {b}, b);
      assert s - {b} + {b} == s;
    }
  }

  function Range(a: int, n: nat): (s: set<int>)
    ensures |s| == n && forall x :: x in s <==> a <= x < a + n
  {
    if n == 0 then {} else Range(a, n - 1) + {a + n - 1}
  }

  /** The number of bitmap blocks for size disk blocks. */
  function MapCount(size: nat): nat { (size + BPB - 1) / BPB }

  /** ... and no more than the bitmap has. */
  lemma MapsCount(start: int, s: set<int>, size: nat)
    requires forall b | b in s :: 0 <= b < size
    ensures |MapsOf(start, s)| <= MapCount(size) && MapsOf(start, s) <= Range(start, MapCount(size))
  {
    forall m | m in MapsOf(start, s) ensures m in Range(start, MapCount(size)) {
      var b :| b in s && m == start + b / BPB;
      assert b / BPB < MapCount(size);
    }
    SubsetSize(MapsOf(start, s), Range(start, MapCount(size)));
  }

  /** No block is in use that is neither metadata nor in a slot of a file. */
  lemma SettledAfter(was: map<int, Slot>, owner: map<int, Slot>, i: int)
    requires Settled(was) && owner.Keys == was.Keys
    requires forall b {:trigger owner[b]} {:trigger was[b]} | b in owner ::
      owner[b] == if InFile(was[b], i) then Free else was[b]
    ensures Settled(owner)
  {
    assert Key(0, was);
  }

  ghost predicate NoneHeld(owner: map<int, Slot>) {
    forall b {:trigger owner[b]} | b in owner :: owner[b] != Held
  }

  /** The blocks of file i. */
  ghost function FileBlocks(owner: map<int, Slot>, i: int): set<int> { set b | b in owner && InFile(owner[b], i) }

  /** How much of the log c calls of bmap() for file i have used up, from block b0 on. */
  ghost predicate Logged(logBlocks0: set<int>, logBlocks: set<int>, writes0: nat, writes: nat, d0: int, d: int,
                         had: bool, seen: set<int>, c: nat) {
    forall k {:trigger Key(k, seen)} | Key(k, seen) ::
      && logBlocks <= logBlocks0 + seen + ({d} - {0}) && |seen| <= c && (d0 != 0 ==> d == d0)
      && writes <= writes0 + c - (if had && c > 0 then 1 else 0) + (if d0 == 0 != d then 1 else 0)
  }

  /** Where the next block of writei() lies. */
  lemma Stepped(off: nat, n: nat, tot: nat, calls: nat)
    requires tot < n && off + n <= MAXFILE * BSIZE
    requires (if calls == 0 then tot == 0 else off + tot == (off / BSIZE + calls) * BSIZE)
    ensures var o := off + tot; var bn := o / BSIZE; var m := Min(n - tot, BSIZE - o % BSIZE);
            && bn == off / BSIZE + calls < MAXFILE && bn * BSIZE < off + n && bn * BSIZE + o % BSIZE == o
            && 0 < m && o % BSIZE + m <= BSIZE && o + m <= (bn + 1) * BSIZE
              && (tot + m < n ==> o + m == (bn + 1) * BSIZE)
  {}

  /** How far c blocks bring writei(). */
  ghost predicate Reached(off: nat, n: nat, tot: nat, c: nat) {
    forall k {:trigger Key(k, (tot, c))} | Key(k, (tot, c)) ::
      && (c == 0 ==> tot == 0)
      && (c > 0 ==> 0 < n && tot <= n && (off / BSIZE + c - 1) * BSIZE < off + n)
      && (c > 0 ==> off + tot <= (off / BSIZE + c) * BSIZE)
      && (c > 0 && tot < n ==> off + tot == (off / BSIZE + c) * BSIZE)
  }

  lemma ReachedMore(off: nat, n: nat, tot: nat, c: nat)
    requires tot < n && off + n <= MAXFILE * BSIZE && Reached(off, n, tot, c)
    ensures if c == 0 then tot == 0 else off + tot == (off / BSIZE + c) * BSIZE
    ensures Reached(off, n, tot + Min(n - tot, BSIZE - (off + tot) % BSIZE), c + 1)
    ensures (off / BSIZE + c) * BSIZE < off + n
  {
    assert Key(0, (tot, c));
    Stepped(off, n, tot, c);
  }

  lemma ReachedIs(off: nat, n: nat, tot: nat, c: nat)
    requires Reached(off, n, tot, c)
    ensures if c == 0 then tot == 0
            else 0 < n && off + tot <= (off / BSIZE + c) * BSIZE && (off / BSIZE + c - 1) * BSIZE < off + n
  {
    assert Key(0, (tot, c));
  }

  lemma LoggedMore(logBlocks0: set<int>, logBlocks: set<int>, logBlocks': set<int>, writes0: nat, writes: nat,
                   writes': nat,
                   d0: int, d: int, d': int, had: bool, seen: set<int>, c: nat, addr: int, hadNow: bool)
    requires Logged(logBlocks0, logBlocks, writes0, writes, d0, d, had, seen, c)
    requires logBlocks' <= logBlocks + ({addr, d'} - {0})
    requires writes' <= writes + (if hadNow then 0 else 1) + (if d == 0 != d' then 1 else 0) && (d != 0 ==> d' == d)
    requires c == 0 && had ==> hadNow
    ensures Logged(logBlocks0, logBlocks', writes0, writes', d0, d', had, seen + {addr}, c + 1)
  {
    assert Key(0, seen);
  }

  /** The number of blocks that hold the n bytes from off on. */
  function Touched(off: nat, n: nat): nat {
    if n == 0 then 0 else (off + n - 1) / BSIZE - off / BSIZE + 1
  }

  /** Why a write of n bytes from off on, or a read, stops after r: the caller's memory, which can be reached
      up to byte `mapped`, ends within the next piece, or the next block is missing and no block is free. */
  ghost predicate Stopped(disk: Disk, ip: Inode, owner: map<int, Slot>, off: nat, n: nat, r: nat, mapped: int) {
    || mapped < r + Min(n - r, BSIZE - (off + r) % BSIZE)
    || (Ptr(disk, ip, (off + r) / BSIZE) == 0 && NoneFree(owner))
  }

  /** There are free blocks enough for the n bytes from off on. */
  ghost predicate Room(disk: Disk, ip: Inode, owner: map<int, Slot>, off: nat, n: nat) {
    Enough(disk, ip, owner, off / BSIZE, off / BSIZE + Touched(off, n))
  }

  /** The blocks that hold the n bytes from off on are there. */
  ghost predicate Filled(disk: Disk, ip: Inode, off: nat, n: nat) {
    forall bn {:trigger Ptr(disk, ip, bn)} | off / BSIZE <= bn < off / BSIZE + Touched(off, n) :: Ptr(disk, ip, bn) != 0
  }

  /** A write within the caller's memory that stops only for want of blocks writes all n bytes exactly if there
      were enough blocks at the start. */
  lemma RoomExactly(bitmap0: seq<seq<bool>>, disk0: Disk, inodes0: map<int, Inode>, owner0: map<int, Slot>,
                    bitmap: seq<seq<bool>>, disk: Disk, inodes: map<int, Inode>, owner: map<int, Slot>,
                    i: int, off: nat, n: nat, r: nat, mapped: int)
    requires Consistent(bitmap0, disk0, inodes0, owner0) && Consistent(bitmap, disk, inodes, owner)
    requires i in inodes0 && i in inodes && r <= n <= mapped && off + n <= MAXFILE * BSIZE
    requires Given(owner0, owner, i, off / BSIZE, off / BSIZE + Touched(off, n))
    requires r < n ==> Stopped(disk, inodes[i], owner, off, n, r, mapped)
    requires r == n ==> Filled(disk, inodes[i], off, n)
    ensures r == n <==> Room(disk0, inodes0[i], owner0, off, n)
  {
    assert Key(0, disk0) && Key(0, disk);
    assert InodeOk(disk0, owner0, i, inodes0[i]) && InodeOk(disk, owner, i, inodes[i]);
    var lo, hi := off / BSIZE, off / BSIZE + Touched(off, n);
    forall b {:trigger owner[b]} | b in owner && InFile(owner[b], i)
      ensures SlotOk(disk, map[i := inodes[i]], b, owner[b])
    {
      assert SlotOk(disk, inodes, b, owner[b]);
    }
    forall b {:trigger owner0[b]} | b in owner0 && InFile(owner0[b], i)
      ensures SlotOk(disk0, map[i := inodes0[i]], b, owner0[b])
    {
      assert SlotOk(disk0, inodes0, b, owner0[b]);
    }
    if r < n {
      RanShort(disk0, inodes0[i], owner0, disk, inodes[i], owner, i, lo, hi, (off + r) / BSIZE);
    } else {
      WasEnough(disk0, inodes0[i], owner0, disk, inodes[i], owner, i, lo, hi);
    }
  }

  lemma {:induction false} SubsetSize<T>(a: set<T>, b: set<T>)
    requires a <= b
    ensures |a| <= |b|
  {
    if a != {} {
      var x :| x in a;
      SubsetSize(a - {x}, b - {x});
    }
  }

  lemma LoggedBound(logBlocks0: set<int>, logBlocks: set<int>, writes0: nat, writes: nat, d0: int, d: int, had: bool,
                    seen: set<int>, c: nat, off: nat, n: nat)
    requires Logged(logBlocks0, logBlocks, writes0, writes, d0, d, had, seen, c)
    requires (c > 0 ==> n > 0 && (off / BSIZE + c - 1) * BSIZE < off + n)
    ensures c <= Touched(off, n)
    ensures |logBlocks| <= |logBlocks0| + Touched(off, n) + 1
    ensures writes <= writes0 + Touched(off, n) + 1 - (if n > 0 && had then 1 else 0)
  {
    assert Key(0, seen);
    SubsetSize(logBlocks, logBlocks0 + seen + {d});
    assert c > 0 ==> off / BSIZE + c - 1 <= (off + n - 1) / BSIZE;
  }

  lemma BlockRead(disk: Disk, ip: Inode, o: nat, m: nat, got: seq<Byte>)
    requires Ptr(disk, ip, o / BSIZE) != 0 && Ptr(disk, ip, o / BSIZE) in disk && o % BSIZE + m <= BSIZE
    requires got == disk[Ptr(disk, ip, o / BSIZE)][o % BSIZE..o % BSIZE + m]
    ensures forall k | 0 <= k < m :: got[k] == ByteAt(disk, ip, o + k)
  {
    forall k | 0 <= k < m ensures got[k] == ByteAt(disk, ip, o + k) {
      assert (o + k) / BSIZE == o / BSIZE && (o + k) % BSIZE == o % BSIZE + k;
    }
  }

  /** was assigns to file i exactly the blocks that its inode ip names. */
  ghost predicate BlocksOf(disk: Disk, was: map<int, Slot>, i: int, ip: Inode) {
    && |ip.addrs| == NDIRECT + 1
    && (forall n {:trigger Ptr(disk, ip, n)} | Ptr(disk, ip, n) != 0 ::
          Ptr(disk, ip, n) in was && was[Ptr(disk, ip, n)] == Data(i, n))
    && (forall b {:trigger was[b]} | b in was && was[b].Data? && was[b].i == i ::
          b == Ptr(disk, ip, was[b].bn) != 0 && 0 <= was[b].bn < MAXFILE)
    && (IndirectOf(ip) != 0 ==> IndirectOf(ip) in was && was[IndirectOf(ip)] == Indirect(i))
    && (forall b {:trigger was[b]} | b in was && was[b] == Indirect(i) :: b == IndirectOf(ip) != 0)
  }

  /** A block that is missing was nobody's. */
  lemma TruncatingSkip(disk: Disk, was: map<int, Slot>, owner: map<int, Slot>, i: int, ip: Inode, k: nat)
    requires BlocksOf(disk, was, i, ip) && Truncating(was, owner, i, k) && Ptr(disk, ip, k) == 0
    ensures Truncating(was, owner, i, k + 1)
  {}

  lemma TruncatingEnd(disk: Disk, was: map<int, Slot>, owner: map<int, Slot>, i: int, ip: Inode)
    requires BlocksOf(disk, was, i, ip) && Truncating(was, owner, i, if IndirectOf(ip) == 0 then NDIRECT else MAXFILE)
    ensures var owner' := if IndirectOf(ip) == 0 then owner else owner[IndirectOf(ip) := Free];
            owner'.Keys == was.Keys && forall b {:trigger owner'[b]} {:trigger was[b]} | b in owner' ::
              owner'[b] == if InFile(was[b], i) then Free else was[b]
  {
    var owner' := if IndirectOf(ip) == 0 then owner else owner[IndirectOf(ip) := Free];
    forall b {:trigger owner'[b]} {:trigger was[b]} | b in owner'
      ensures owner'[b] == if InFile(was[b], i) then Free else was[b]
    {
      if was[b].Data? && was[b].i == i {
        assert Ptr(disk, ip, was[b].bn) == b;
      }
    }
  }

  lemma LastOne(disk: Disk, was: map<int, Slot>, owner: map<int, Slot>, i: int, ip: Inode)
    requires BlocksOf(disk, was, i, ip) && Truncating(was, owner, i, MAXFILE) && IndirectOf(ip) != 0
    ensures IndirectOf(ip) in owner && owner[IndirectOf(ip)] == Held
  {}

  /** itrunc() has freed the blocks of file i below its block k; the others it still holds. */
  ghost predicate Truncating(was: map<int, Slot>, owner: map<int, Slot>, i: int, k: nat) {
    && owner.Keys == was.Keys
    && (forall b {:trigger owner[b]} {:trigger was[b]} | b in owner ::
         owner[b] == if InFile(was[b], i) then (if was[b].Data? && was[b].bn < k then Free else Held) else was[b])
  }

  /** The blocks of file i whose bits have been cleared since changed was changed0. */
  ghost predicate Cleared(was: map<int, Slot>, owner: map<int, Slot>, i: int, changed0: set<int>, changed: set<int>) {
    && owner.Keys == was.Keys
    && forall b {:trigger b in changed} {:trigger owner[b]} ::
         b in changed <==> b in changed0 || (b in was && InFile(was[b], i) && owner[b] == Free)
  }

  lemma AllCleared(was: map<int, Slot>, owner: map<int, Slot>, i: int, changed0: set<int>, changed: set<int>)
    requires Cleared(was, owner, i, changed0, changed)
    requires forall b {:trigger owner[b]} | b in owner :: owner[b] == if InFile(was[b], i) then Free else was[b]
    ensures changed == changed0 + FileBlocks(was, i)
  {
    forall b ensures b in changed <==> b in changed0 + FileBlocks(was, i) {
      assert b in was ==> owner[b] == owner[b];
    }
  }

  /** What a call of bmap() has logged for block addr, whose indirect block was d0 and is d now.  Behind a
      trigger. */
  ghost predicate BmapLogged(blocks0: set<int>, changed0: set<int>, blocks: set<int>, changed: set<int>, addr: int,
                             d0: int, d: int, had: bool) {
    forall k {:trigger Key(k, (addr, d))} | Key(k, (addr, d)) ::
      && blocks <= blocks0 + ({addr, d} - {0})
      && |changed| <= |changed0| + (if had then 0 else 1) + (if d0 == 0 != d then 1 else 0)
  }

  lemma BmapLoggedIs(blocks0: set<int>, changed0: set<int>, blocks: set<int>, changed: set<int>, addr: int,
                     d0: int, d: int, had: bool)
    requires BmapLogged(blocks0, changed0, blocks, changed, addr, d0, d, had)
    ensures blocks <= blocks0 + ({addr, d} - {0})
    ensures |changed| <= |changed0| + (if had then 0 else 1) + (if d0 == 0 != d then 1 else 0)
  {
    assert Key(0, (addr, d));
  }

  lemma BmapLoggedAll(blocks0: set<int>, changed0: set<int>, blocks1: set<int>, changed1: set<int>, blocks: set<int>,
                      changed: set<int>, addr: int, d0: int, d: int, had: bool)
    requires if d0 == 0 != d then changed1 == changed0 + {d} && blocks1 == blocks0 + {d}
             else changed1 == changed0 && blocks1 == blocks0
    requires had || addr == 0 ==> blocks == blocks1 && changed == changed1
    requires !had && addr != 0 ==> changed == changed1 + {addr} && blocks1 <= blocks <= blocks1 + ({addr, d} - {0})
    ensures BmapLogged(blocks0, changed0, blocks, changed, addr, d0, d, had)
  {
    AddOne(changed0, d);
    AddOne(changed1, addr);
  }

  lemma BmapLoggedAgain(blocks0: set<int>, changed0: set<int>, blocks: set<int>, changed: set<int>, addr: int,
                        d0: int, d: int, had: bool)
    requires BmapLogged(blocks0, changed0, blocks, changed, addr, d0, d, had) && addr != 0
    ensures BmapLogged(blocks0, changed0, blocks + {addr}, changed, addr, d0, d, had)
  {
    assert Key(0, (addr, d));
  }

  lemma AddOne<T>(s: set<T>, x: T)
    ensures |s| <= |s + {x}| <= |s| + 1
  {
    assert x in s ==> s + {x} == s;
  }

  /** FsOk(), behind a trigger. */
  ghost predicate Consistent(bitmap: seq<seq<bool>>, disk: Disk, files: map<int, Inode>, owner: map<int, Slot>) {
    forall k {:trigger Key(k, disk)} | Key(k, disk) :: FsOk(bitmap, disk, files, owner)
  }

  /** NoneHeld(), behind a trigger. */
  ghost predicate Settled(owner: map<int, Slot>) {
    forall k {:trigger Key(k, owner)} | Key(k, owner) :: NoneHeld(owner)
  }

  /** What balloc() leaves: block a, which was free, is zero and nobody's yet. */
  ghost predicate Begun(disk: Disk, files: map<int, Inode>, owner: map<int, Slot>, bitmap: seq<seq<bool>>, disk': Disk,
                        owner': map<int, Slot>, a: int,
                        zeros: Block) {
    && a in owner && owner[a] == Free && a != 0 && disk.Keys == owner.Keys && owner' == owner[a := Held]
      && disk' == disk[a := zeros]
    && Consistent(bitmap, disk', files, owner')
    && forall j, n {:trigger Ptr(disk', files[j], n)} | j in files :: Ptr(disk', files[j], n) == Ptr(disk, files[j], n)
  }

  lemma DirectAdded(bitmap0: seq<seq<bool>>, disk0: Disk, inodes: map<int, Inode>, owner0: map<int, Slot>,
                    bitmap: seq<seq<bool>>, disk: Disk, owner: map<int, Slot>, i: int, bn: nat, a: int)
    requires Consistent(bitmap0, disk0, inodes, owner0) && Settled(owner0)
    requires Begun(disk0, inodes, owner0, bitmap, disk, owner, a, ZEROS)
    requires i in inodes && bn < NDIRECT && Ptr(disk0, inodes[i], bn) == 0
    ensures |inodes[i].addrs| == NDIRECT + 1
    ensures var inodes', owner' := inodes[i := inodes[i].(addrs := inodes[i].addrs[bn := a])], owner[a := Data(i, bn)];
            && Consistent(bitmap, disk, inodes', owner') && Settled(owner') && SameBytes(disk0, inodes, disk, inodes')
            && Extended(disk0, inodes, owner0, disk, inodes', owner', i, bn)
            && Ptr(disk, inodes'[i], bn) == a && IndirectOf(inodes'[i]) == IndirectOf(inodes[i])
  {
    assert Key(0, disk0) && Key(0, disk) && Key(0, owner0);
    DirectSet(bitmap, disk, inodes, owner, i, bn, a);
    ExtendedBytes(bitmap0, disk0, inodes, owner0, disk, inodes[i := inodes[i].(addrs := inodes[i].addrs[bn := a])],
      owner[a := Data(i, bn)], i, bn);
  }

  lemma IndirectAdded(bitmap0: seq<seq<bool>>, disk0: Disk, inodes: map<int, Inode>, owner0: map<int, Slot>,
                      bitmap: seq<seq<bool>>, disk: Disk, owner: map<int, Slot>, i: int, bn: nat, a: int)
    requires Consistent(bitmap0, disk0, inodes, owner0) && Settled(owner0)
    requires Begun(disk0, inodes, owner0, bitmap, disk, owner, a, ZEROS)
    requires i in inodes && IndirectOf(inodes[i]) == 0 && NDIRECT <= bn
    ensures |inodes[i].addrs| == NDIRECT + 1
    ensures var inodes' := inodes[i := inodes[i].(addrs := inodes[i].addrs[NDIRECT := a])];
            var owner' := owner[a := Indirect(i)];
            && Consistent(bitmap, disk, inodes', owner') && Settled(owner') && SameBytes(disk0, inodes, disk, inodes')
            && Extended(disk0, inodes, owner0, disk, inodes', owner', i, bn) && IndirectOf(inodes'[i]) == a
            && forall n {:trigger Ptr(disk, inodes'[i], n)} :: Ptr(disk, inodes'[i], n) == Ptr(disk0, inodes[i], n)
  {
    assert Key(0, disk0) && Key(0, disk) && Key(0, owner0);
    IndirectSet(bitmap, disk, inodes, owner, i, a);
    ExtendedBytes(bitmap0, disk0, inodes, owner0, disk, inodes[i := inodes[i].(addrs := inodes[i].addrs[NDIRECT := a])],
      owner[a := Indirect(i)], i, bn);
  }

  lemma EntryAdded(bitmap0: seq<seq<bool>>, disk0: Disk, inodes: map<int, Inode>, owner0: map<int, Slot>,
                   bitmap: seq<seq<bool>>, disk: Disk, owner: map<int, Slot>, i: int, bn: nat, a: int)
    requires Consistent(bitmap0, disk0, inodes, owner0) && Settled(owner0)
    requires Begun(disk0, inodes, owner0, bitmap, disk, owner, a, ZEROS)
    requires i in inodes && NDIRECT <= bn < MAXFILE && Ptr(disk0, inodes[i], bn) == 0 && IndirectOf(inodes[i]) != 0
    requires 0 <= a < 0x1_0000_0000
    ensures IndirectOf(inodes[i]) in disk && IndirectOf(inodes[i]) != a
    ensures var d := IndirectOf(inodes[i]);
            var disk', owner' := disk[d := PutUint(disk[d], bn - NDIRECT, a)], owner[a := Data(i, bn)];
            && Consistent(bitmap, disk', inodes, owner') && Settled(owner') && SameBytes(disk0, inodes, disk', inodes)
            && Extended(disk0, inodes, owner0, disk', inodes, owner', i, bn) && Ptr(disk', inodes[i], bn) == a
  {
    assert Key(0, disk0) && Key(0, disk) && Key(0, owner0);
    var d := IndirectOf(inodes[i]);
    assert InodeOk(disk0, owner0, i, inodes[i]);
    EntrySet(bitmap, disk, inodes, owner, i, bn, a);
    ExtendedBytes(bitmap0, disk0, inodes, owner0, disk[d := PutUint(disk[d], bn - NDIRECT, a)], inodes,
      owner[a := Data(i, bn)], i, bn);
  }

  class FileSystem {
    const size: nat
    const bmapstart: nat
    const inodestart: nat
    var bitmap: seq<seq<bool>>
    var disk: Disk
    var inodes: map<int, Inode>
    ghost var owner: map<int, Slot>
    ghost var logMaps: set<int>
    ghost var logBlocks: set<int>
    ghost var logInodes: set<int>
    /** The blocks whose bits have been set or cleared. */
    ghost var changed: set<int>

    /** A file system as found on disk. */
    constructor (size: nat, bmapstart: nat, inodestart: nat, bitmap: seq<seq<bool>>, disk: Disk,
                 inodes: map<int, Inode>, ghost owner: map<int, Slot>)
      requires 0 < size < 0x1_0000_0000 && (forall b :: b in owner <==> 0 <= b < size)
      requires FsOk(bitmap, disk, inodes, owner) && NoneHeld(owner)
      ensures Valid() && this.disk == disk && this.inodes == inodes && this.owner == owner
      ensures this.size == size && this.bmapstart == bmapstart && this.inodestart == inodestart
    {
      this.size, this.bmapstart, this.inodestart := size, bmapstart, inodestart;
      this.bitmap, this.disk, this.inodes, this.owner := bitmap, disk, inodes, owner;
      logMaps, logBlocks, logInodes, changed := {}, {}, {}, {};
      assert MapsOf(bmapstart, {}) == {};
    }

    /** The blocks are consistent with the given files. */
    ghost predicate Sound(files: map<int, Inode>) reads this {
      && (forall b :: b in owner <==> 0 <= b < size) && disk.Keys == owner.Keys && 0 < size < 0x1_0000_0000
      && (forall k {:trigger Key(k, changed)} | Key(k, changed) ::
            changed <= owner.Keys && logMaps == MapsOf(bmapstart, changed))
      && Consistent(bitmap, disk, files, owner)
    }

    lemma OpenLog(files: map<int, Inode>)
      requires Sound(files)
      ensures changed <= owner.Keys && logMaps == MapsOf(bmapstart, changed)
    {
      assert Key(0, changed);
    }

    lemma Open(files: map<int, Inode>)
      requires Sound(files)
      ensures FsOk(bitmap, disk, files, owner)
    {
      assert Key(0, disk);
    }

    /** Between operations: besides that, no block is in use that is neither metadata nor in a slot of a
        file. */
    ghost predicate Valid() reads this {
      Sound(inodes) && Settled(owner)
    }

    method Balloc(ghost files: map<int, Inode>) returns (r: int)
      requires Sound(files)
      modifies `bitmap, `disk, `owner, `logMaps, `logBlocks, `changed
      ensures Sound(files)
      ensures r == 0 ==>
        disk == old(disk) && owner == old(owner) && logMaps == old(logMaps) && logBlocks == old(logBlocks)
        && changed == old(changed)
      ensures forall b {:trigger old(owner)[b]} | b in old(owner) && (r == 0 || b < r) :: old(owner)[b] != Free
      ensures forall j, n {:trigger Ptr(disk, files[j], n)} | j in files ::
        Ptr(disk, files[j], n) == Ptr(old(disk), files[j], n)
      ensures r != 0 ==>
        r in old(owner) && old(owner[r]) == Free && owner == old(owner)[r := Held] && disk == old(disk)[r := ZEROS]
      ensures r != 0 ==> logBlocks == old(logBlocks) + {r} && changed == old(changed) + {r}
    {
      Open(files);
      var b := 0;
      while b < size
        invariant 0 <= b && b % BPB == 0
        invariant disk == old(disk) && owner == old(owner) && bitmap == old(bitmap)
        invariant logMaps == old(logMaps) && logBlocks == old(logBlocks) && changed == old(changed)
        invariant forall c {:trigger owner[c]} | 0 <= c < b && c < size :: owner[c] != Free
      {
        var bi := 0;
        while bi < BPB && b + bi < size
          invariant 0 <= bi <= BPB
          invariant disk == old(disk) && owner == old(owner) && bitmap == old(bitmap)
          invariant logMaps == old(logMaps) && logBlocks == old(logBlocks) && changed == old(changed)
          invariant forall c {:trigger owner[c]} | 0 <= c < b + bi && c < size :: owner[c] != Free
        {
          assert BitOk(bitmap, owner, b + bi) && (b + bi) / BPB == b / BPB && (b + bi) % BPB == bi;
          if !bitmap[b / BPB][bi] {
            r := Take(files, b + bi);
            return;
          }
          bi := bi + 1;
        }
        b := b + BPB;
      }
      return 0;
    }

    /** The part of balloc() that marks the free block b and zeroes it. */
    method Take(ghost files: map<int, Inode>, b: int) returns (r: int)
      requires Sound(files) && b in owner && owner[b] == Free
      modifies `bitmap, `disk, `owner, `logMaps, `logBlocks, `changed
      ensures Sound(files) && r == b != 0
      ensures forall j, n {:trigger Ptr(disk, files[j], n)} | j in files ::
        Ptr(disk, files[j], n) == Ptr(old(disk), files[j], n)
      ensures owner == old(owner)[b := Held] && disk == old(disk)[b := ZEROS]
      ensures logBlocks == old(logBlocks) + {b} && changed == old(changed) + {b}
    {
      TakenAt(files, b);
      bitmap := Mark(bitmap, b, true);
      logMaps := logMaps + {bmapstart + b / BPB};
      owner := owner[b := Held];
      changed := changed + {b};
      disk := disk[b := ZEROS];
      logBlocks := logBlocks + {b};
      return b;
    }

    lemma TakenAt(files: map<int, Inode>, b: int)
      requires Sound(files) && b in owner && owner[b] == Free
      ensures b != 0 && 0 <= b / BPB < |bitmap| && |bitmap[b / BPB]| == BPB
      ensures var disk' := disk[b := ZEROS];
              && Consistent(Mark(bitmap, b, true), disk', files, owner[b := Held])
              && forall j, n {:trigger Ptr(disk', files[j], n)} | j in files ::
                Ptr(disk', files[j], n) == Ptr(disk, files[j], n)
      ensures changed <= owner.Keys && logMaps + {bmapstart + b / BPB} == MapsOf(bmapstart, changed + {b})
    {
      Open(files);
      OpenLog(files);
      Marked(bitmap, disk, files, owner, b, Held);
      Written(Mark(bitmap, b, true), disk, files, owner[b := Held], b, ZEROS);
      MapsMore(bmapstart, changed, b);
    }

    method Bfree(ghost files: map<int, Inode>, b: int) returns (panicked: bool)
      requires Sound(files) && b in owner && (owner[b] == Held || owner[b] == Free)
      modifies `bitmap, `owner, `logMaps, `changed
      ensures Sound(files) && (panicked <==> old(owner)[b] == Free)
      ensures panicked ==> bitmap == old(bitmap) && owner == old(owner) && changed == old(changed)
      ensures !panicked ==> owner == old(owner)[b := Free] && changed == old(changed) + {b}
    {
      Open(files);
      OpenLog(files);
      assert BitOk(bitmap, owner, b);
      if !bitmap[b / BPB][b % BPB] {
        return true;
      }
      Marked(bitmap, disk, files, owner, b, Free);
      bitmap := Mark(bitmap, b, false);
      logMaps := logMaps + {bmapstart + b / BPB};
      MapsMore(bmapstart, changed, b);
      changed := changed + {b};
      owner := owner[b := Free];
      return false;
    }

    lemma Addrs(i: int)
      requires Valid() && i in inodes
      ensures |inodes[i].addrs| == NDIRECT + 1
      ensures var d := inodes[i].addrs[NDIRECT]; d != 0 ==> d in owner && owner[d] == Indirect(i)
    {
      Open(inodes);
      assert InodeOk(disk, owner, i, inodes[i]);
      assert IndirectOf(inodes[i]) == inodes[i].addrs[NDIRECT];
    }

    /** bmap() for a direct block that is missing. */
    method AllocDirect(i: int, bn: nat) returns (addr: int)
      requires Valid() && i in inodes && bn < NDIRECT && Ptr(disk, inodes[i], bn) == 0
      modifies `bitmap, `disk, `inodes, `owner, `logMaps, `logBlocks, `changed
      ensures Valid() && Extended(old(disk), old(inodes), old(owner), disk, inodes, owner, i, bn)
      ensures addr == Ptr(disk, inodes[i], bn) && IndirectOf(inodes[i]) == old(IndirectOf(inodes[i]))
      ensures owner == if addr != 0 then old(owner)[addr := Data(i, bn)] else old(owner)
      ensures addr != 0 ==> addr in disk && disk[addr] == ZEROS && changed == old(changed) + {addr}
      ensures addr != 0 ==> logBlocks == old(logBlocks) + {addr}
      ensures addr == 0 ==> changed == old(changed) && logBlocks == old(logBlocks)
      ensures addr == 0 ==> NoneFree(owner)
      ensures SameBytes(old(disk), old(inodes), disk, inodes)
    {
      ghost var bitmap0, disk0, owner0 := bitmap, disk, owner;
      addr := Balloc(inodes);
      if addr == 0 {
        ExtendedSelf(disk, inodes, owner, i, bn);
        return;
      }
      DirectAdded(bitmap0, disk0, inodes, owner0, bitmap, disk, owner, i, bn, addr);
      inodes := inodes[i := inodes[i].(addrs := inodes[i].addrs[bn := addr])];
      owner := owner[addr := Data(i, bn)];
    }

    /** bmap() for an indirect block that is missing. */
    method AllocIndirect(i: int, ghost bn: nat) returns (d: int)
      requires Valid() && i in inodes && IndirectOf(inodes[i]) == 0 && NDIRECT <= bn
      modifies `bitmap, `disk, `inodes, `owner, `logMaps, `logBlocks, `changed
      ensures Valid() && Extended(old(disk), old(inodes), old(owner), disk, inodes, owner, i, bn)
      ensures forall n {:trigger Ptr(disk, inodes[i], n)} ::
        Ptr(disk, inodes[i], n) == Ptr(old(disk), old(inodes[i]), n)
      ensures d == IndirectOf(inodes[i])
      ensures owner == if d != 0 then old(owner)[d := Indirect(i)] else old(owner)
      ensures d != 0 ==> changed == old(changed) + {d} && logBlocks == old(logBlocks) + {d}
      ensures d == 0 ==> changed == old(changed) && logBlocks == old(logBlocks)
      ensures d == 0 ==> NoneFree(owner)
      ensures SameBytes(old(disk), old(inodes), disk, inodes)
    {
      ghost var bitmap0, disk0, owner0 := bitmap, disk, owner;
      d := Balloc(inodes);
      if d == 0 {
        ExtendedSelf(disk, inodes, owner, i, bn);
        return;
      }
      IndirectAdded(bitmap0, disk0, inodes, owner0, bitmap, disk, owner, i, bn, d);
      inodes := inodes[i := inodes[i].(addrs := inodes[i].addrs[NDIRECT := d])];
      owner := owner[d := Indirect(i)];
    }

    /** bmap() for a missing entry of the indirect block d. */
    method AllocEntry(i: int, bn: nat, d: int) returns (addr: int)
      requires Valid() && i in inodes && NDIRECT <= bn < MAXFILE && Ptr(disk, inodes[i], bn) == 0
      requires d == IndirectOf(inodes[i]) != 0
      modifies `bitmap, `disk, `owner, `logMaps, `logBlocks, `changed
      ensures Valid() && Extended(old(disk), old(inodes), old(owner), disk, inodes, owner, i, bn)
      ensures addr == Ptr(disk, inodes[i], bn)
      ensures owner == if addr != 0 then old(owner)[addr := Data(i, bn)] else old(owner)
      ensures addr != 0 ==> addr in disk && disk[addr] == ZEROS && changed == old(changed) + {addr}
      ensures addr != 0 ==> logBlocks == old(logBlocks) + {addr, d}
      ensures addr == 0 ==> changed == old(changed) && logBlocks == old(logBlocks)
      ensures addr == 0 ==> NoneFree(owner)
      ensures SameBytes(old(disk), old(inodes), disk, inodes)
    {
      ghost var bitmap0, disk0, owner0 := bitmap, disk, owner;
      addr := Balloc(inodes);
      if addr == 0 {
        ExtendedSelf(disk, inodes, owner, i, bn);
        return;
      }
      EntryAdded(bitmap0, disk0, inodes, owner0, bitmap, disk, owner, i, bn, addr);
      disk := disk[d := PutUint(disk[d], bn - NDIRECT, addr)];
      owner := owner[addr := Data(i, bn)];
      logBlocks := logBlocks + {d};
    }

    /** bmap() for a block that the indirect block is to name. */
    method BmapIndirect(i: int, bn: nat) returns (addr: int)
      requires Valid() && i in inodes && NDIRECT <= bn < MAXFILE
      modifies `bitmap, `disk, `inodes, `owner, `logMaps, `logBlocks, `changed
      ensures Valid() && Extended(old(disk), old(inodes), old(owner), disk, inodes, owner, i, bn)
      ensures Given(old(owner), owner, i, bn, bn + 1)
      ensures Noted(old(owner), owner, old(changed), changed, old(logBlocks), logBlocks)
      ensures addr == Ptr(disk, inodes[i], bn)
      ensures old(Ptr(disk, inodes[i], bn)) != 0 ==>
        disk == old(disk) && inodes == old(inodes) && owner == old(owner) && logBlocks == old(logBlocks)
          && changed == old(changed)
      ensures old(Ptr(disk, inodes[i], bn)) == 0 != addr ==> addr in disk && disk[addr] == ZEROS
      ensures addr == 0 ==> NoneFree(owner)
      ensures SameBytes(old(disk), old(inodes), disk, inodes)
      ensures BmapLogged(old(logBlocks), old(changed), logBlocks, changed, addr, old(IndirectOf(inodes[i])),
        IndirectOf(inodes[i]), old(Ptr(disk, inodes[i], bn)) != 0)
    {
      ghost var disk0, inodes0, owner0, blocks0, changed0 := disk, inodes, owner, logBlocks, changed;
      ghost var d0, had := IndirectOf(inodes[i]), Ptr(disk, inodes[i], bn) != 0;
      Addrs(i);
      var d := inodes[i].addrs[NDIRECT];
      if d == 0 {
        d := AllocIndirect(i, bn);
        if d == 0 {
          BmapLoggedAll(blocks0, changed0, logBlocks, changed, logBlocks, changed, 0, 0, 0, false);
          ExtendedGiven(disk0, inodes0, owner0, disk, inodes, owner, i, bn);
          return 0;
        }
      }
      ghost var disk1, inodes1, owner1 := disk, inodes, owner;
      ghost var blocks1, changed1 := logBlocks, changed;
      addr := FindEntry(i, bn, d);
      BmapLoggedAll(blocks0, changed0, blocks1, changed1, logBlocks, changed, addr, d0, d, had);
      if disk0 == disk1 && inodes0 == inodes1 && owner0 == owner1 {
      } else {
        ExtendedTrans(disk0, inodes0, owner0, disk1, inodes1, owner1, disk, inodes, owner, i, bn);
        SameBytesTrans(disk0, inodes0, disk1, inodes1, disk, inodes);
      }
      ExtendedGiven(disk0, inodes0, owner0, disk, inodes, owner, i, bn);
    }

    /** The entry for the block in the indirect block d, which may have to be filled. */
    method FindEntry(i: int, bn: nat, d: int) returns (addr: int)
      requires Valid() && i in inodes && NDIRECT <= bn < MAXFILE && d == IndirectOf(inodes[i]) != 0
      modifies `bitmap, `disk, `owner, `logMaps, `logBlocks, `changed
      ensures Valid() && Extended(old(disk), inodes, old(owner), disk, inodes, owner, i, bn)
      ensures SameBytes(old(disk), inodes, disk, inodes) && addr == Ptr(disk, inodes[i], bn)
      ensures old(Ptr(disk, inodes[i], bn)) != 0 ==> disk == old(disk) && owner == old(owner)
      ensures old(Ptr(disk, inodes[i], bn)) != 0 || addr == 0 ==> logBlocks == old(logBlocks) && changed == old(changed)
      ensures old(Ptr(disk, inodes[i], bn)) == 0 != addr ==> addr in disk && disk[addr] == ZEROS
      ensures old(Ptr(disk, inodes[i], bn)) == 0 != addr ==> owner == old(owner)[addr := Data(i, bn)]
      ensures old(Ptr(disk, inodes[i], bn)) == 0 != addr ==>
        changed == old(changed) + {addr} && logBlocks == old(logBlocks) + {addr, d}
      ensures addr == 0 ==> owner == old(owner) && NoneFree(owner)
    {
      Addrs(i);
      addr := UintAt(disk[d], bn - NDIRECT);
      if addr == 0 {
        addr := AllocEntry(i, bn, d);
      } else {
        ExtendedSelf(disk, inodes, owner, i, bn);
      }
    }

    method Bmap(i: int, bn: nat) returns (addr: int, panicked: bool)
      requires Valid() && i in inodes
      modifies `bitmap, `disk, `inodes, `owner, `logMaps, `logBlocks, `changed
      ensures panicked <==> bn >= MAXFILE
      ensures Valid() && Extended(old(disk), old(inodes), old(owner), disk, inodes, owner, i, bn)
      ensures Given(old(owner), owner, i, bn, bn + 1)
      ensures Noted(old(owner), owner, old(changed), changed, old(logBlocks), logBlocks)
      ensures !panicked ==> addr == Ptr(disk, inodes[i], bn)
      ensures panicked || old(Ptr(disk, inodes[i], bn)) != 0 ==>
        disk == old(disk) && inodes == old(inodes) && owner == old(owner) && logBlocks == old(logBlocks)
          && changed == old(changed)
      ensures old(Ptr(disk, inodes[i], bn)) == 0 != addr ==> addr in disk && disk[addr] == ZEROS
      ensures !panicked && addr == 0 ==> NoneFree(owner)
      ensures SameBytes(old(disk), old(inodes), disk, inodes)
      ensures !panicked ==>
        BmapLogged(old(logBlocks), old(changed), logBlocks, changed, addr, old(IndirectOf(inodes[i])),
          IndirectOf(inodes[i]), old(Ptr(disk, inodes[i], bn)) != 0)
    {
      addr, panicked := 0, false;
      if bn < NDIRECT {
        ghost var disk0, inodes0, owner0, blocks0, changed0 := disk, inodes, owner, logBlocks, changed;
        ghost var d0, had := IndirectOf(inodes[i]), Ptr(disk, inodes[i], bn) != 0;
        Addrs(i);
        addr := inodes[i].addrs[bn];
        if addr == 0 {
          addr := AllocDirect(i, bn);
          ExtendedGiven(disk0, inodes0, owner0, disk, inodes, owner, i, bn);
        }
        BmapLoggedAll(blocks0, changed0, blocks0, changed0, logBlocks, changed, addr, d0, d0, had);
      } else if bn - NDIRECT < NINDIRECT {
        addr := BmapIndirect(i, bn);
      } else {
        panicked := true;
      }
    }

    /** The copy into a buffer and the log_write() in writei(). */
    method WriteBlock(i: int, bn: nat, addr: int, o: nat, chunk: seq<Byte>)
      requires Valid() && i in inodes && addr == Ptr(disk, inodes[i], bn) != 0 && o + |chunk| <= BSIZE
      modifies `disk, `logBlocks
      ensures Valid() && logBlocks == old(logBlocks) + {addr} && disk.Keys == old(disk.Keys)
      ensures forall j, n {:trigger Ptr(disk, inodes[j], n)} | j in inodes ::
        Ptr(disk, inodes[j], n) == Ptr(old(disk), inodes[j], n)
      ensures Wrote(old(disk), inodes, disk, inodes, i, bn * BSIZE + o, chunk)
    {
      Open(inodes);
      BlockBytes(bitmap, disk, inodes, owner, i, bn, o, chunk);
      disk := disk[addr := Splice(disk[addr], o, chunk)];
      logBlocks := logBlocks + {addr};
    }

    /** `ip->size = size` and iupdate(). */
    method Iupdate(i: int, size': nat)
      requires Valid() && i in inodes
      modifies `inodes, `logInodes
      ensures Valid() && inodes == old(inodes)[i := old(inodes[i]).(size := size')]
      ensures logInodes == old(logInodes) + {inodestart + i / IPB}
      ensures IndirectOf(inodes[i]) == old(IndirectOf(inodes[i]))
      ensures forall j, n {:trigger Ptr(disk, inodes[j], n)} | j in inodes ::
        Ptr(disk, inodes[j], n) == Ptr(disk, old(inodes)[j], n)
    {
      Open(inodes);
      assert InodeOk(disk, owner, i, inodes[i]);
      var ip' := inodes[i].(size := size');
      ghost var ip := inodes[i];
      forall n {:trigger Ptr(disk, ip', n)} {:trigger PtrOk(disk, owner, i, ip', n)}
        ensures Ptr(disk, ip', n) == Ptr(disk, ip, n) && PtrOk(disk, owner, i, ip', n)
      {
        assert PtrOk(disk, owner, i, ip, n);
      }
      SlotsKept(disk, inodes, owner, i, disk, ip');
      Changed(bitmap, disk, inodes, owner, i, disk, ip', owner);
      inodes := inodes[i := ip'];
      logInodes := logInodes + {inodestart + i / IPB};
    }

    /** One block of the loop in writei(): m bytes are written, or none, if there is no block or the copy from the
        caller fails, which is taken to happen before it changes anything. */
    method WriteStep(i: int, src: seq<Byte>, off: nat, tot: nat, mapped: nat, ghost disk0: Disk,
                     ghost inodes0: map<int, Inode>, ghost c: nat)
      returns (m: nat, addr: int)
      requires tot < |src| && Valid() && i in inodes
      requires Writing(disk0, inodes0, disk, inodes, logBlocks, i, off, src[..tot], c)
      requires off + |src| <= MAXFILE * BSIZE && (if c == 0 then tot == 0 else off + tot == (off / BSIZE + c) * BSIZE)
      modifies `bitmap, `disk, `inodes, `owner, `logMaps, `logBlocks, `changed
      ensures Valid() && i in inodes
      ensures m == 0 || m == Min(|src| - tot, BSIZE - (off + tot) % BSIZE)
      ensures Writing(disk0, inodes0, disk, inodes, logBlocks, i, off, src[..tot + m], if m == 0 then c else c + 1)
      ensures if m == 0 then Stopped(disk, inodes[i], owner, off, |src|, tot, mapped) else tot + m <= mapped
      ensures Given(old(owner), owner, i, off / BSIZE + c, off / BSIZE + c + 1)
      ensures Noted(old(owner), owner, old(changed), changed, old(logBlocks), logBlocks)
      ensures BmapLogged(old(logBlocks), old(changed), logBlocks, changed, addr, old(IndirectOf(inodes[i])),
        IndirectOf(inodes[i]), old(Ptr(disk, inodes[i], (off + tot) / BSIZE)) != 0)
      ensures old(IndirectOf(inodes[i])) != 0 ==> IndirectOf(inodes[i]) == old(IndirectOf(inodes[i]))
    {
      ghost var disk1, inodes1, owner1, blocks1, changed1 := disk, inodes, owner, logBlocks, changed;
      ghost var d1, had := IndirectOf(inodes[i]), Ptr(disk, inodes[i], (off + tot) / BSIZE) != 0;
      Stepped(off, |src|, tot, c);
      var o := off + tot;
      var panicked;
      addr, panicked := Bmap(i, o / BSIZE);
      ghost var disk2, inodes2, owner2 := disk, inodes, owner;
      m := Min(|src| - tot, BSIZE - o % BSIZE);
      if addr == 0 || mapped < tot + m {
        WritingStop(disk0, inodes0, disk1, inodes1, owner1, disk2, inodes2, owner2, blocks1, logBlocks, i, off,
          src[..tot], c, o / BSIZE);
        return 0, addr;
      }
      BmapLoggedAgain(blocks1, changed1, logBlocks, changed, addr, d1, IndirectOf(inodes[i]), had);
      WritePiece(i, src, off, tot, m, addr, disk0, inodes0, disk1, inodes1, owner1, blocks1, c);
    }

    /** The block that bmap() has found, or added, is written. */
    method WritePiece(i: int, src: seq<Byte>, off: nat, tot: nat, m: nat, addr: int, ghost disk0: Disk,
                      ghost inodes0: map<int, Inode>,
                      ghost disk1: Disk, ghost inodes1: map<int, Inode>, ghost owner1: map<int, Slot>,
                        ghost blocks1: set<int>, ghost c: nat)
      requires Valid() && i in inodes && tot + m <= |src|
      requires Writing(disk0, inodes0, disk1, inodes1, blocks1, i, off, src[..tot], c)
      requires (off + tot) / BSIZE == off / BSIZE + c && (off + tot) % BSIZE + m <= BSIZE
      requires addr == Ptr(disk, inodes[i], (off + tot) / BSIZE) != 0
      requires Extended(disk1, inodes1, owner1, disk, inodes, owner, i, off / BSIZE + c)
      requires SameBytes(disk1, inodes1, disk, inodes)
      requires blocks1 <= logBlocks && (off / BSIZE + c) * BSIZE + (off + tot) % BSIZE == off + tot
      modifies `disk, `logBlocks
      ensures Valid() && disk.Keys == old(disk).Keys && logBlocks == old(logBlocks) + {addr}
      ensures Writing(disk0, inodes0, disk, inodes, logBlocks, i, off, src[..tot + m], c + 1)
    {
      ghost var disk2 := disk;
      WriteBlock(i, (off + tot) / BSIZE, addr, (off + tot) % BSIZE, src[tot..tot + m]);
      WritingStep(disk0, inodes0, disk1, inodes1, owner1, disk2, inodes, owner, disk, blocks1, logBlocks, i, off,
        src[..tot], src[tot..tot + m], c);
      OnePieceMore(src, tot, m, m);
    }

    /** One turn of the loop in writei(), with what the turns have logged. */
    method WriteTurn(i: int, src: seq<Byte>, off: nat, tot: nat, mapped: nat, ghost disk0: Disk,
                     ghost inodes0: map<int, Inode>, ghost owner0: map<int, Slot>, ghost changed0: set<int>,
                     ghost blocks0: set<int>, ghost seen: set<int>, ghost c: nat)
      returns (m: nat, ghost seen': set<int>)
      requires tot < |src| && Valid() && i in inodes
      requires Writing(disk0, inodes0, disk, inodes, logBlocks, i, off, src[..tot], c) && i in inodes0
      requires off + |src| <= MAXFILE * BSIZE && (if c == 0 then tot == 0 else off + tot == (off / BSIZE + c) * BSIZE)
      requires Allotted(owner0, owner, changed0, changed, blocks0, logBlocks, i, off / BSIZE, off / BSIZE + c)
      requires Logged(blocks0, logBlocks, |changed0|, |changed|, IndirectOf(inodes0[i]), IndirectOf(inodes[i]),
        Ptr(disk0, inodes0[i], off / BSIZE) != 0, seen, c)
      modifies `bitmap, `disk, `inodes, `owner, `logMaps, `logBlocks, `changed
      ensures Valid() && i in inodes && (m == 0 || m == Min(|src| - tot, BSIZE - (off + tot) % BSIZE))
      ensures Writing(disk0, inodes0, disk, inodes, logBlocks, i, off, src[..tot + m], if m == 0 then c else c + 1)
      ensures if m == 0 then Stopped(disk, inodes[i], owner, off, |src|, tot, mapped) else tot + m <= mapped
      ensures Allotted(owner0, owner, changed0, changed, blocks0, logBlocks, i, off / BSIZE, off / BSIZE + c + 1)
      ensures Logged(blocks0, logBlocks, |changed0|, |changed|, IndirectOf(inodes0[i]), IndirectOf(inodes[i]),
        Ptr(disk0, inodes0[i], off / BSIZE) != 0, seen', c + 1)
    {
      Stepped(off, |src|, tot, c);
      WritingPtr(disk0, inodes0, disk, inodes, logBlocks, i, off, src[..tot], c);
      ghost var had := Ptr(disk0, inodes0[i], off / BSIZE) != 0;
      ghost var owner1, changed1 := owner, changed;
      ghost var blocks1, writes1, d1, had1 := logBlocks, |changed|, IndirectOf(inodes[i]),
        Ptr(disk, inodes[i], (off + tot) / BSIZE) != 0;
      var addr;
      m, addr := WriteStep(i, src, off, tot, mapped, disk0, inodes0, c);
      BmapLoggedIs(blocks1, changed1, logBlocks, changed, addr, d1, IndirectOf(inodes[i]), had1);
      LoggedMore(blocks0, blocks1, logBlocks, |changed0|, writes1, |changed|, IndirectOf(inodes0[i]), d1,
        IndirectOf(inodes[i]), had, seen, c, addr, had1);
      AllottedMore(owner0, owner1, owner, changed0, changed1, changed, blocks0, blocks1, logBlocks, i, off / BSIZE,
        off / BSIZE + c, off / BSIZE + c, off / BSIZE + c + 1, off / BSIZE + c + 1);
      seen' := seen + {addr};
    }

    /** The loop of writei().  calls is the number of blocks asked for, of which done were written,
        and seen are the blocks. */
    method WriteBlocks(i: int, src: seq<Byte>, off: nat, mapped: nat)
      returns (tot: nat, ghost calls: nat, ghost done: nat, ghost seen: set<int>)
      requires Valid() && i in inodes && off + |src| <= MAXFILE * BSIZE
      modifies `bitmap, `disk, `inodes, `owner, `logMaps, `logBlocks, `changed
      ensures Valid() && i in inodes && tot <= |src|
      ensures Writing(old(disk), old(inodes), disk, inodes, logBlocks, i, off, src[..tot], done)
      ensures tot <= mapped && (tot < |src| ==> Stopped(disk, inodes[i], owner, off, |src|, tot, mapped))
      ensures Allotted(old(owner), owner, old(changed), changed, old(logBlocks), logBlocks, i, off / BSIZE,
        off / BSIZE + calls)
      ensures Logged(old(logBlocks), logBlocks, old(|changed|), |changed|, old(IndirectOf(inodes[i])),
        IndirectOf(inodes[i]), old(Ptr(disk, inodes[i], off / BSIZE)) != 0, seen, calls)
      ensures calls > 0 ==> |src| > 0 && (off / BSIZE + calls - 1) * BSIZE < off + |src|
      ensures tot > 0 ==> off + tot <= (off / BSIZE + done) * BSIZE
    {
      calls, done, seen := 0, 0, {};
      ghost var disk0, inodes0, b0, blocks0, writes0 := disk, inodes, off / BSIZE, logBlocks, |changed|;
      ghost var d0, had := IndirectOf(inodes[i]), Ptr(disk, inodes[i], b0) != 0;
      ghost var owner0, changed0 := owner, changed;
      WritingStart(disk, inodes, i, off, logBlocks);
      AllottedStart(owner, changed, logBlocks, i, b0, b0);
      tot := 0;
      while tot < |src|
        invariant 0 <= tot <= |src| && tot <= mapped && calls == done
        invariant Valid() && i in inodes && Writing(disk0, inodes0, disk, inodes, logBlocks, i, off, src[..tot], done)
        invariant Allotted(owner0, owner, changed0, changed, blocks0, logBlocks, i, b0, b0 + calls)
        invariant Logged(blocks0, logBlocks, writes0, |changed|, d0, IndirectOf(inodes[i]), had, seen, calls)
        invariant Reached(off, |src|, tot, calls)
      {
        ReachedMore(off, |src|, tot, calls);
        var m;
        m, seen := WriteTurn(i, src, off, tot, mapped, disk0, inodes0, owner0, changed0, blocks0, seen, done);
        calls := calls + 1;
        if m == 0 {
          break;
        }
        done := done + 1;
        tot := tot + m;
      }
      ReachedIs(off, |src|, tot, done);
    }

    /** writei() from its loop on. */
    method WriteAll(i: int, src: seq<Byte>, off: nat, mapped: nat) returns (r: nat)
      requires Valid() && i in inodes && off <= inodes[i].size && off + |src| <= MAXFILE * BSIZE
      modifies `bitmap, `disk, `inodes, `owner, `logMaps, `logBlocks, `logInodes, `changed
      ensures Valid() && i in inodes && r <= |src| && Wrote(old(disk), old(inodes), disk, inodes, i, off, src[..r])
      ensures r <= mapped && (r < |src| ==> Stopped(disk, inodes[i], owner, off, |src|, r, mapped))
      ensures inodes == old(inodes)[i := inodes[i]] && inodes[i].size == Max(old(inodes[i].size), off + r)
      ensures forall j | j in old(inodes) && NoHoles(old(disk), old(inodes)[j]) :: NoHoles(disk, inodes[j])
      ensures Given(old(owner), owner, i, off / BSIZE, off / BSIZE + Touched(off, |src|))
      ensures Noted(old(owner), owner, old(changed), changed, old(logBlocks), logBlocks)
      ensures Present(disk, inodes[i], logBlocks, off / BSIZE, Touched(off, r))
      ensures |logBlocks| <= old(|logBlocks|) + Touched(off, |src|) + 1
      ensures |changed| <= old(|changed|) + Touched(off,
        |src|) + 1 - (if |src| > 0 && old(Ptr(disk, inodes[i], off / BSIZE)) != 0 then 1 else 0)
      ensures logInodes == old(logInodes) + {inodestart + i / IPB}
    {
      ghost var disk0, inodes0, blocks0, writes0 := disk, inodes, logBlocks, |changed|;
      ghost var owner0, changed0 := owner, changed;
      ghost var d0, had := IndirectOf(inodes[i]), Ptr(disk, inodes[i], off / BSIZE) != 0;
      var tot;
      ghost var calls, done, seen;
      tot, calls, done, seen := WriteBlocks(i, src, off, mapped);
      ghost var disk4, inodes4 := disk, inodes;
      WritingPtr(disk0, inodes0, disk, inodes, logBlocks, i, off, src[..tot], done);
      AllottedWithin(owner0, owner, changed0, changed, blocks0, logBlocks, i, off, calls, |src|);
      LoggedBound(blocks0, logBlocks, writes0, |changed|, d0, IndirectOf(inodes[i]), had, seen, calls, off, |src|);
      var size' := if off + tot > inodes[i].size then off + tot else inodes[i].size;
      Iupdate(i, size');
      WritingEnd(disk0, inodes0, disk4, inodes4, inodes, logBlocks, i, off, src[..tot], done);
      r := tot;
    }

    /** The bytes of src lie in the caller's memory, of which the kernel can reach the first `mapped`. */
    method Writei(i: int, src: seq<Byte>, off: nat, mapped: nat) returns (r: int)
      requires Valid() && i in inodes && off < 0x1_0000_0000 && |src| < 0x1_0000_0000
      modifies `bitmap, `disk, `inodes, `owner, `logMaps, `logBlocks, `logInodes, `changed
      ensures Valid() && i in inodes
      ensures r == -1 <==> off > old(inodes[i].size) || off + |src| > MAXFILE * BSIZE
      ensures r == -1 ==> disk == old(disk) && inodes == old(inodes) && owner == old(owner)
      ensures r == -1 ==> logInodes == old(logInodes) && logBlocks == old(logBlocks) && changed == old(changed)
      ensures r != -1 ==> 0 <= r <= |src| && Wrote(old(disk), old(inodes), disk, inodes, i, off, src[..r])
      ensures r != -1 ==>
        r <= mapped && (r < |src| ==> Stopped(disk, inodes[i], owner, off, |src|, r, mapped))
      ensures r != -1 && |src| <= mapped ==> (r == |src| <==> old(Room(disk, inodes[i], owner, off, |src|)))
      ensures r != -1 ==> inodes == old(inodes)[i := inodes[i]] && inodes[i].size == Max(old(inodes[i].size), off + r)
      ensures forall j | j in old(inodes) && NoHoles(old(disk), old(inodes)[j]) :: NoHoles(disk, inodes[j])
      ensures Given(old(owner), owner, i, off / BSIZE, off / BSIZE + Touched(off, |src|))
      ensures Noted(old(owner), owner, old(changed), changed, old(logBlocks), logBlocks)
      ensures r != -1 ==> Present(disk, inodes[i], logBlocks, off / BSIZE, Touched(off, r))
      ensures |logBlocks| <= old(|logBlocks|) + Touched(off, |src|) + 1
      ensures |changed| <= old(|changed|) + Touched(off,
        |src|) + 1 - (if |src| > 0 && old(Ptr(disk, inodes[i], off / BSIZE)) != 0 then 1 else 0)
      ensures r != -1 ==> logInodes == old(logInodes) + {inodestart + i / IPB}
    {
      if off > inodes[i].size || (off + |src|) % 0x1_0000_0000 < off {
        return -1;
      }
      if off + |src| > MAXFILE * BSIZE {
        return -1;
      }
      ghost var bitmap0, disk0, inodes0, owner0 := bitmap, disk, inodes, owner;
      r := WriteAll(i, src, off, mapped);
      if |src| <= mapped {
        RoomExactly(bitmap0, disk0, inodes0, owner0, bitmap, disk, inodes, owner, i, off, |src|, r, mapped);
      }
    }

    /** One block of the loop in readi(): the piece of it that is wanted, or addr 0. */
    method ReadStep(i: int, o: nat, left: nat, ghost disk0: Disk, ghost inodes0: map<int, Inode>,
                    ghost owner0: map<int, Slot>,
                    ghost changed0: set<int>, ghost blocks0: set<int>) returns (piece: seq<Byte>, addr: int,
                      panicked: bool)
      requires Valid() && i in inodes && i in inodes0 && SameBytes(disk0, inodes0, disk, inodes) && 0 < left
      requires Allotted(owner0, owner, changed0, changed, blocks0, logBlocks, i, 0, MAXFILE)
      modifies `bitmap, `disk, `inodes, `owner, `logMaps, `logBlocks, `changed
      ensures panicked <==> o / BSIZE >= MAXFILE
      ensures Valid() && i in inodes && SameBytes(disk0, inodes0, disk, inodes) && inodes[i].size == old(inodes[i].size)
      ensures Allotted(owner0, owner, changed0, changed, blocks0, logBlocks, i, 0, MAXFILE)
      ensures old(Ptr(disk, inodes[i], o / BSIZE)) != 0 ==> panicked || addr != 0
      ensures !panicked && addr == 0 ==> Ptr(disk, inodes[i], o / BSIZE) == 0 && NoneFree(owner)
      ensures inodes == old(inodes)[i := inodes[i]]
      ensures panicked || old(Ptr(disk, inodes[i], o / BSIZE)) != 0 ==>
        disk == old(disk) && inodes == old(inodes) && owner == old(owner) && logBlocks == old(logBlocks)
          && changed == old(changed)
      ensures !panicked && addr != 0 ==> |piece| == Min(left, BSIZE - o % BSIZE) > 0
      ensures !panicked && addr != 0 ==> forall k | 0 <= k < |piece| :: piece[k] == ByteAt(disk0, inodes0[i], o + k)
    {
      ghost var disk1, inodes1, owner1, changed1, blocks1 := disk, inodes, owner, changed, logBlocks;
      piece := [];
      addr, panicked := Bmap(i, o / BSIZE);
      SameBytesTrans(disk0, inodes0, disk1, inodes1, disk, inodes);
      ReadGiven(owner0, owner1, owner, changed0, changed1, changed, blocks0, blocks1, logBlocks, i, o / BSIZE);
      if !panicked && addr != 0 {
        PtrInDisk(i, o / BSIZE);
        var m := Min(left, BSIZE - o % BSIZE);
        piece := disk[addr][o % BSIZE..o % BSIZE + m];
        BlockRead(disk, inodes[i], o, m, piece);
        assert forall k: nat {:trigger ByteAt(disk, inodes[i], k)} ::
          ByteAt(disk, inodes[i], k) == ByteAt(disk0, inodes0[i], k);
      }
    }

    /** How many of n bytes from off on there are. */
    ghost function Left(i: int, off: nat, n: nat): int
      requires i in inodes
      reads this
    {
      if off > inodes[i].size || off + n >= 0x1_0000_0000 then 0 else Min(n, inodes[i].size - off)
    }

    /** The loop of readi(). */
    method ReadAll(i: int, off: nat, n: nat, mapped: nat) returns (r: int, dst: seq<Byte>, panicked: bool)
      requires Valid() && i in inodes && off + n <= inodes[i].size
      modifies `bitmap, `disk, `inodes, `owner, `logMaps, `logBlocks, `changed
      ensures Valid() && SameBytes(old(disk), old(inodes), disk, inodes)
      ensures Given(old(owner), owner, i, 0, MAXFILE)
      ensures Noted(old(owner), owner, old(changed), changed, old(logBlocks), logBlocks)
      ensures panicked ==> off + n > MAXFILE * BSIZE
      ensures !panicked && r != -1 ==>
        |dst| == r && forall k | 0 <= k < r :: dst[k] == ByteAt(old(disk), old(inodes[i]), off + k)
      ensures !panicked ==> -1 <= r <= mapped && r <= n
      ensures !panicked && r == -1 ==> mapped < n
      ensures i in inodes && inodes == old(inodes)[i := inodes[i]] && inodes[i].size == old(inodes[i].size)
      ensures i in inodes && (!panicked && 0 <= r < n ==>
        Ptr(disk, inodes[i], (off + r) / BSIZE) == 0 && NoneFree(owner))
      ensures NoHoles(old(disk), old(inodes[i])) ==>
        disk == old(disk) && inodes == old(inodes) && owner == old(owner) && logBlocks == old(logBlocks)
          && changed == old(changed)
      ensures NoHoles(old(disk), old(inodes[i])) ==>
        !panicked && r == if n <= mapped then n else -1
    {
      dst, panicked := [], false;
      ghost var disk0, inodes0 := disk, inodes;
      ghost var owner0, changed0, blocks0 := owner, changed, logBlocks;
      AllottedStart(owner, changed, logBlocks, i, 0, MAXFILE);
      var tot := 0;
      while tot < n
        invariant 0 <= tot <= n && tot <= mapped && off + n <= inodes0[i].size && |dst| == tot
        invariant Valid() && SameBytes(disk0, inodes0, disk, inodes) && i in inodes && inodes[i].size == inodes0[i].size
        invariant Allotted(owner0, owner, changed0, changed, blocks0, logBlocks, i, 0, MAXFILE)
        invariant forall k | 0 <= k < tot :: dst[k] == ByteAt(disk0, inodes0[i], off + k)
        invariant inodes == inodes0[i := inodes[i]]
        invariant NoHoles(disk0, inodes0[i]) ==>
          disk == disk0 && inodes == inodes0 && owner == old(owner) && logBlocks == old(logBlocks)
            && changed == old(changed)
      {
        var o := off + tot;
        assert NoHoles(disk0, inodes0[i]) ==> Ptr(disk0, inodes0[i], o / BSIZE) != 0;
        var piece, addr;
        piece, addr, panicked := ReadStep(i, o, n - tot, disk0, inodes0, owner0, changed0, blocks0);
        AllottedEnd(owner0, owner, changed0, changed, blocks0, logBlocks, i, 0, MAXFILE);
        if panicked {
          return 0, [], true;
        }
        if addr == 0 {
          break;
        }
        if mapped < tot + |piece| {
          return -1, [], false;
        }
        dst := dst + piece;
        tot := tot + |piece|;
      }
      AllottedEnd(owner0, owner, changed0, changed, blocks0, logBlocks, i, 0, MAXFILE);
      return tot, dst, false;
    }

    /** Of the memory that the bytes are copied to the kernel can reach the first `mapped`; a fault gives -1. */
    method Readi(i: int, off: nat, n: nat, mapped: nat) returns (r: int, dst: seq<Byte>, panicked: bool)
      requires Valid() && i in inodes && off < 0x1_0000_0000 && n < 0x1_0000_0000
      modifies `bitmap, `disk, `inodes, `owner, `logMaps, `logBlocks, `changed
      ensures Valid() && SameBytes(old(disk), old(inodes), disk, inodes)
      ensures Given(old(owner), owner, i, 0, MAXFILE)
      ensures Noted(old(owner), owner, old(changed), changed, old(logBlocks), logBlocks)
      ensures panicked ==> off + old(Left(i, off, n)) > MAXFILE * BSIZE
      ensures !panicked && r != -1 ==>
        |dst| == r && forall k | 0 <= k < r :: dst[k] == ByteAt(old(disk), old(inodes[i]), off + k)
      ensures !panicked ==> -1 <= r <= mapped && r <= old(Left(i, off, n))
      ensures !panicked && r == -1 ==> mapped < old(Left(i, off, n))
      ensures i in inodes && inodes == old(inodes)[i := inodes[i]] && inodes[i].size == old(inodes[i].size)
      ensures i in inodes && (!panicked && 0 <= r < old(Left(i, off, n)) ==>
        Ptr(disk, inodes[i], (off + r) / BSIZE) == 0 && NoneFree(owner))
      ensures NoHoles(old(disk), old(inodes[i])) ==>
        disk == old(disk) && inodes == old(inodes) && owner == old(owner) && logBlocks == old(logBlocks)
          && changed == old(changed)
      ensures NoHoles(old(disk), old(inodes[i])) ==>
        !panicked && r == if old(Left(i, off, n)) <= mapped then old(Left(i, off, n)) else -1
    {
      if off > inodes[i].size || (off + n) % 0x1_0000_0000 < off {
        return 0, [], false;
      }
      var n' := if off + n > inodes[i].size then inodes[i].size - off else n;
      r, dst, panicked := ReadAll(i, off, n', mapped);
    }

    lemma PtrInDisk(i: int, bn: int)
      requires Valid() && i in inodes && Ptr(disk, inodes[i], bn) != 0
      ensures Ptr(disk, inodes[i], bn) in disk
    {
      Open(inodes);
      assert InodeOk(disk, owner, i, inodes[i]) && PtrOk(disk, owner, i, inodes[i], bn);
    }

    /** The blocks of file i pass to the kernel, and the file is set aside. */
    ghost method Detach(i: int)
      requires Valid() && i in inodes
      modifies `owner
      ensures Sound(inodes - {i}) && owner.Keys == old(owner.Keys) && Cleared(old(owner), owner, i, changed, changed)
      ensures Truncating(old(owner), owner, i, 0) && BlocksOf(disk, old(owner), i, inodes[i])
    {
      Open(inodes);
      assert InodeOk(disk, owner, i, inodes[i]);
      forall n {:trigger Ptr(disk, inodes[i], n)} ensures PtrOk(disk, owner, i, inodes[i], n) {}
      forall b {:trigger owner[b]} | b in owner ensures SlotOk(disk, inodes, b, owner[b]) {}
      var owner' := map b | b in owner :: if InFile(owner[b], i) then Held else owner[b];
      Detached(bitmap, disk, inodes, owner, i, owner');
      owner := owner';
    }

    /** Frees block b, which is block n of the file, if there is one. */
    method FreeSlot(i: int, b: int, ghost others: map<int, Inode>, ghost was: map<int, Slot>, ghost ip: Inode,
                    ghost n: nat, ghost changed0: set<int>)
      requires Sound(others) && Truncating(was, owner, i, n) && BlocksOf(disk, was, i, ip) && b == Ptr(disk, ip, n)
      requires Cleared(was, owner, i, changed0, changed)
      modifies `bitmap, `owner, `logMaps, `changed
      ensures Sound(others) && Truncating(was, owner, i, n + 1) && Cleared(was, owner, i, changed0, changed)
    {
      if b != 0 {
        var panicked := Bfree(others, b);
      } else {
        TruncatingSkip(disk, was, owner, i, ip, n);
      }
    }

    /** The first loop of itrunc(). */
    method FreeDirect(i: int, ghost others: map<int, Inode>, ghost was: map<int, Slot>, ghost changed0: set<int>)
      requires i in inodes && Sound(others) && Truncating(was, owner, i, 0) && BlocksOf(disk, was, i, inodes[i])
      requires Cleared(was, owner, i, changed0, changed)
      modifies `bitmap, `inodes, `owner, `logMaps, `changed
      ensures Cleared(was, owner, i, changed0, changed)
      ensures Sound(others) && Truncating(was, owner, i, NDIRECT) && i in inodes
      ensures inodes == old(inodes)[i := inodes[i]]
      ensures inodes[i].addrs == seq(NDIRECT, _ => 0) + [IndirectOf(old(inodes[i]))]
    {
      ghost var ip := inodes[i];
      var k := 0;
      while k < NDIRECT
        invariant 0 <= k <= NDIRECT && i in inodes && inodes == old(inodes)[i := inodes[i]]
        invariant Cleared(was, owner, i, changed0, changed)
        invariant Sound(others) && Truncating(was, owner, i, k) && |inodes[i].addrs| == NDIRECT + 1
        invariant forall n {:trigger inodes[i].addrs[n]} | 0 <= n <= NDIRECT ::
          inodes[i].addrs[n] == if n < k then 0 else ip.addrs[n]
      {
        FreeSlot(i, inodes[i].addrs[k], others, was, ip, k, changed0);
        if inodes[i].addrs[k] != 0 {
          inodes := inodes[i := inodes[i].(addrs := inodes[i].addrs[k := 0])];
        }
        k := k + 1;
      }
    }

    /** The second loop of itrunc(), over the entries of the indirect block d. */
    method FreeIndirect(i: int, d: int, ghost others: map<int, Inode>, ghost was: map<int, Slot>, ghost ip: Inode,
                        ghost changed0: set<int>)
      requires Sound(others) && Truncating(was, owner, i, NDIRECT) && BlocksOf(disk, was, i, ip)
      requires d == IndirectOf(ip) != 0
      requires Cleared(was, owner, i, changed0, changed)
      modifies `bitmap, `owner, `logMaps, `changed
      ensures Sound(others) && Truncating(was, owner, i, MAXFILE) && Cleared(was, owner, i, changed0, changed)
    {
      var j := 0;
      while j < NINDIRECT
        invariant 0 <= j <= NINDIRECT && Sound(others) && Truncating(was, owner, i, NDIRECT + j)
        invariant Cleared(was, owner, i, changed0, changed)
      {
        assert Ptr(disk, ip, NDIRECT + j) == UintAt(disk[d], j);
        FreeSlot(i, UintAt(disk[d], j), others, was, ip, NDIRECT + j, changed0);
        j := j + 1;
      }
    }

    /** The rest of itrunc() after its first loop, with the indirect block last. */
    method FreeRest(i: int, ghost others: map<int, Inode>, ghost was: map<int, Slot>, ghost ip: Inode,
                    ghost changed0: set<int>)
      requires i in inodes && Sound(others) && Truncating(was, owner, i, NDIRECT) && BlocksOf(disk, was, i, ip)
      requires Cleared(was, owner, i, changed0, changed) && inodes[i].addrs == seq(NDIRECT, _ => 0) + [IndirectOf(ip)]
      modifies `bitmap, `inodes, `owner, `logMaps, `changed
      ensures Sound(others) && i in inodes && inodes == old(inodes)[i := inodes[i]]
      ensures inodes[i].addrs == NO_BLOCKS.addrs
      ensures owner.Keys == was.Keys
      ensures forall b {:trigger owner[b]} {:trigger was[b]} | b in owner ::
        owner[b] == if InFile(was[b], i) then Free else was[b]
      ensures Cleared(was, owner, i, changed0, changed)
    {
      var d := inodes[i].addrs[NDIRECT];
      if d != 0 {
        FreeIndirect(i, d, others, was, ip, changed0);
        TruncatingEnd(disk, was, owner, i, ip);
        LastOne(disk, was, owner, i, ip);
        var panicked := Bfree(others, d);
        inodes := inodes[i := inodes[i].(addrs := inodes[i].addrs[NDIRECT := 0])];
      } else {
        TruncatingEnd(disk, was, owner, i, ip);
      }
      assert inodes[i].addrs == NO_BLOCKS.addrs;
    }

    method Itrunc(i: int)
      requires Valid() && i in inodes
      modifies `bitmap, `inodes, `owner, `logMaps, `logInodes, `changed
      ensures Valid() && inodes == old(inodes)[i := NO_BLOCKS]
      ensures owner.Keys == old(owner.Keys)
      ensures forall b {:trigger owner[b]} | b in owner ::
        owner[b] == if InFile(old(owner)[b], i) then Free else old(owner)[b]
      ensures changed == old(changed) + FileBlocks(old(owner), i)
      ensures logInodes == old(logInodes) + {inodestart + i / IPB}
    {
      ghost var was, others, changed0 := owner, inodes - {i}, changed;
      FreeAll(i);
      AllCleared(was, owner, i, changed0, changed);
      SettledAfter(was, owner, i);
      TruncateEnd(others, i);
      Empty(i, others);
    }

    /** `ip->size = 0` and iupdate(). */
    method Empty(i: int, ghost others: map<int, Inode>)
      requires i in inodes && inodes - {i} == others && inodes[i].addrs == NO_BLOCKS.addrs
      requires Sound(others[i := NO_BLOCKS])
      modifies `inodes, `logInodes
      ensures Sound(inodes) && inodes == old(inodes)[i := NO_BLOCKS]
      ensures logInodes == old(logInodes) + {inodestart + i / IPB}
    {
      inodes := inodes[i := inodes[i].(size := 0)];
      logInodes := logInodes + {inodestart + i / IPB};
      assert inodes == others[i := NO_BLOCKS];
    }

    /** The two loops of itrunc(). */
    method FreeAll(i: int)
      requires Valid() && i in inodes
      modifies `bitmap, `inodes, `owner, `logMaps, `changed
      ensures Sound(old(inodes) - {i}) && i in inodes && inodes == old(inodes)[i := inodes[i]]
      ensures inodes[i].addrs == NO_BLOCKS.addrs
      ensures owner.Keys == old(owner).Keys && Cleared(old(owner), owner, i, old(changed), changed)
      ensures forall b {:trigger owner[b]} {:trigger old(owner)[b]} | b in owner ::
        owner[b] == if InFile(old(owner)[b], i) then Free else old(owner)[b]
    {
      ghost var was, ip, others, changed0 := owner, inodes[i], inodes - {i}, changed;
      Detach(i);
      FreeDirect(i, others, was, changed0);
      FreeRest(i, others, was, ip, changed0);
    }

    lemma TruncateEnd(others: map<int, Inode>, i: int)
      requires Sound(others) && i !in others
      ensures Sound(others[i := NO_BLOCKS])
    {
      Open(others);
      Attached(bitmap, disk, others, owner, i, 0);
    }

    /** begin_op(), for the bookkeeping here: nothing is logged yet. */
    ghost method BeginOp()
      requires Valid()
      modifies `logMaps, `logBlocks, `logInodes, `changed
      ensures Valid() && logMaps == {} && logBlocks == {} && logInodes == {} && changed == {}
    {
      Open(inodes);
      logMaps, logBlocks, logInodes, changed := {}, {}, {}, {};
    }

    lemma NothingLogged()
      requires Valid() && changed == {} && logBlocks == {} && logInodes == {}
      ensures LoggedBlocks() == {}
    {
      OpenLog(inodes);
      assert MapsOf(bmapstart, {}) == {};
    }

    lemma LoggedFits(disk0: Disk, ip: Inode, off: nat, n: nat)
      requires Valid() && n <= CHUNK && |logBlocks| <= Touched(off, n) + 1
      requires |logInodes| <= 1
      requires |changed| <= Touched(off, n) + 1 - (if n > 0 && Ptr(disk0, ip, off / BSIZE) != 0 then 1 else 0)
      ensures |LoggedBlocks()| <= 6 + Min(Takes(disk0, ip, off), MapCount(size))
      ensures NoHoles(disk0, ip) && off <= ip.size ==> |LoggedBlocks()| <= MAXOPBLOCKS
    {
      OpenLog(inodes);
      ChunkFits(disk0, ip, off, n, bmapstart, size, changed, logBlocks, logInodes);
    }

    /** The blocks logged since begin_op(). */
    ghost function LoggedBlocks(): set<int> reads this { logMaps + logBlocks + logInodes }
  }

  /** filewrite()'s largest chunk. */
  const CHUNK := (MAXOPBLOCKS - 1 - 1 - 2) / 2 * BSIZE

  /** A chunk touches four blocks only if it starts inside a block, */
  lemma ChunkTouches(off: nat, n: nat)
    requires n <= CHUNK
    ensures Touched(off, n) <= 4 && (off % BSIZE == 0 ==> Touched(off, n) <= 3)
    ensures n == CHUNK ==> Touched(off, n) == if off % BSIZE == 0 then 3 else 4
  {}

  /** How many blocks a chunk at off may have to take: five if it starts inside a block that is missing. */
  function Takes(disk: Disk, ip: Inode, off: nat): nat {
    if off % BSIZE != 0 && Ptr(disk, ip, off / BSIZE) == 0 then 5 else 4
  }

  /** ... which is then there already, in a file without holes.  So a chunk takes no more blocks than four,
      whose bits may lie in as many blocks of the bitmap; together with four data blocks, the indirect
      block and the inode that is one operation's share of the log. */
  lemma ChunkFits(disk: Disk, ip: Inode, off: nat, n: nat, start: int, size: nat, changed: set<int>, blocks: set<int>,
                  inos: set<int>)
    requires n <= CHUNK && forall b | b in changed :: 0 <= b < size
    requires |changed| <= Touched(off, n) + 1 - (if n > 0 && Ptr(disk, ip, off / BSIZE) != 0 then 1 else 0)
    requires |blocks| <= Touched(off, n) + 1 && |inos| <= 1
    ensures |MapsOf(start, changed) + blocks + inos| <= 6 + Min(Takes(disk, ip, off), MapCount(size))
    ensures NoHoles(disk, ip) && off <= ip.size ==> Takes(disk, ip, off) == 4 && 6 + Takes(disk, ip, off) == MAXOPBLOCKS
  {
    ChunkTouches(off, n);
    if NoHoles(disk, ip) && off <= ip.size && off % BSIZE != 0 {
      assert off / BSIZE * BSIZE < ip.size;
      assert Ptr(disk, ip, off / BSIZE) != 0;
    }
    MapsSize(start, changed);
    MapsCount(start, changed, size);
    UnionSize(MapsOf(start, changed), blocks);
    UnionSize(MapsOf(start, changed) + blocks, inos);
  }

  lemma UnionSize<T>(a: set<T>, b: set<T>)
    ensures |a + b| <= |a| + |b|
  {
    assert a + b == a + (b - a);
    assert |a + (b - a)| == |a| + |b - a|;
    SubsetSize(b - a, b);
  }

  /** The chunk of n bytes at off + k is part of a write of all bytes at off. */
  lemma GivenMore(owner0: map<int, Slot>, owner1: map<int, Slot>, owner2: map<int, Slot>, i: int, off: nat, k: nat,
                  n: nat, all: nat)
    requires k + n <= all && 0 < n
    requires Given(owner0, owner1, i, off / BSIZE, off / BSIZE + Touched(off, all))
    requires Given(owner1, owner2, i, (off + k) / BSIZE, (off + k) / BSIZE + Touched(off + k, n))
    ensures Given(owner0, owner2, i, off / BSIZE, off / BSIZE + Touched(off, all))
  {
    var hi, hi' := off / BSIZE + Touched(off, all), (off + k) / BSIZE + Touched(off + k, n);
    assert off / BSIZE <= (off + k) / BSIZE && hi' <= hi;
    forall b {:trigger owner2[b]} | b in owner0
      ensures owner2[b] == owner0[b] || (owner0[b] == Free && SlotIn(owner2[b], i, off / BSIZE, hi))
    {
      assert owner1[b] == owner0[b] || owner0[b] == Free;
    }
  }

  /** k bytes were there, and r bytes more have been written of the chunk of n behind them. */
  lemma FilledMore(bitmap1: seq<seq<bool>>, disk1: Disk, inodes1: map<int, Inode>, owner1: map<int, Slot>,
                   bitmap: seq<seq<bool>>, disk: Disk, inodes: map<int, Inode>, owner: map<int, Slot>,
                   logged: set<int>, i: int, off: nat, k: nat, r: nat, n: nat)
    requires Consistent(bitmap1, disk1, inodes1, owner1) && Consistent(bitmap, disk, inodes, owner)
    requires i in inodes1 && i in inodes && Filled(disk1, inodes1[i], off, k)
    requires Given(owner1, owner, i, (off + k) / BSIZE, (off + k) / BSIZE + Touched(off + k, n))
    requires Present(disk, inodes[i], logged, (off + k) / BSIZE, Touched(off + k, r))
    ensures Filled(disk, inodes[i], off, k + r)
  {
    assert Key(0, disk1) && Key(0, disk);
    assert InodeOk(disk1, owner1, i, inodes1[i]);
    forall b {:trigger owner[b]} | b in owner && InFile(owner[b], i)
      ensures SlotOk(disk, map[i := inodes[i]], b, owner[b])
    {
      assert SlotOk(disk, inodes, b, owner[b]);
    }
    forall bn {:trigger Ptr(disk, inodes[i], bn)} | off / BSIZE <= bn < off / BSIZE + Touched(off, k + r)
      ensures Ptr(disk, inodes[i], bn) != 0
    {
      if bn < off / BSIZE + Touched(off, k) {
        assert Ptr(disk1, inodes1[i], bn) != 0;
        StaysPresent(disk1, inodes1[i], owner1, disk, inodes[i], owner, i, (off + k) / BSIZE,
          (off + k) / BSIZE + Touched(off + k, n), bn);
      } else {
        assert (off + k) / BSIZE <= bn < (off + k) / BSIZE + Touched(off + k, r);
      }
    }
  }

  /** What filewrite() has done after k bytes of src. */
  ghost predicate ChunkedAt(disk0: Disk, inodes0: map<int, Inode>, owner0: map<int, Slot>, disk: Disk,
                            inodes: map<int, Inode>, owner: map<int, Slot>, i: int, start: nat, src: seq<Byte>, k: nat)
  {
    && i in inodes0 && i in inodes && inodes == inodes0[i := inodes[i]] && k <= |src|
    && inodes[i].size == (if k == 0 then inodes0[i].size else Max(inodes0[i].size, start + k))
    && (k > 0 ==> start <= inodes0[i].size && start + k <= MAXFILE * BSIZE)
    && Wrote(disk0, inodes0, disk, inodes, i, start, src[..k]) && Filled(disk, inodes[i], start, k)
    && Given(owner0, owner, i, start / BSIZE, start / BSIZE + Touched(start, |src|))
    && (NoHoles(disk0, inodes0[i]) ==> NoHoles(disk, inodes[i]))
  }

  /** The same, behind a trigger. */
  ghost predicate Chunked(disk0: Disk, inodes0: map<int, Inode>, owner0: map<int, Slot>, disk: Disk,
                          inodes: map<int, Inode>, owner: map<int, Slot>, i: int, start: nat, src: seq<Byte>, k: nat) {
    forall x {:trigger Key(x, (src, k))} | Key(x, (src, k)) ::
      ChunkedAt(disk0, inodes0, owner0, disk, inodes, owner, i, start, src, k)
  }

  /** Why filewrite() stops after k of n bytes: it begins behind the end, or the next chunk would pass the largest
      file, or writei() stops. */
  ghost predicate CutShort(inodes0: map<int, Inode>, disk: Disk, inodes: map<int, Inode>, owner: map<int, Slot>,
                           i: int, start: nat, n: nat, k: nat, mapped: int)
    requires i in inodes0 && i in inodes && k <= n
  {
    || start > inodes0[i].size || start + k + Min(n - k, CHUNK) > MAXFILE * BSIZE
    || Stopped(disk, inodes[i], owner, start, n, k, mapped)
  }

  /** What file i can take from off on: no gap, no more than the largest file, bytes that can be read, and
      blocks enough. */
  ghost predicate CanHold(disk: Disk, inodes: map<int, Inode>, owner: map<int, Slot>, i: int, off: nat, n: nat,
                          mapped: int)
    requires i in inodes
  {
    off <= inodes[i].size && off + n <= MAXFILE * BSIZE && n <= mapped && Room(disk, inodes[i], owner, off, n)
  }

  lemma ChunkedStart(disk: Disk, inodes: map<int, Inode>, owner: map<int, Slot>, i: int, start: nat, src: seq<Byte>)
    requires i in inodes
    ensures Chunked(disk, inodes, owner, disk, inodes, owner, i, start, src, 0)
  {
    assert src[..0] == [];
  }

  lemma ChunkedIs(disk0: Disk, inodes0: map<int, Inode>, owner0: map<int, Slot>, disk: Disk,
                  inodes: map<int, Inode>, owner: map<int, Slot>, i: int, start: nat, src: seq<Byte>, k: nat)
    requires Chunked(disk0, inodes0, owner0, disk, inodes, owner, i, start, src, k)
    ensures i in inodes0 && i in inodes
    ensures inodes[i].size == if k == 0 then inodes0[i].size else Max(inodes0[i].size, start + k)
    ensures k > 0 ==> start <= inodes0[i].size
    ensures NoHoles(disk0, inodes0[i]) ==> NoHoles(disk, inodes[i])
  {
    assert Key(0, (src, k));
  }

  lemma WroteChunk(disk0: Disk, inodes0: map<int, Inode>, disk1: Disk, inodes1: map<int, Inode>, disk: Disk,
                   inodes: map<int, Inode>, i: int, start: nat, src: seq<Byte>, k: nat, chunk: seq<Byte>, r: nat)
    requires k + |chunk| <= |src| && chunk == src[k..k + |chunk|] && r <= |chunk|
    requires Wrote(disk0, inodes0, disk1, inodes1, i, start, src[..k])
    requires Wrote(disk1, inodes1, disk, inodes, i, start + k, chunk[..r])
    ensures Wrote(disk0, inodes0, disk, inodes, i, start, src[..k + r])
  {
    SameBytesSelf(disk1, inodes1);
    WroteMore(disk0, inodes0, disk1, inodes1, disk1, inodes1, disk, inodes, i, start, src[..k], chunk[..r]);
    OnePieceMore(src, k, |chunk|, r);
  }

  lemma ChunkedMore(disk0: Disk, inodes0: map<int, Inode>, owner0: map<int, Slot>,
                    bitmap1: seq<seq<bool>>, disk1: Disk, inodes1: map<int, Inode>, owner1: map<int, Slot>,
                    bitmap: seq<seq<bool>>, disk: Disk, inodes: map<int, Inode>, owner: map<int, Slot>,
                    logged: set<int>, i: int, start: nat, src: seq<Byte>, k: nat, r: nat, chunk: seq<Byte>, at: nat,
                    k': nat)
    requires Chunked(disk0, inodes0, owner0, disk1, inodes1, owner1, i, start, src, k)
    requires k + |chunk| <= |src| && chunk == src[k..k + |chunk|] && at == start + k && k' == k + r
    requires Consistent(bitmap1, disk1, inodes1, owner1) && Consistent(bitmap, disk, inodes, owner)
    requires r <= |chunk| && chunk != [] && i in inodes1 && i in inodes && inodes == inodes1[i := inodes[i]]
    requires at <= inodes1[i].size && at + |chunk| <= MAXFILE * BSIZE && inodes[i].size == Max(inodes1[i].size, at + r)
    requires Wrote(disk1, inodes1, disk, inodes, i, at, chunk[..r])
    requires Given(owner1, owner, i, at / BSIZE, at / BSIZE + Touched(at, |chunk|))
    requires Present(disk, inodes[i], logged, at / BSIZE, Touched(at, r))
    requires NoHoles(disk1, inodes1[i]) ==> NoHoles(disk, inodes[i])
    ensures Chunked(disk0, inodes0, owner0, disk, inodes, owner, i, start, src, k')
  {
    assert Key(0, (src, k));
    WroteChunk(disk0, inodes0, disk1, inodes1, disk, inodes, i, start, src, k, chunk, r);
    GivenMore(owner0, owner1, owner, i, start, k, |chunk|, |src|);
    FilledMore(bitmap1, disk1, inodes1, owner1, bitmap, disk, inodes, owner, logged, i, start, k, r, |chunk|);
  }

  /** Where a chunk stops, the whole write stops. */
  lemma ChunkStopped(inodes0: map<int, Inode>, disk: Disk, inodes: map<int, Inode>, owner: map<int, Slot>, i: int,
                     start: nat, at: nat, all: nat, k: nat, n: nat, r: nat, k': nat, mapped: nat, left: nat)
    requires i in inodes0 && i in inodes && k + n <= all && r < n && at == start + k && k' == k + r
    requires left == mapped - k && Stopped(disk, inodes[i], owner, at, n, r, left)
    ensures CutShort(inodes0, disk, inodes, owner, i, start, all, k', mapped)
  {
    assert at + r == start + k';
  }

  lemma ChunkedEnd(bitmap0: seq<seq<bool>>, disk0: Disk, inodes0: map<int, Inode>, owner0: map<int, Slot>,
                   bitmap: seq<seq<bool>>, disk: Disk, inodes: map<int, Inode>, owner: map<int, Slot>,
                   i: int, start: nat, src: seq<Byte>, k: nat, mapped: int)
    requires Chunked(disk0, inodes0, owner0, disk, inodes, owner, i, start, src, k) && k <= mapped && k <= |src|
    requires Consistent(bitmap0, disk0, inodes0, owner0) && Consistent(bitmap, disk, inodes, owner)
    requires i in inodes0 && i in inodes
    requires k < |src| ==> CutShort(inodes0, disk, inodes, owner, i, start, |src|, k, mapped)
    ensures ChunkedAt(disk0, inodes0, owner0, disk, inodes, owner, i, start, src, k)
    ensures k == |src| <==> |src| == 0 || CanHold(disk0, inodes0, owner0, i, start, |src|, mapped)
  {
    assert Key(0, (src, k));
    if |src| > 0 && start <= inodes0[i].size && start + |src| <= MAXFILE * BSIZE && |src| <= mapped {
      RoomExactly(bitmap0, disk0, inodes0, owner0, bitmap, disk, inodes, owner, i, start, |src|, k, mapped);
    }
  }

  /** An open file, of type FD_INODE. */
  class File {
    const fs: FileSystem
    const i: int
    const writable: bool
    var off: nat

    constructor (fs: FileSystem, i: int, writable: bool)
      ensures this.fs == fs && this.i == i && this.writable == writable && off == 0
    {
      this.fs, this.i, this.writable, off := fs, i, writable, 0;
    }

    /** One turn of the loop in filewrite(): a chunk in an operation of its own. */
    method WriteChunk(chunk: seq<Byte>, mapped: nat) returns (r: int)
      requires fs.Valid() && i in fs.inodes && off < 0x1_0000_0000 && |chunk| <= CHUNK
      modifies this`off, fs
      ensures fs.Valid() && i in fs.inodes && r <= |chunk|
      ensures |fs.LoggedBlocks()| <= 6 + Min(old(Takes(fs.disk, fs.inodes[i], off)), MapCount(fs.size))
      ensures old(NoHoles(fs.disk, fs.inodes[i])) ==>
        NoHoles(fs.disk, fs.inodes[i]) && |fs.LoggedBlocks()| <= MAXOPBLOCKS
      ensures r == -1 || 0 <= r <= mapped
      ensures r == -1 ==> fs.disk == old(fs.disk) && fs.inodes == old(fs.inodes) && fs.owner == old(fs.owner)
      ensures r == -1 <==> old(off) > old(fs.inodes[i].size) || old(off) + |chunk| > MAXFILE * BSIZE
      ensures off == old(off) + Max(r, 0)
      ensures r != -1 ==> Wrote(old(fs.disk), old(fs.inodes), fs.disk, fs.inodes, i, old(off), chunk[..r])
      ensures r != -1 ==>
        fs.inodes == old(fs.inodes)[i := fs.inodes[i]] && fs.inodes[i].size == Max(old(fs.inodes[i].size), off)
      ensures Given(old(fs.owner), fs.owner, i, old(off) / BSIZE, old(off) / BSIZE + Touched(old(off), |chunk|))
      ensures Noted(old(fs.owner), fs.owner, {}, fs.changed, {}, fs.logBlocks)
      ensures r != -1 ==> fs.inodestart + i / IPB in fs.logInodes
      ensures r != -1 ==> Present(fs.disk, fs.inodes[i], fs.logBlocks, old(off) / BSIZE, Touched(old(off), r))
      ensures 0 <= r < |chunk| ==> Stopped(fs.disk, fs.inodes[i], fs.owner, old(off), |chunk|, r, mapped)
    {
      ghost var disk0, inodes0, owner0 := fs.disk, fs.inodes, fs.owner;
      fs.BeginOp();
      r := fs.Writei(i, chunk, off, mapped);
      if r != -1 {
        fs.LoggedFits(disk0, inodes0[i], off, |chunk|);
      } else {
        fs.NothingLogged();
      }
      if r > 0 {
        off := off + r;
      }
    }

    /** One turn of the loop in filewrite(): after k bytes from `start` on it goes on to k'. */
    method WriteNext(src: seq<Byte>, k: nat, n1: nat, mapped: nat, ghost start: nat, ghost disk0: Disk,
                     ghost inodes0: map<int, Inode>, ghost owner0: map<int, Slot>, ghost most: nat)
      returns (r: int, ghost k': nat, ghost most': nat)
      requires fs.Valid() && i in fs.inodes && i in inodes0 && k < |src| && n1 == Min(|src| - k, CHUNK) && k <= mapped
      requires off == start + k < 0x1_0000_0000
      requires Chunked(disk0, inodes0, owner0, fs.disk, fs.inodes, fs.owner, i, start, src, k)
      requires NoHoles(disk0, inodes0[i]) ==> most <= MAXOPBLOCKS
      modifies this`off, fs
      ensures fs.Valid() && i in fs.inodes && k' == k + Max(r, 0) <= mapped && -1 <= r <= n1 && off == start + k'
      ensures Chunked(disk0, inodes0, owner0, fs.disk, fs.inodes, fs.owner, i, start, src, k')
      ensures r < n1 ==> CutShort(inodes0, fs.disk, fs.inodes, fs.owner, i, start, |src|, k', mapped)
      ensures most' == Max(most, |fs.LoggedBlocks()|) && (NoHoles(disk0, inodes0[i]) ==> most' <= MAXOPBLOCKS)
    {
      ghost var bitmap1, disk1, inodes1, owner1 := fs.bitmap, fs.disk, fs.inodes, fs.owner;
      ChunkedIs(disk0, inodes0, owner0, fs.disk, fs.inodes, fs.owner, i, start, src, k);
      ghost var at := off;
      var left := mapped - k;
      var chunk := src[k..k + n1];
      r := WriteChunk(chunk, left);
      k', most' := k + Max(r, 0), Max(most, |fs.LoggedBlocks()|);
      if r >= 0 {
        ChunkedMore(disk0, inodes0, owner0, bitmap1, disk1, inodes1, owner1, fs.bitmap, fs.disk, fs.inodes, fs.owner,
          fs.logBlocks, i, start, src, k, r, chunk, at, k');
        if r < n1 {
          ChunkStopped(inodes0, fs.disk, fs.inodes, fs.owner, i, start, at, |src|, k, n1, r, k', mapped, left);
        }
      }
    }

    /** The bytes of src lie in the caller's memory, of which the kernel can reach the first `mapped`.  most is the
        largest number of blocks that one of the operations logged. */
    method Filewrite(src: seq<Byte>, mapped: nat) returns (ret: int, ghost written: nat, ghost most: nat)
      requires fs.Valid() && i in fs.inodes && off + |src| < 0x1_0000_0000
      modifies this`off, fs
      ensures fs.Valid() && i in fs.inodes
      ensures !writable ==> ret == -1 && written == 0 && fs.disk == old(fs.disk) && fs.inodes == old(fs.inodes)
      ensures writable ==> ret == if written == |src| then |src| else -1
      ensures ret == |src| <==>
        writable && (|src| == 0 || old(CanHold(fs.disk, fs.inodes, fs.owner, i, off, |src|, mapped)))
      ensures writable && written < |src| ==>
        CutShort(old(fs.inodes), fs.disk, fs.inodes, fs.owner, i, old(off), |src|, written, mapped)
      ensures written <= |src| && written <= mapped && off == old(off) + written
      ensures Wrote(old(fs.disk), old(fs.inodes), fs.disk, fs.inodes, i, old(off), src[..written])
      ensures fs.inodes == old(fs.inodes)[i := fs.inodes[i]]
      ensures fs.inodes[i].size == if written == 0 then old(fs.inodes[i].size) else Max(old(fs.inodes[i].size), off)
      ensures Given(old(fs.owner), fs.owner, i, old(off) / BSIZE, old(off) / BSIZE + Touched(old(off), |src|))
      ensures old(NoHoles(fs.disk, fs.inodes[i])) ==> NoHoles(fs.disk, fs.inodes[i]) && most <= MAXOPBLOCKS
    {
      written, most := 0, 0;
      if !writable {
        return -1, 0, 0;
      }
      ret, written, most := WriteChunks(src, mapped);
    }

    /** The loop of filewrite(). */
    method WriteChunks(src: seq<Byte>, mapped: nat) returns (ret: int, ghost written: nat, ghost most: nat)
      requires fs.Valid() && i in fs.inodes && off + |src| < 0x1_0000_0000
      modifies this`off, fs
      ensures fs.Valid() && i in fs.inodes && ret == if written == |src| then |src| else -1
      ensures written == |src| <==> |src| == 0 || old(CanHold(fs.disk, fs.inodes, fs.owner, i, off, |src|, mapped))
      ensures written <= |src| && written <= mapped && off == old(off) + written
      ensures written < |src| ==>
        CutShort(old(fs.inodes), fs.disk, fs.inodes, fs.owner, i, old(off), |src|, written, mapped)
      ensures ChunkedAt(old(fs.disk), old(fs.inodes), old(fs.owner), fs.disk, fs.inodes, fs.owner, i, old(off), src,
        written)
      ensures old(NoHoles(fs.disk, fs.inodes[i])) ==> most <= MAXOPBLOCKS
    {
      var k := 0;
      written, most := 0, 0;
      ghost var bitmap0, disk0, inodes0, owner0 := fs.bitmap, fs.disk, fs.inodes, fs.owner;
      ChunkedStart(disk0, inodes0, owner0, i, off, src);
      while k < |src|
        invariant k == written <= |src| && k <= mapped && off == old(off) + k
        invariant fs.Valid() && i in fs.inodes
        invariant Chunked(disk0, inodes0, owner0, fs.disk, fs.inodes, fs.owner, i, old(off), src, k)
        invariant NoHoles(disk0, inodes0[i]) ==> most <= MAXOPBLOCKS
      {
        var n1 := Min(|src| - k, CHUNK);
        var r;
        r, written, most := WriteNext(src, k, n1, mapped, old(off), disk0, inodes0, owner0, most);
        if r != n1 {
          break;
        }
        k := k + r;
      }
      ChunkedEnd(bitmap0, disk0, inodes0, owner0, fs.bitmap, fs.disk, fs.inodes, fs.owner, i, old(off), src, written,
        mapped);
      ret := if k == |src| then |src| else -1;
    }
  }
}
