/** The buffer cache: a ring of buffers in order of use, and at most one buffer for a block. */
module BufferCache {
  import opened Lists

  const NBUF := 30
  const HEAD := -1

  type Bytes = seq<int>
  datatype Buf = Buf(dev: int, blockno: int, valid: bool, refcnt: nat, data: Bytes)

  /** The buffer is for this block. */
  predicate For(buf: Buf, dev: int, blockno: int) { buf.dev == dev && buf.blockno == blockno }

  function OnDisk(disk: map<(int, int), Bytes>, dev: int, blockno: int): Bytes {
    if (dev, blockno) in disk then disk[(dev, blockno)] else []
  }

  /** Nobody refers to it, and it holds nothing. */
  predicate Idle(x: Buf) { x.refcnt == 0 && !x.valid }

  /** It could be dropped without loss. */
  predicate Saved(x: Buf, disk: map<(int, int), Bytes>) { x.valid ==> x.data == OnDisk(disk, x.dev, x.blockno) }

  /** Of the buffers for one block all but the first in the ring are idle. */
  ghost predicate Firsts(buf: seq<Buf>, order: seq<int>) {
    forall i, j {:trigger order[i], order[j]} |
      0 <= i < j < |order| && 0 <= order[i] < |buf| && 0 <= order[j] < |buf| ::
      For(buf[order[j]], buf[order[i]].dev, buf[order[i]].blockno) ==> Idle(buf[order[j]])
  }

  /** Buffer b is the first in the ring for its block. */
  ghost predicate IsFirst(buf: seq<Buf>, order: seq<int>, b: int) {
    0 <= b < |buf| && exists k :: 0 <= k < |order| && order[k] == b && forall i | 0 <= i < k && 0 <= order[i] < |buf| ::
      !For(buf[order[i]], buf[b].dev, buf[b].blockno)
  }

  /** Of two buffers for one block one is idle: at most one is referred to, and at most one is valid. */
  ghost predicate Unique(buf: seq<Buf>) {
    forall b, c {:trigger buf[b], buf[c]} | 0 <= b < |buf| && 0 <= c < |buf| && b != c ::
      For(buf[c], buf[b].dev, buf[b].blockno) ==> Idle(buf[b]) || Idle(buf[c])
  }

  ghost predicate HasAll(order: seq<int>, n: nat) {
    && (forall i {:trigger order[i]} | 0 <= i < |order| :: 0 <= order[i] < n)
    && (forall b {:trigger b in order} | 0 <= b < n :: b in order)
  }

  /** One buffer at most is in use for a block, on device 0 as well; it is the first in the ring. */
  lemma OneInUse(buf: seq<Buf>, order: seq<int>)
    requires Firsts(buf, order) && HasAll(order, |buf|)
    ensures Unique(buf)
    ensures forall b {:trigger IsFirst(buf, order, b)} | 0 <= b < |buf| && !Idle(buf[b]) :: IsFirst(buf, order, b)
  {
    forall b, c {:trigger buf[b], buf[c]} | 0 <= b < |buf| && 0 <= c < |buf| && b != c
      ensures For(buf[c], buf[b].dev, buf[b].blockno) ==> Idle(buf[b]) || Idle(buf[c])
    {
      assert b in order && c in order;
      var i, j :| 0 <= i < |order| && 0 <= j < |order| && order[i] == b && order[j] == c;
      assert i < j || j < i;
    }
    forall b {:trigger IsFirst(buf, order, b)} | 0 <= b < |buf| && !Idle(buf[b]) ensures IsFirst(buf, order, b) {
      assert b in order;
      var k :| 0 <= k < |order| && order[k] == b;
      assert forall i | 0 <= i < k && 0 <= order[i] < |buf| :: !For(buf[order[i]], buf[b].dev, buf[b].blockno);
    }
  }

  /** The first buffer for a block may change, but for its block. */
  lemma FirstsSet(buf: seq<Buf>, order: seq<int>, b: nat, x: Buf)
    requires Firsts(buf, order) && IsFirst(buf, order, b) && For(x, buf[b].dev, buf[b].blockno)
    requires forall i, j {:trigger order[i], order[j]} | 0 <= i < j < |order| :: order[i] != order[j]
    ensures Firsts(buf[b := x], order) && IsFirst(buf[b := x], order, b)
  {
    var buf' := buf[b := x];
    var k :| 0 <= k < |order| && order[k] == b && forall i | 0 <= i < k && 0 <= order[i] < |buf| ::
      !For(buf[order[i]], buf[b].dev, buf[b].blockno);
    forall i, j {:trigger order[i], order[j]} |
      0 <= i < j < |order| && 0 <= order[i] < |buf'| && 0 <= order[j] < |buf'|
      ensures For(buf'[order[j]], buf'[order[i]].dev, buf'[order[i]].blockno) ==> Idle(buf'[order[j]])
    {
      assert order[i] != b ==> buf'[order[i]] == buf[order[i]];
      assert order[j] != b ==> buf'[order[j]] == buf[order[j]];
      if order[j] == b {
        assert j == k;
      }
    }
    assert forall i | 0 <= i < k && 0 <= order[i] < |buf'| :: !For(buf'[order[i]], buf'[b].dev, buf'[b].blockno);
  }

  /** A block that no buffer is for gets one. */
  lemma FirstsNew(buf: seq<Buf>, order: seq<int>, b: nat, x: Buf)
    requires Firsts(buf, order) && b < |buf| && forall c | 0 <= c < |buf| :: !For(buf[c], x.dev, x.blockno)
    requires forall i, j {:trigger order[i], order[j]} | 0 <= i < j < |order| :: order[i] != order[j]
    ensures Firsts(buf[b := x], order)
  {
    var buf' := buf[b := x];
    forall i, j {:trigger order[i], order[j]} |
      0 <= i < j < |order| && 0 <= order[i] < |buf'| && 0 <= order[j] < |buf'|
      ensures For(buf'[order[j]], buf'[order[i]].dev, buf'[order[i]].blockno) ==> Idle(buf'[order[j]])
    {
      assert order[i] != b ==> buf'[order[i]] == buf[order[i]];
      assert order[j] != b ==> buf'[order[j]] == buf[order[j]];
    }
  }

  /** The first buffer for a block may move to the front. */
  lemma FirstsMoved(buf: seq<Buf>, order: seq<int>, k: nat)
    requires Firsts(buf, order) && k < |order| && IsFirst(buf, order, order[k])
    requires forall i, j {:trigger order[i], order[j]} | 0 <= i < j < |order| :: order[i] != order[j]
    ensures Firsts(buf, MovedFirst(order, k))
  {
    var order' := MovedFirst(order, k);
    forall i, j {:trigger order'[i], order'[j]} |
      0 <= i < j < |order'| && 0 <= order'[i] < |buf| && 0 <= order'[j] < |buf|
      ensures For(buf[order'[j]], buf[order'[i]].dev, buf[order'[i]].blockno) ==> Idle(buf[order'[j]])
    {
      var i0, j0 := if i == 0 then k else if i <= k then i - 1 else i, if j <= k then j - 1 else j;
      assert order'[i] == order[i0] && order'[j] == order[j0] && i0 != j0;
      assert j0 < i0 ==> i0 == k;
    }
  }

  /** A buffer that nobody refers to could be dropped without loss. */
  ghost predicate Clean(buf: seq<Buf>, disk: map<(int, int), Bytes>) {
    forall b {:trigger buf[b]} | 0 <= b < |buf| && buf[b].refcnt == 0 :: Saved(buf[b], disk)
  }

  /** What the cache stands for: of a block that is cached the buffer counts, of others the disk. */
  ghost predicate Stands(buf: seq<Buf>, disk: map<(int, int), Bytes>, dev: int, blockno: int, x: Bytes) {
    if exists b :: 0 <= b < |buf| && For(buf[b], dev, blockno) && buf[b].valid
    then exists b :: 0 <= b < |buf| && For(buf[b], dev, blockno) && buf[b].valid && buf[b].data == x
    else x == OnDisk(disk, dev, blockno)
  }

  /** Every block stands for what it did. */
  ghost predicate SameContents(buf: seq<Buf>, disk: map<(int, int), Bytes>, buf': seq<Buf>,
                               disk': map<(int, int), Bytes>) {
    forall dev, blockno, x {:trigger Stands(buf', disk', dev, blockno, x)} ::
      Stands(buf', disk', dev, blockno, x) <==> Stands(buf, disk, dev, blockno, x)
  }

  /** A buffer that is given to another block loses what it held, just if that is not on the disk. */
  lemma Recycled(buf: seq<Buf>, disk: map<(int, int), Bytes>, b: nat, dev: int, blockno: int)
    requires Unique(buf) && b < |buf| && buf[b].refcnt == 0
    requires forall c | 0 <= c < |buf| :: !For(buf[c], dev, blockno)
    ensures var buf' := buf[b := Buf(dev, blockno, false, 1, buf[b].data)];
            && (SameContents(buf, disk, buf', disk) <==> Saved(buf[b], disk))
            && (Clean(buf, disk) ==> Clean(buf', disk))
  {
    var buf' := buf[b := Buf(dev, blockno, false, 1, buf[b].data)];
    if Saved(buf[b], disk) {
      forall d, n, x {:trigger Stands(buf', disk, d, n, x)}
        ensures Stands(buf', disk, d, n, x) <==> Stands(buf, disk, d, n, x)
      {
        RecycledAt(buf, disk, b, buf', d, n, x);
      }
    } else {
      var d, n, x := buf[b].dev, buf[b].blockno, buf[b].data;
      assert Stands(buf, disk, d, n, x);
      forall c | 0 <= c < |buf'| ensures !(For(buf'[c], d, n) && buf'[c].valid) {
        assert c != b ==> buf'[c] == buf[c];
      }
      assert !Stands(buf', disk, d, n, x);
    }
  }

  lemma RecycledAt(buf: seq<Buf>, disk: map<(int, int), Bytes>, b: nat, buf': seq<Buf>, d: int, n: int, x: Bytes)
    requires Unique(buf) && b < |buf| == |buf'| && Saved(buf[b], disk) && !buf'[b].valid
    requires forall c | 0 <= c < |buf| && c != b :: buf'[c] == buf[c]
    ensures Stands(buf', disk, d, n, x) <==> Stands(buf, disk, d, n, x)
  {
    if c :| 0 <= c < |buf| && For(buf[c], d, n) && buf[c].valid {
      assert forall e | 0 <= e < |buf| && For(buf[e], d, n) && buf[e].valid :: e == c;
      assert c != b ==> For(buf'[c], d, n) && buf'[c].valid;
      assert forall e | 0 <= e < |buf'| && For(buf'[e], d, n) && buf'[e].valid :: e == c;
    } else {
      forall e | 0 <= e < |buf'| ensures !(For(buf'[e], d, n) && buf'[e].valid) {
        assert e != b ==> buf'[e] == buf[e];
      }
    }
  }

  /** A change of the reference count alone. */
  lemma Counted(buf: seq<Buf>, disk: map<(int, int), Bytes>, b: nat, n: nat)
    requires b < |buf|
    ensures var buf' := buf[b := buf[b].(refcnt := n)];
            && SameContents(buf, disk, buf', disk)
            && (Clean(buf, disk) && (n > 0 || Saved(buf[b], disk)) ==> Clean(buf', disk))
  {
    var buf' := buf[b := buf[b].(refcnt := n)];
    forall d, k, x {:trigger Stands(buf', disk, d, k, x)}
      ensures Stands(buf', disk, d, k, x) <==> Stands(buf, disk, d, k, x)
    {
      assert forall c | 0 <= c < |buf| ::
        For(buf'[c], d, k) == For(buf[c], d, k) && buf'[c].valid == buf[c].valid && buf'[c].data == buf[c].data;
    }
  }

  /** The block is read into its buffer, or written from it. */
  lemma Transferred(buf: seq<Buf>, disk: map<(int, int), Bytes>, b: nat, buf': seq<Buf>, disk': map<(int, int), Bytes>)
    requires Unique(buf) && b < |buf| && buf[b].refcnt > 0
    requires (!buf[b].valid && disk' == disk
              && buf' == buf[b := buf[b].(valid := true, data := OnDisk(disk, buf[b].dev, buf[b].blockno))])
          || (buf[b].valid && buf' == buf && disk' == disk[(buf[b].dev, buf[b].blockno) := buf[b].data])
    ensures SameContents(buf, disk, buf', disk') && (Clean(buf, disk) ==> Clean(buf', disk')) && Saved(buf'[b], disk')
  {
    forall c {:trigger buf'[c]} | 0 <= c < |buf'| && buf'[c].refcnt == 0 && Saved(buf[c], disk)
      ensures Saved(buf'[c], disk')
    {
      assert c != b && buf'[c] == buf[c];
    }
    forall d, k, x {:trigger Stands(buf', disk', d, k, x)}
      ensures Stands(buf', disk', d, k, x) <==> Stands(buf, disk, d, k, x)
    {
      if For(buf[b], d, k) {
        assert forall c | 0 <= c < |buf| && For(buf[c], d, k) && buf[c].valid :: c == b;
        assert For(buf'[b], d, k) && buf'[b].valid;
      } else {
        assert forall c | 0 <= c < |buf| && For(buf'[c], d, k) :: buf'[c] == buf[c];
        assert forall c | 0 <= c < |buf| && For(buf[c], d, k) :: buf'[c] == buf[c];
      }
    }
  }

  /** The ring lists all buffers, each once. */
  ghost predicate Order(links: Links, order: seq<int>) {
    Ring(links, [HEAD] + order) && HasAll(order, NBUF)
  }

  function MovedFirst(order: seq<int>, k: nat): seq<int>
    requires k < |order|
  {
    [order[k]] + order[..k] + order[k + 1..]
  }

  /** Taking a buffer out and putting it behind the head, as brelse() does. */
  lemma Touched(links: Links, order: seq<int>, k: nat)
    requires Order(links, order) && k < |order|
    ensures order[k] in links.next && order[k] in links.prev && HEAD in Del(links, order[k]).next
    ensures Order(AddFirst(Del(links, order[k]), order[k], HEAD), MovedFirst(order, k))
  {
    var nodes, b := [HEAD] + order, order[k];
    assert nodes[k + 1] == b;
    DelRing(links, nodes, k + 1);
    var rest := nodes[..k + 1] + nodes[k + 2..];
    assert rest[0] == HEAD && rest == [HEAD] + (order[..k] + order[k + 1..]);
    assert b !in rest by {
      assert forall i | 0 <= i < |rest| :: rest[i] == nodes[if i < k + 1 then i else i + 1];
    }
    AddFirstRing(Del(links, b), rest, b);
    assert [rest[0], b] + rest[1..] == [HEAD] + MovedFirst(order, k);
    MovedSame(order, k);
  }

  /** The order has the same buffers after one has moved to the front. */
  lemma MovedSame(order: seq<int>, k: nat)
    requires k < |order| && (forall c {:trigger c in order} | 0 <= c < NBUF :: c in order)
    requires forall i {:trigger order[i]} | 0 <= i < |order| :: 0 <= order[i] < NBUF
    ensures forall c {:trigger c in MovedFirst(order, k)} | 0 <= c < NBUF :: c in MovedFirst(order, k)
    ensures forall i {:trigger MovedFirst(order, k)[i]} | 0 <= i < |MovedFirst(order, k)| ::
      0 <= MovedFirst(order, k)[i] < NBUF
  {
    var order' := MovedFirst(order, k);
    forall c {:trigger c in order'} | 0 <= c < NBUF ensures c in order' {
      assert c in order;
      var i :| 0 <= i < |order| && order[i] == c;
      assert order'[if i == k then 0 else if i < k then i + 1 else i] == c;
    }
    forall i {:trigger order'[i]} | 0 <= i < |order'| ensures 0 <= order'[i] < NBUF {
      assert order'[i] == order[if i == 0 then k else if i <= k then i - 1 else i];
    }
  }

  class Cache {
    var links: Links
    var buf: seq<Buf>
    var disk: map<(int, int), Bytes>
    ghost var order: seq<int>

    ghost predicate Valid() reads this {
      |buf| == NBUF && Order(links, order) && Firsts(buf, order)
    }

    lemma Open()
      requires Valid()
      ensures Unique(buf) && HasAll(order, NBUF)
      ensures forall i, j {:trigger order[i], order[j]} | 0 <= i < j < |order| :: order[i] != order[j]
      ensures forall b {:trigger IsFirst(buf, order, b)} | 0 <= b < NBUF && !Idle(buf[b]) :: IsFirst(buf, order, b)
    {
      OneInUse(buf, order);
      forall i, j {:trigger order[i], order[j]} | 0 <= i < j < |order| ensures order[i] != order[j] {
        assert ([HEAD] + order)[i + 1] == order[i] && ([HEAD] + order)[j + 1] == order[j];
      }
    }

    /** binit() */
    constructor (disk: map<(int, int), Bytes>)
      ensures Valid() && Clean(buf, disk) && this.disk == disk
      ensures forall b | 0 <= b < NBUF :: buf[b] == Buf(0, 0, false, 0, [])
    {
      this.disk := disk;
      buf := seq(NBUF, _ => Buf(0, 0, false, 0, []));
      links := Init(Links(map[], map[]), HEAD);
      order := [];
      new;
      assert Linked(links, [HEAD], 0);
      var b := 0;
      while b < NBUF
        invariant 0 <= b <= NBUF && buf == seq(NBUF, _ => Buf(0, 0, false, 0, [])) && this.disk == disk
        invariant Ring(links, [HEAD] + order) && |order| == b
        invariant (forall i {:trigger order[i]} | 0 <= i < b :: order[i] == b - 1 - i)
      {
        assert ([HEAD] + order)[0] == HEAD && b !in [HEAD] + order;
        AddFirstRing(links, [HEAD] + order, b);
        assert [HEAD, b] + ([HEAD] + order)[1..] == [HEAD] + ([b] + order);
        links := AddFirst(links, b, HEAD);
        order := [b] + order;
        b := b + 1;
      }
      forall c {:trigger c in order} | 0 <= c < NBUF ensures c in order {
        assert order[NBUF - 1 - c] == c;
      }
    }

    /** The first loop of bget(): is the block cached?  HEAD if not. */
    method Cached(dev: int, blockno: int) returns (b: int)
      requires Valid()
      ensures b == HEAD ==> forall c | 0 <= c < NBUF :: !For(buf[c], dev, blockno)
      ensures b != HEAD ==> 0 <= b < NBUF && For(buf[b], dev, blockno) && IsFirst(buf, order, b)
    {
      ghost var nodes := [HEAD] + order;
      assert nodes[0] == HEAD;
      Ends(links, nodes, 0);
      b := links.next[HEAD];
      ghost var i := 0;
      while b != HEAD
        invariant i < |nodes| && b == nodes[Succ(i, |nodes|)]
        invariant forall j | 0 < j <= i :: !For(buf[nodes[j]], dev, blockno)
        decreases |nodes| - i
      {
        assert b == nodes[i + 1] == order[i];
        if buf[b].dev == dev && buf[b].blockno == blockno {
          forall j | 0 <= j < i ensures !For(buf[order[j]], dev, blockno) {
            assert nodes[j + 1] == order[j];
          }
          return;
        }
        Ends(links, nodes, i + 1);
        i := i + 1;
        b := links.next[b];
      }
      forall c | 0 <= c < NBUF ensures !For(buf[c], dev, blockno) {
        assert c in order;
        var j :| 0 <= j < |order| && order[j] == c;
        assert nodes[j + 1] == c;
      }
    }

    /** The second loop: the least recently used buffer that nobody has, or HEAD. */
    method Unused() returns (b: int)
      requires Valid()
      ensures b == HEAD ==> forall c | 0 <= c < NBUF :: buf[c].refcnt > 0
      ensures b != HEAD ==> 0 <= b < NBUF && buf[b].refcnt == 0 && LeastRecent(buf, order, b)
    {
      ghost var nodes := [HEAD] + order;
      assert nodes[0] == HEAD;
      Ends(links, nodes, 0);
      b := links.prev[HEAD];
      ghost var i := |nodes| - 1;
      while b != HEAD
        invariant 0 <= i < |nodes| && b == nodes[i]
        invariant forall j | i < j < |nodes| :: buf[nodes[j]].refcnt > 0
        decreases i
      {
        assert b == nodes[i] == order[i - 1];
        if buf[b].refcnt == 0 {
          LastUnused(buf, order, i - 1);
          return;
        }
        Ends(links, nodes, i);
        i := i - 1;
        b := links.prev[b];
      }
      forall c | 0 <= c < NBUF ensures buf[c].refcnt > 0 {
        assert c in order;
        var j :| 0 <= j < |order| && order[j] == c;
        assert nodes[j + 1] == c;
      }
    }

    /** A buffer for the block, with one more reference; -1 is the panic for want of a buffer. */
    method Bget(dev: int, blockno: int) returns (b: int)
      requires Valid()
      modifies `buf
      ensures Valid() && (old(Clean(buf, disk)) ==> Clean(buf, disk) && SameContents(old(buf), disk, buf, disk))
      ensures b == -1 <==> forall c | 0 <= c < NBUF :: !For(old(buf)[c], dev, blockno) && old(buf)[c].refcnt > 0
      ensures b == -1 ==> buf == old(buf)
      ensures b != -1 ==>
        0 <= b < NBUF && For(buf[b], dev, blockno) && buf == old(buf)[b := buf[b]]
        && buf[b].refcnt == old(buf)[b].refcnt + 1
      ensures b != -1 ==>
        forall c {:trigger buf[c]} | 0 <= c < NBUF && c != b && For(buf[c], dev, blockno) :: Idle(buf[c])
      ensures b != -1 && For(old(buf)[b], dev, blockno) ==>
        buf[b] == old(buf)[b].(refcnt := old(buf)[b].refcnt + 1) && SameContents(old(buf), disk, buf, disk)
      ensures b != -1 && !For(old(buf)[b], dev, blockno) ==>
        buf[b] == Buf(dev, blockno, false, 1, old(buf)[b].data) && old(buf)[b].refcnt == 0
        && LeastRecent(old(buf), order, b) && (SameContents(old(buf), disk, buf, disk) <==> Saved(old(buf)[b], disk))
    {
      Open();
      b := Cached(dev, blockno);
      if b != HEAD {
        Hit(b);
        return;
      }
      b := Unused();
      if b != HEAD {
        Recycle(b, dev, blockno);
        return;
      }
      return -1;
    }

    method Hit(b: int)
      requires Valid() && 0 <= b < NBUF && IsFirst(buf, order, b)
      modifies `buf
      ensures Valid() && buf == old(buf)[b := old(buf)[b].(refcnt := old(buf)[b].refcnt + 1)]
      ensures SameContents(old(buf), disk, buf, disk) && (old(Clean(buf, disk)) ==> Clean(buf, disk))
      ensures forall c {:trigger buf[c]} | 0 <= c < NBUF && c != b && For(buf[c], buf[b].dev, buf[b].blockno) ::
        Idle(buf[c])
    {
      Open();
      Counted(buf, disk, b, buf[b].refcnt + 1);
      FirstsSet(buf, order, b, buf[b].(refcnt := buf[b].refcnt + 1));
      buf := buf[b := buf[b].(refcnt := buf[b].refcnt + 1)];
      Open();
    }

    method Recycle(b: int, dev: int, blockno: int)
      requires Valid() && 0 <= b < NBUF && buf[b].refcnt == 0
      requires forall c | 0 <= c < NBUF :: !For(buf[c], dev, blockno)
      modifies `buf
      ensures Valid() && buf == old(buf)[b := Buf(dev, blockno, false, 1, old(buf)[b].data)]
      ensures SameContents(old(buf), disk, buf, disk) <==> Saved(old(buf)[b], disk)
      ensures old(Clean(buf, disk)) ==> Clean(buf, disk)
    {
      Open();
      Recycled(buf, disk, b, dev, blockno);
      FirstsNew(buf, order, b, Buf(dev, blockno, false, 1, buf[b].data));
      buf := buf[b := Buf(dev, blockno, false, 1, buf[b].data)];
    }

    method Bread(dev: int, blockno: int) returns (b: int)
      requires Valid()
      modifies `buf
      ensures Valid() && (old(Clean(buf, disk)) ==> Clean(buf, disk) && SameContents(old(buf), disk, buf, disk))
      ensures b == -1 <==> forall c | 0 <= c < NBUF :: !For(old(buf)[c], dev, blockno) && old(buf)[c].refcnt > 0
      ensures b == -1 ==> buf == old(buf)
      ensures b != -1 ==>
        0 <= b < NBUF && For(buf[b], dev, blockno) && buf[b].valid && buf[b].refcnt == old(buf)[b].refcnt + 1
      ensures b != -1 ==> Stands(old(buf), disk, dev, blockno, buf[b].data)
      ensures b != -1 ==> forall c | 0 <= c < NBUF && c != b :: buf[c] == old(buf)[c]
      ensures b != -1 && For(old(buf)[b], dev, blockno) ==> SameContents(old(buf), disk, buf, disk)
    {
      b := Bget(dev, blockno);
      if b == -1 {
        return;
      }
      ghost var buf1 := buf;
      if !buf[b].valid {
        ReadIn(b);
      }
      assert For(buf[b], dev, blockno);
      if For(old(buf)[b], dev, blockno) {
        assert Stands(buf, disk, dev, blockno, buf[b].data);
        assert Stands(buf1, disk, dev, blockno, buf[b].data);
      } else {
        assert forall c | 0 <= c < NBUF :: c != b ==> buf1[c] == old(buf)[c];
        assert forall c | 0 <= c < NBUF && For(old(buf)[c], dev, blockno) :: Idle(old(buf)[c]);
      }
    }

    /** virtio_disk_rw() of a read, and the flag. */
    method ReadIn(b: int)
      requires Valid() && 0 <= b < NBUF && buf[b].refcnt > 0 && !buf[b].valid
      modifies `buf
      ensures Valid() && SameContents(old(buf), disk, buf, disk) && (old(Clean(buf, disk)) ==> Clean(buf, disk))
      ensures buf == old(buf)[b := old(buf)[b].(valid := true,
                                               data := OnDisk(disk, old(buf)[b].dev, old(buf)[b].blockno))]
    {
      Open();
      ghost var x := buf[b].(valid := true, data := OnDisk(disk, buf[b].dev, buf[b].blockno));
      Transferred(buf, disk, b, buf[b := x], disk);
      FirstsSet(buf, order, b, x);
      buf := buf[b := buf[b].(valid := true, data := OnDisk(disk, buf[b].dev, buf[b].blockno))];
    }

    method Bwrite(b: int)
      requires Valid() && 0 <= b < NBUF && buf[b].refcnt > 0 && buf[b].valid
      modifies `disk
      ensures Valid() && SameContents(buf, old(disk), buf, disk) && (Clean(buf, old(disk)) ==> Clean(buf, disk))
      ensures disk == old(disk)[(buf[b].dev, buf[b].blockno) := buf[b].data]
    {
      Open();
      Transferred(buf, disk, b, buf, disk[(buf[b].dev, buf[b].blockno) := buf[b].data]);
      disk := disk[(buf[b].dev, buf[b].blockno) := buf[b].data];
    }

    /** A client changes a buffer it refers to: of all blocks, only this one stands for something else. */
    method Store(b: int, x: Bytes)
      requires Valid() && 0 <= b < NBUF && buf[b].refcnt > 0 && buf[b].valid
      modifies `buf
      ensures Valid() && buf == old(buf)[b := old(buf)[b].(data := x)] && (old(Clean(buf, disk)) ==> Clean(buf, disk))
      ensures forall dev, n, y {:trigger Stands(buf, disk, dev, n, y)} ::
        Stands(buf, disk, dev, n, y) <==> if For(buf[b], dev, n) then y == x else Stands(old(buf), disk, dev, n, y)
    {
      Open();
      FirstsSet(buf, order, b, buf[b].(data := x));
      buf := buf[b := buf[b].(data := x)];
      Stored(old(buf), disk, b, x);
    }

    /** The last reference may go from a buffer with unsaved data: it is lost when the buffer is recycled. */
    method Brelse(b: int)
      requires Valid() && 0 <= b < NBUF && buf[b].refcnt > 0
      modifies `buf, `links, `order
      ensures Valid() && SameContents(old(buf), disk, buf, disk)
      ensures buf == old(buf)[b := old(buf)[b].(refcnt := old(buf)[b].refcnt - 1)]
      ensures old(Clean(buf, disk)) && (buf[b].refcnt > 0 || Saved(buf[b], disk)) ==> Clean(buf, disk)
      ensures if buf[b].refcnt > 0 then order == old(order) else exists k ::
        0 <= k < |old(order)| && old(order)[k] == b && order == MovedFirst(old(order), k)
    {
      Drop(b);
      if buf[b].refcnt == 0 {
        Open();
        assert b in order;
        ghost var k :| 0 <= k < |order| && order[k] == b;
        Touched(links, order, k);
        FirstsMoved(buf, order, k);
        links := Del(links, b);
        links := AddFirst(links, b, HEAD);
        order := MovedFirst(order, k);
      }
    }

    method Drop(b: int)
      requires Valid() && 0 <= b < NBUF && buf[b].refcnt > 0
      modifies `buf
      ensures Valid() && SameContents(old(buf), disk, buf, disk) && IsFirst(buf, order, b)
      ensures buf == old(buf)[b := old(buf)[b].(refcnt := old(buf)[b].refcnt - 1)]
      ensures old(Clean(buf, disk)) && (buf[b].refcnt > 0 || Saved(buf[b], disk)) ==> Clean(buf, disk)
    {
      Open();
      Counted(buf, disk, b, buf[b].refcnt - 1);
      FirstsSet(buf, order, b, buf[b].(refcnt := buf[b].refcnt - 1));
      buf := buf[b := buf[b].(refcnt := buf[b].refcnt - 1)];
    }

    method Bpin(b: int)
      requires Valid() && 0 <= b < NBUF && buf[b].refcnt > 0
      modifies `buf
      ensures Valid() && SameContents(old(buf), disk, buf, disk) && (old(Clean(buf, disk)) ==> Clean(buf, disk))
      ensures buf == old(buf)[b := old(buf)[b].(refcnt := old(buf)[b].refcnt + 1)]
    {
      Open();
      Hit(b);
    }

    method Bunpin(b: int)
      requires Valid() && 0 <= b < NBUF && buf[b].refcnt > 0
      modifies `buf
      ensures Valid() && SameContents(old(buf), disk, buf, disk)
      ensures buf == old(buf)[b := old(buf)[b].(refcnt := old(buf)[b].refcnt - 1)]
      ensures old(Clean(buf, disk)) && (buf[b].refcnt > 0 || Saved(buf[b], disk)) ==> Clean(buf, disk)
    {
      Drop(b);
    }
  }

  /** A change of the data of a valid buffer in use. */
  lemma Stored(buf: seq<Buf>, disk: map<(int, int), Bytes>, b: nat, x: Bytes)
    requires Unique(buf) && b < |buf| && buf[b].refcnt > 0 && buf[b].valid
    ensures var buf' := buf[b := buf[b].(data := x)];
            forall dev, n, y {:trigger Stands(buf', disk, dev, n, y)} ::
              Stands(buf', disk, dev, n, y) <==> if For(buf[b], dev, n) then y == x else Stands(buf, disk, dev, n, y)
  {
    var buf' := buf[b := buf[b].(data := x)];
    forall dev, n, y {:trigger Stands(buf', disk, dev, n, y)}
      ensures Stands(buf', disk, dev, n, y) <==> if For(buf[b], dev, n) then y == x else Stands(buf, disk, dev, n, y)
    {
      if For(buf[b], dev, n) {
        assert For(buf'[b], dev, n) && buf'[b].valid;
        assert forall c | 0 <= c < |buf'| && For(buf'[c], dev, n) && buf'[c].valid :: c == b;
      } else {
        assert forall c | 0 <= c < |buf| && For(buf'[c], dev, n) :: buf'[c] == buf[c];
        assert forall c | 0 <= c < |buf| && For(buf[c], dev, n) :: buf'[c] == buf[c];
      }
    }
  }

  /** The blocks whose buffers among the first n somebody refers to. */
  ghost function InUse(buf: seq<Buf>, n: nat): set<(int, int)>
    requires n <= |buf|
  {
    if n == 0 then {}
    else InUse(buf, n - 1) + if buf[n - 1].refcnt > 0 then {(buf[n - 1].dev, buf[n - 1].blockno)} else {}
  }

  lemma {:induction false} InUseIs(buf: seq<Buf>, n: nat, dev: int, k: int)
    requires n <= |buf|
    ensures (dev, k) in InUse(buf, n) <==> exists b :: 0 <= b < n && buf[b].refcnt > 0 && For(buf[b], dev, k)
  {
    if n > 0 {
      InUseIs(buf, n - 1, dev, k);
      if b :| 0 <= b < n && buf[b].refcnt > 0 && For(buf[b], dev, k) {
        assert b == n - 1 || (0 <= b < n - 1 && buf[b].refcnt > 0 && For(buf[b], dev, k));
      }
    }
  }

  /** There is a buffer for another block exactly if fewer blocks than buffers are in use. */
  lemma {:induction false} RoomExactly(buf: seq<Buf>, n: nat)
    requires Unique(buf) && n <= |buf|
    ensures |InUse(buf, n)| <= n
    ensures (exists b :: 0 <= b < n && buf[b].refcnt == 0) <==> |InUse(buf, n)| < n
  {
    if n > 0 {
      RoomExactly(buf, n - 1);
      var x := buf[n - 1];
      if x.refcnt > 0 {
        InUseIs(buf, n - 1, x.dev, x.blockno);
        assert (x.dev, x.blockno) !in InUse(buf, n - 1);
        assert |InUse(buf, n)| == |InUse(buf, n - 1)| + 1;
        assert forall b | 0 <= b < n && buf[b].refcnt == 0 :: b < n - 1;
      } else {
        assert InUse(buf, n) == InUse(buf, n - 1);
      }
    }
  }

  /** Among the unused buffers, b is the one used least recently. */
  ghost predicate LeastRecent(buf: seq<Buf>, order: seq<int>, b: int) {
    exists i :: 0 <= i < |order| && order[i] == b && forall j | i < j < |order| ::
      0 <= order[j] < |buf| && buf[order[j]].refcnt > 0
  }

  lemma LastUnused(buf: seq<Buf>, order: seq<int>, i: nat)
    requires i < |order| && forall j {:trigger order[j]} | 0 <= j < |order| :: 0 <= order[j] < |buf|
    requires forall j | i + 1 < j < |order| + 1 :: buf[([HEAD] + order)[j]].refcnt > 0
    ensures LeastRecent(buf, order, order[i])
  {
    forall j | i < j < |order| ensures buf[order[j]].refcnt > 0 {
      assert ([HEAD] + order)[j + 1] == order[j];
    }
  }
}
