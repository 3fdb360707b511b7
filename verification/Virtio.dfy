/** The virtio block driver and the device it talks to, over one split virtqueue of eight
    descriptors (sections 2.6 and 5.2 of VIRTIO 1.1).  The driver's lock does not stop the device: it
    may take any number of steps between any two writes of the driver to memory that both use. */
module Virtio {
  import opened Basics

  const NUM := 8
  const IDX := 0x1_0000

  // ---------------------------------------------------------------- shared memory

  /** What a descriptor's address points to: a request header, the data of a buffer, a status byte. */
  datatype Addr = Nil | Op(i: int) | Data(b: int) | Status(i: int)

  /** A descriptor, with its flags VRING_DESC_F_NEXT and VRING_DESC_F_WRITE. */
  datatype Desc = Desc(addr: Addr, len: nat, chained: bool, write: bool, next: int)

  const CLEAR := Desc(Nil, 0, false, false, 0)

  /** struct virtio_blk_req */
  datatype Header = Header(out: bool, sector: nat)

  /** A request: to write buffer b to the disk, or to read it, at a sector. */
  datatype Request = Request(b: int, write: bool, sector: nat)

  /** What the device reads in a chain: a command to move len bytes between a sector and a buffer, out of the
      buffer or into it, and to put its outcome into a status byte; or nothing of the kind. */
  datatype Reading = Malformed | Command(out: bool, sector: nat, b: int, len: nat, st: int)

  /** The descriptors of a chain, in their order: `next` counts where the flag for it is set.  The device goes
      no further than n of them. */
  function Linked(desc: seq<Desc>, h: int, n: nat): seq<Desc>
    requires |desc| == NUM
    decreases n
  {
    if n == 0 || !(0 <= h < NUM) then []
    else [desc[h]] + if desc[h].chained then Linked(desc, desc[h].next, n - 1) else []
  }

  /** Section 5.2.6 of VIRTIO 1.1: a header of 16 bytes that the device reads, the data, which it reads to write
      the disk, and writes to read it, and a byte for the status that it writes; and no other descriptor.  The
      flags say what it may write. */
  function Decode(desc: seq<Desc>, ops: seq<Header>, h: int): Reading
    requires |desc| == |ops| == NUM
  {
    var c := Linked(desc, h, NUM + 1);
    if |c| != 3 || c[2].chained then Malformed
    else if !(c[0].addr.Op? && 0 <= c[0].addr.i < NUM && c[0].len == 16 && !c[0].write) then Malformed
    else if !(c[2].addr.Status? && 0 <= c[2].addr.i < NUM && c[2].len == 1 && c[2].write) then Malformed
    else
      var op := ops[c[0].addr.i];
      if !(c[1].addr.Data? && c[1].len <= BSIZE && c[1].write == !op.out) then Malformed
      else Command(op.out, op.sector, c[1].addr.b, c[1].len, c[2].addr.i)
  }

  // ---------------------------------------------------------------- the disk and the buffers

  /** The contents of a block, on the disk from a sector on or in a buffer. */
  type Bytes = s: seq<int> | |s| == BSIZE witness seq(BSIZE, _ => 0)

  datatype Store = Store(media: map<int, Bytes>, bufs: map<int, Bytes>)

  function Content(m: map<int, Bytes>, k: int): Bytes { if k in m then m[k] else seq(BSIZE, _ => 0) }

  /** What happens to them: the device serves a request, or fails at it and leaves junk where it was to
      write; or the owner of a buffer fills it. */
  datatype Event = Served(req: Request, ok: bool, junk: Bytes) | Filled(buf: int, data: Bytes)

  function Buffer(e: Event): int { if e.Served? then e.req.b else e.buf }

  function Apply(s: Store, e: Event): Store {
    match e
    case Served(req, ok, junk) =>
      if req.write then s.(media := s.media[req.sector := if ok then Content(s.bufs, req.b) else junk])
      else s.(bufs := s.bufs[req.b := if ok then Content(s.media, req.sector) else junk])
    case Filled(b, data) => s.(bufs := s.bufs[b := data])
  }

  /** The first len bytes of x take the place of those of y. */
  function Transfer(x: Bytes, y: Bytes, len: nat): Bytes
    requires len <= BSIZE
  {
    x[..len] + y[len..]
  }

  /** What the device does on a command, or fails to do; on anything else it does nothing. */
  function Perform(s: Store, c: Reading, ok: bool, junk: Bytes): Store
    requires c.Command? ==> c.len <= BSIZE
  {
    match c
    case Malformed => s
    case Command(out, sector, b, len, _) =>
      if out then
        s.(media := s.media[sector :=
          Transfer(if ok then Content(s.bufs, b) else junk, Content(s.media, sector), len)])
      else
        s.(bufs := s.bufs[b := Transfer(if ok then Content(s.media, sector) else junk, Content(s.bufs, b), len)])
  }

  /** The command that a request stands for. */
  function Asked(req: Request, st: int): Reading { Command(req.write, req.sector, req.b, BSIZE, st) }

  lemma PerformIs(s: Store, req: Request, st: int, ok: bool, junk: Bytes)
    ensures Perform(s, Asked(req, st), ok, junk) == Apply(s, Served(req, ok, junk))
  {
    forall x: Bytes, y: Bytes {:trigger Transfer(x, y, BSIZE)} ensures Transfer(x, y, BSIZE) == x {}
  }

  /** The store after the first n events. */
  function After(s: Store, events: seq<Event>, n: nat): Store
    requires n <= |events|
  {
    if n == 0 then s else Apply(After(s, events, n - 1), events[n - 1])
  }

  lemma {:induction false} AfterPrefix(s: Store, events: seq<Event>, events': seq<Event>, n: nat)
    requires n <= |events| && events <= events'
    ensures After(s, events', n) == After(s, events, n)
  {
    if n > 0 {
      AfterPrefix(s, events, events', n - 1);
    }
  }

  /** No event from i up to j is about buffer b. */
  ghost predicate Untouched(events: seq<Event>, i: nat, j: nat, b: int) {
    forall k {:trigger events[k]} | i <= k < j && k < |events| :: Buffer(events[k]) != b
  }

  lemma {:induction false} BufferStays(s: Store, events: seq<Event>, i: nat, j: nat, b: int)
    requires i <= j <= |events| && Untouched(events, i, j, b)
    ensures Content(After(s, events, j).bufs, b) == Content(After(s, events, i).bufs, b)
  {
    if i < j {
      BufferStays(s, events, i, j - 1, b);
      assert Buffer(events[j - 1]) != b;
    }
  }

  // ---------------------------------------------------------------- requests in flight

  /** A request is in the available ring at position n, or the device has fetched it, or it is in the
      used ring at position n, or the driver has seen it there.  The event at `at` has served it. */
  datatype Phase = Queued(n: nat) | Fetched | Done(n: nat, ok: bool, at: nat) | Seen(at: nat)

  /** A request, with the other descriptors of its chain, since the event at `from`. */
  datatype Flight = Flight(req: Request, second: int, third: int, from: nat, phase: Phase)

  /** What a descriptor is: free, just taken, or the k-th of the chain at a head. */
  datatype Role = Idle | Taken | Part(head: int, k: int)

  function One(b: bool): nat { if b then 1 else 0 }

  /** The free descriptors among the first n. */
  function FreeCount(free: seq<bool>, n: nat): nat
    requires n <= |free|
    decreases free, n
  {
    if n == 0 then 0 else FreeCount(free, n - 1) + One(free[n - 1])
  }

  /** The requests in flight, with heads below n, whose phase is of kind p; 4 for all. */
  ghost function Count(reqs: map<int, Flight>, p: int, n: nat): nat
    decreases reqs, n
  {
    if n == 0 then 0 else Count(reqs, p, n - 1) + At(reqs, n - 1, p)
  }

  ghost function At(reqs: map<int, Flight>, h: int, p: int): nat {
    One(h in reqs && (p == 4 || p == Kind(reqs[h].phase)))
  }

  ghost function Kind(phase: Phase): int {
    match phase
    case Queued(_) => 0
    case Fetched => 1
    case Done(_, _, _) => 2
    case Seen(_) => 3
  }

  lemma {:induction false} FreeSet(free: seq<bool>, i: int, b: bool, n: nat)
    requires n <= |free| && 0 <= i < |free|
    ensures FreeCount(free[i := b], n) == FreeCount(free, n) + if i < n then One(b) - One(free[i]) else 0
  {
    if n > 0 {
      FreeSet(free, i, b, n - 1);
    }
  }

  lemma {:induction false} NoneFree(free: seq<bool>, n: nat)
    requires n <= |free|
    ensures FreeCount(free, n) == 0 <==> forall i | 0 <= i < n :: !free[i]
  {
    if n > 0 {
      NoneFree(free, n - 1);
    }
  }

  lemma {:induction false} AllFree(free: seq<bool>, n: nat)
    requires n <= |free| && forall i | 0 <= i < |free| :: free[i]
    ensures FreeCount(free, n) == n
  {
    if n > 0 {
      AllFree(free, n - 1);
    }
  }

  lemma {:induction false} CountSet(reqs: map<int, Flight>, h: int, f: Flight, p: int, n: nat)
    ensures Count(reqs[h := f], p, n) ==
      Count(reqs, p, n) + if 0 <= h < n then One(p == 4 || p == Kind(f.phase)) - At(reqs, h, p) else 0
  {
    if n > 0 {
      CountSet(reqs, h, f, p, n - 1);
    }
  }

  lemma {:induction false} CountDrop(reqs: map<int, Flight>, h: int, p: int, n: nat)
    ensures Count(reqs - {h}, p, n) == Count(reqs, p, n) - if 0 <= h < n then At(reqs, h, p) else 0
  {
    if n > 0 {
      CountDrop(reqs, h, p, n - 1);
    }
  }

  lemma {:induction false} CountAll(reqs: map<int, Flight>, n: nat)
    ensures Count(reqs, 4, n) == Count(reqs, 0, n) + Count(reqs, 1, n) + Count(reqs, 2, n) + Count(reqs, 3, n)
  {
    if n > 0 {
      CountAll(reqs, n - 1);
    }
  }

  lemma {:induction false} CountHas(reqs: map<int, Flight>, h: int, p: int, n: nat)
    requires 0 <= h < n && At(reqs, h, p) == 1
    ensures Count(reqs, p, n) > 0
  {
    if h < n - 1 {
      CountHas(reqs, h, p, n - 1);
    }
  }

  lemma {:induction false} CountNone(reqs: map<int, Flight>, p: int, n: nat)
    requires forall h | 0 <= h < n :: h !in reqs
    ensures Count(reqs, p, n) == 0
  {
    if n > 0 {
      CountNone(reqs, p, n - 1);
    }
  }

  // ---------------------------------------------------------------- the descriptors

  /** The chain of the request at h. */
  ghost predicate ChainOk(desc: seq<Desc>, ops: seq<Header>, infoB: seq<int>, own: seq<Role>, h: int, f: Flight)
    requires |desc| == |ops| == |infoB| == |own| == NUM
  {
    && 0 <= h < NUM && 0 <= f.second < NUM && 0 <= f.third < NUM
    && own[h] == Part(h, 0) && own[f.second] == Part(h, 1) && own[f.third] == Part(h, 2)
    && Formatted(desc, ops, infoB, h, f)
  }

  /** The three descriptors of a request as the driver formats them. */
  ghost predicate Formatted(desc: seq<Desc>, ops: seq<Header>, infoB: seq<int>, h: int, f: Flight)
    requires |desc| == |ops| == |infoB| == NUM && 0 <= h < NUM && 0 <= f.second < NUM && 0 <= f.third < NUM
  {
    && desc[h] == First(h, f.second) && ops[h] == Header(f.req.write, f.req.sector)
    && desc[f.second] == Second(f.req, f.third) && desc[f.third] == Third(h) && infoB[h] == f.req.b
  }

  function First(h: int, second: int): Desc { Desc(Op(h), 16, true, false, second) }
  function Second(req: Request, third: int): Desc { Desc(Data(req.b), BSIZE, true, !req.write, third) }
  function Third(h: int): Desc { Desc(Status(h), 1, false, true, 0) }

  /** The k-th descriptor of the chain at h. */
  function Nth(h: int, f: Flight, k: int): int { if k == 0 then h else if k == 1 then f.second else f.third }

  ghost predicate RoleOk(free: seq<bool>, own: seq<Role>, reqs: map<int, Flight>, i: int)
    requires |free| == |own| == NUM && 0 <= i < NUM
  {
    && free[i] == own[i].Idle?
    && (own[i].Part? ==>
          own[i].head in reqs && 0 <= own[i].k < 3 && i == Nth(own[i].head, reqs[own[i].head], own[i].k))
  }

  ghost predicate Division(desc: seq<Desc>, ops: seq<Header>, infoB: seq<int>, free: seq<bool>, own: seq<Role>,
                           reqs: map<int, Flight>) {
    && |desc| == |ops| == |infoB| == |free| == |own| == NUM
    && (forall i {:trigger RoleOk(free, own, reqs, i)} {:trigger own[i]} | 0 <= i < NUM :: RoleOk(free, own, reqs, i))
    && (forall h {:trigger reqs[h]} {:trigger h in reqs} | h in reqs :: ChainOk(desc, ops, infoB, own, h, reqs[h]))
  }

  /** The descriptors are divided into the free ones, those just taken, and disjoint chains of three,
      one a request. */
  ghost predicate Divided(desc: seq<Desc>, ops: seq<Header>, infoB: seq<int>, free: seq<bool>, own: seq<Role>,
                          reqs: map<int, Flight>) {
    && |desc| == |ops| == |infoB| == |free| == |own| == NUM
    && (forall k {:trigger Key(k, own)} | Key(k, own) :: Division(desc, ops, infoB, free, own, reqs))
  }

  lemma ChainAt(desc: seq<Desc>, ops: seq<Header>, infoB: seq<int>, free: seq<bool>, own: seq<Role>,
                reqs: map<int, Flight>, h: int)
    requires Divided(desc, ops, infoB, free, own, reqs) && h in reqs
    ensures ChainOk(desc, ops, infoB, own, h, reqs[h])
  {
    assert Key(0, own);
  }

  lemma RoleAt(desc: seq<Desc>, ops: seq<Header>, infoB: seq<int>, free: seq<bool>, own: seq<Role>,
               reqs: map<int, Flight>, i: int)
    requires Divided(desc, ops, infoB, free, own, reqs) && 0 <= i < NUM
    ensures free[i] == own[i].Idle? && (i in reqs ==> own[i] == Part(i, 0))
  {
    assert Key(0, own);
    assert RoleOk(free, own, reqs, i);
    assert i in reqs ==> ChainOk(desc, ops, infoB, own, i, reqs[i]);
  }

  /** A descriptor outside all chains is written, or changes hands. */
  lemma RoleSet(desc: seq<Desc>, ops: seq<Header>, infoB: seq<int>, free: seq<bool>, own: seq<Role>,
                reqs: map<int, Flight>, i: int, d: Desc, o: Role)
    requires Divided(desc, ops, infoB, free, own, reqs) && 0 <= i < NUM && !own[i].Part? && !o.Part?
    ensures Divided(desc[i := d], ops, infoB, free[i := o.Idle?], own[i := o], reqs)
  {
    assert Key(0, own);
    var desc', free', own' := desc[i := d], free[i := o.Idle?], own[i := o];
    forall j {:trigger RoleOk(free', own', reqs, j)} {:trigger own'[j]} | 0 <= j < NUM
      ensures RoleOk(free', own', reqs, j)
    {
      assert RoleOk(free, own, reqs, j);
    }
    forall h {:trigger reqs[h]} {:trigger h in reqs} | h in reqs
      ensures ChainOk(desc', ops, infoB, own', h, reqs[h])
    {
      assert ChainOk(desc, ops, infoB, own, h, reqs[h]);
    }
  }

  /** The header and the entry in info[] of a head that is just taken are written. */
  lemma InfoSet(desc: seq<Desc>, ops: seq<Header>, infoB: seq<int>, free: seq<bool>, own: seq<Role>,
                reqs: map<int, Flight>, i: int, op: Header, b: int)
    requires Divided(desc, ops, infoB, free, own, reqs) && 0 <= i < NUM && own[i] == Taken
    ensures Divided(desc, ops[i := op], infoB[i := b], free, own, reqs)
  {
    assert Key(0, own);
    var ops', infoB' := ops[i := op], infoB[i := b];
    forall h {:trigger reqs[h]} {:trigger h in reqs} | h in reqs ensures ChainOk(desc, ops', infoB', own, h, reqs[h]) {
      assert ChainOk(desc, ops, infoB, own, h, reqs[h]);
    }
  }

  /** The chain of a new request, from three descriptors that were taken. */
  lemma Chained(desc: seq<Desc>, ops: seq<Header>, infoB: seq<int>, free: seq<bool>, own: seq<Role>,
                reqs: map<int, Flight>, h: int, f: Flight)
    requires Divided(desc, ops, infoB, free, own, reqs) && Three(own, h, f.second, f.third)
    requires Formatted(desc, ops, infoB, h, f)
    ensures h !in reqs && Divided(desc, ops, infoB, free, Chain(own, h, f), reqs[h := f])
  {
    RoleAt(desc, ops, infoB, free, own, reqs, h);
    assert Key(0, own);
    var own', reqs' := Chain(own, h, f), reqs[h := f];
    forall g {:trigger reqs'[g]} {:trigger g in reqs'} | g in reqs'
      ensures ChainOk(desc, ops, infoB, own', g, reqs'[g])
    {
      assert g != h ==> ChainOk(desc, ops, infoB, own, g, reqs[g]);
    }
    forall j {:trigger RoleOk(free, own', reqs', j)} {:trigger own'[j]} | 0 <= j < NUM
      ensures RoleOk(free, own', reqs', j)
    {
      assert RoleOk(free, own, reqs, j);
    }
  }

  ghost predicate NoneTaken(own: seq<Role>) { forall i {:trigger own[i]} | 0 <= i < |own| :: own[i] != Taken }

  /** Three different descriptors that are just taken. */
  ghost predicate Three(own: seq<Role>, i0: int, i1: int, i2: int) {
    && |own| == NUM && 0 <= i0 < NUM && 0 <= i1 < NUM && 0 <= i2 < NUM && i0 != i1 && i0 != i2 && i1 != i2
    && own[i0] == own[i1] == own[i2] == Taken
  }

  function Chain(own: seq<Role>, h: int, f: Flight): seq<Role>
    requires |own| == NUM && 0 <= h < NUM && 0 <= f.second < NUM && 0 <= f.third < NUM
  {
    own[h := Part(h, 0)][f.second := Part(h, 1)][f.third := Part(h, 2)]
  }

  function Unchain(own: seq<Role>, h: int, f: Flight): seq<Role>
    requires |own| == NUM && 0 <= h < NUM && 0 <= f.second < NUM && 0 <= f.third < NUM
  {
    own[h := Taken][f.second := Taken][f.third := Taken]
  }

  /** The first k of a chain freed. */
  /** free_chain() has freed k of three descriptors, and has come to i.  Behind a trigger. */
  ghost predicate Breaking(own0: seq<Role>, desc0: seq<Desc>, own: seq<Role>, desc: seq<Desc>, h: int, second: int,
                           third: int, i: int, k: nat) {
    forall x {:trigger Key(x, (i, k))} | Key(x, (i, k)) ::
      && Three(own0, h, second, third) && |desc0| == |desc| == NUM && k <= 3
      && desc0[h].chained && desc0[h].next == second && desc0[second].chained && desc0[second].next == third
      && !desc0[third].chained && own == Freed(own0, h, second, third, k)
      && (k < 3 ==> i == (if k == 0 then h else if k == 1 then second else third))
      && (k < 1 ==> desc[h] == desc0[h]) && (k < 2 ==> desc[second] == desc0[second])
      && (k < 3 ==> desc[third] == desc0[third])
  }

  lemma BreakingAt(own0: seq<Role>, desc0: seq<Desc>, own: seq<Role>, desc: seq<Desc>, h: int, second: int,
                   third: int, i: int, k: nat)
    requires Breaking(own0, desc0, own, desc, h, second, third, i, k)
    ensures |own| == |desc| == NUM
    ensures k < 3 ==> 0 <= i < NUM && own[i] == Taken && (desc[i].chained <==> k < 2)
    ensures k < 2 ==> 0 <= desc[i].next < NUM
    ensures k == 3 ==> Three(own0, h, second, third) && own == own0[h := Idle][second := Idle][third := Idle]
  {
    assert Key(0, (i, k));
  }

  lemma BreakingOn(own0: seq<Role>, desc0: seq<Desc>, own: seq<Role>, desc: seq<Desc>, own': seq<Role>,
                   desc': seq<Desc>, h: int, second: int, third: int, i: int, nxt: int, k: nat)
    requires Breaking(own0, desc0, own, desc, h, second, third, i, k) && k < 3
    requires 0 <= i < |own| && own' == own[i := Idle] && 0 <= i < |desc| && |desc'| == |desc|
    requires forall j {:trigger desc'[j]} | 0 <= j < |desc| && j != i :: desc'[j] == desc[j]
    requires nxt == desc[i].next
    ensures Breaking(own0, desc0, own', desc', h, second, third, if k < 2 then nxt else i, k + 1)
  {
    assert Key(0, (i, k));
  }

  function Freed(own: seq<Role>, h: int, second: int, third: int, k: nat): seq<Role>
    requires |own| == NUM && 0 <= h < NUM && 0 <= second < NUM && 0 <= third < NUM
  {
    if k == 0 then own
    else if k == 1 then own[h := Idle]
    else if k == 2 then own[h := Idle][second := Idle]
    else own[h := Idle][second := Idle][third := Idle]
  }

  lemma NoneElse(own: seq<Role>, h: int, f: Flight)
    requires Three(own, h, f.second, f.third) && NoneTaken(Freed(own, h, f.second, f.third, 3))
    ensures NoneTaken(Chain(own, h, f))
  {
    forall i {:trigger Chain(own, h, f)[i]} | 0 <= i < NUM ensures Chain(own, h, f)[i] != Taken {
      assert Freed(own, h, f.second, f.third, 3)[i] != Taken;
    }
  }

  /** The chain of a request that is finished is broken up. */
  lemma Unchained(desc: seq<Desc>, ops: seq<Header>, infoB: seq<int>, free: seq<bool>, own: seq<Role>,
                  reqs: map<int, Flight>, h: int)
    requires Divided(desc, ops, infoB, free, own, reqs) && h in reqs
    ensures ChainOk(desc, ops, infoB, own, h, reqs[h])
    ensures Divided(desc, ops, infoB[h := 0], free,
                    Unchain(own, h, reqs[h]), reqs - {h})
  {
    assert Key(0, own);
    assert ChainOk(desc, ops, infoB, own, h, reqs[h]);
    var infoB', own', reqs' := infoB[h := 0], Unchain(own, h, reqs[h]), reqs - {h};
    forall g {:trigger reqs'[g]} {:trigger g in reqs'} | g in reqs'
      ensures ChainOk(desc, ops, infoB', own', g, reqs'[g])
    {
      assert ChainOk(desc, ops, infoB, own, g, reqs[g]);
    }
    forall i {:trigger RoleOk(free, own', reqs', i)} {:trigger own'[i]} | 0 <= i < NUM
      ensures RoleOk(free, own', reqs', i)
    {
      assert RoleOk(free, own, reqs, i);
    }
  }

  /** A request moves on. */
  lemma Moved(desc: seq<Desc>, ops: seq<Header>, infoB: seq<int>, free: seq<bool>, own: seq<Role>,
              reqs: map<int, Flight>, h: int, phase: Phase)
    requires Divided(desc, ops, infoB, free, own, reqs) && h in reqs
    ensures Divided(desc, ops, infoB, free, own, reqs[h := reqs[h].(phase := phase)])
  {
    assert Key(0, own);
    var reqs' := reqs[h := reqs[h].(phase := phase)];
    forall g {:trigger reqs'[g]} {:trigger g in reqs'} | g in reqs'
      ensures ChainOk(desc, ops, infoB, own, g, reqs'[g])
    {
      assert ChainOk(desc, ops, infoB, own, g, reqs[g]);
    }
    forall i {:trigger RoleOk(free, own, reqs', i)} {:trigger own[i]} | 0 <= i < NUM
      ensures RoleOk(free, own, reqs', i)
    {
      assert RoleOk(free, own, reqs, i);
    }
  }

  // ---------------------------------------------------------------- the requests

  ghost predicate Flying(reqs: map<int, Flight>, busy: set<int>, working: set<int>, status: seq<int>) {
    && |status| == NUM
    && (forall h, h' {:trigger reqs[h], reqs[h']} | h in reqs && h' in reqs && h != h' ::
          reqs[h].req.b != reqs[h'].req.b)
    && (forall h {:trigger reqs[h]} {:trigger h in reqs} | h in reqs :: FlightOk(reqs, busy, working, status, h))
    && (forall h {:trigger h in working} | h in working :: h in reqs)
  }

  /** Each buffer is in at most one request, b->disk is set until its request has been seen, the device
      works on what it has fetched, and the status byte of a request that is done tells how. */
  ghost predicate Flights(reqs: map<int, Flight>, busy: set<int>, working: set<int>, status: seq<int>) {
    |status| == NUM && forall k {:trigger Key(k, status)} | Key(k, status) :: Flying(reqs, busy, working, status)
  }

  ghost predicate FlightOk(reqs: map<int, Flight>, busy: set<int>, working: set<int>, status: seq<int>, h: int)
    requires h in reqs && |status| == NUM
  {
    && 0 <= h < NUM && (!reqs[h].phase.Seen? <==> reqs[h].req.b in busy) && (reqs[h].phase.Fetched? <==> h in working)
    && (reqs[h].phase.Done? ==> (status[h] == 0 <==> reqs[h].phase.ok))
  }

  lemma FlightAt(reqs: map<int, Flight>, busy: set<int>, working: set<int>, status: seq<int>, h: int)
    requires Flights(reqs, busy, working, status)
    ensures h in reqs ==> FlightOk(reqs, busy, working, status, h)
    ensures h in working ==> h in reqs
  {
    assert Key(0, status);
  }

  lemma FlightAdded(reqs: map<int, Flight>, busy: set<int>, working: set<int>, status: seq<int>, h: int, f: Flight)
    requires Flights(reqs, busy, working, status) && h !in reqs && 0 <= h < NUM && f.phase.Queued? && f.req.b in busy
    requires NoneHas(reqs, f.req.b)
    ensures Flights(reqs[h := f], busy, working, status)
  {
    assert Key(0, status);
    var reqs' := reqs[h := f];
    forall g {:trigger reqs'[g]} {:trigger g in reqs'} | g in reqs' ensures FlightOk(reqs', busy, working, status, g) {
      assert g != h ==> FlightOk(reqs, busy, working, status, g);
    }
  }

  /** The driver is done with buffer b, or has begun with it, or sets the status byte of a head that is
      just taken. */
  lemma FlightOther(reqs: map<int, Flight>, busy: set<int>, working: set<int>, status: seq<int>, b: int, h: int,
                    st: int)
    requires Flights(reqs, busy, working, status) && 0 <= h < NUM && h !in reqs && NoneHas(reqs, b)
    ensures Flights(reqs, busy + {b}, working, status[h := st]) && Flights(reqs, busy, working, status[h := st])
  {
    assert Key(0, status);
    forall g {:trigger reqs[g]} {:trigger g in reqs} | g in reqs
      ensures FlightOk(reqs, busy + {b}, working, status[h := st], g)
      ensures FlightOk(reqs, busy, working, status[h := st], g)
    {
      assert FlightOk(reqs, busy, working, status, g);
    }
  }

  /** Buffer b is in no request. */
  ghost predicate NoneHas(reqs: map<int, Flight>, b: int) {
    forall g {:trigger reqs[g]} {:trigger g in reqs} | g in reqs :: reqs[g].req.b != b
  }

  lemma FlightMoved(reqs: map<int, Flight>, busy: set<int>, working: set<int>, status: seq<int>, h: int, phase: Phase,
                    busy': set<int>, working': set<int>, st: int)
    requires Flights(reqs, busy, working, status) && h in reqs && 0 <= h < NUM && !reqs[h].phase.Seen?
    requires busy' == if phase.Seen? then busy - {reqs[h].req.b} else busy
    requires forall g {:trigger g in working'} :: g in working' <==> if g == h then phase.Fetched? else g in working
    requires phase.Done? ==> (st == 0 <==> phase.ok)
    ensures Flights(reqs[h := reqs[h].(phase := phase)], busy', working',
      if phase.Done? then status[h := st] else status)
  {
    assert Key(0, status);
    var status' := if phase.Done? then status[h := st] else status;
    assert FlightOk(reqs, busy, working, status, h);
    var reqs' := reqs[h := reqs[h].(phase := phase)];
    forall g {:trigger reqs'[g]} {:trigger g in reqs'} | g in reqs'
      ensures FlightOk(reqs', busy', working', status', g)
    {
      assert FlightOk(reqs, busy, working, status, g);
      assert g != h ==> reqs[g].req.b != reqs[h].req.b;
      assert g in working' <==> if g == h then phase.Fetched? else g in working;
    }
  }

  lemma FlightGone(reqs: map<int, Flight>, busy: set<int>, working: set<int>, status: seq<int>, h: int)
    requires Flights(reqs, busy, working, status) && h in reqs && reqs[h].phase.Seen?
    ensures Flights(reqs - {h}, busy, working, status) && NoneHas(reqs - {h}, reqs[h].req.b)
  {
    assert Key(0, status);
    assert FlightOk(reqs, busy, working, status, h);
    var reqs' := reqs - {h};
    forall g {:trigger reqs'[g]} {:trigger g in reqs'} | g in reqs' ensures FlightOk(reqs', busy, working, status, g) {
      assert FlightOk(reqs, busy, working, status, g);
    }
  }

  // ---------------------------------------------------------------- the rings

  ghost predicate Ringed(availRing: seq<int>, usedRing: seq<int>, reqs: map<int, Flight>,
                         availN: nat, takenN: nat, usedN: nat, seenN: nat) {
    && |availRing| == NUM && |usedRing| == NUM
    && availN - takenN == Count(reqs, 0, NUM) && usedN - seenN == Count(reqs, 2, NUM)
    && (forall n {:trigger InRing(availRing, n)} | takenN <= n < availN :: Waits(reqs, InRing(availRing, n), n))
    && (forall n {:trigger InRing(usedRing, n)} | seenN <= n < usedN :: Reported(reqs, InRing(usedRing, n), n))
    && (forall h {:trigger reqs[h]} {:trigger h in reqs} | h in reqs && reqs[h].phase.Queued? ::
          takenN <= reqs[h].phase.n < availN && InRing(availRing, reqs[h].phase.n) == h)
    && (forall h {:trigger reqs[h]} {:trigger h in reqs} | h in reqs && reqs[h].phase.Done? ::
          seenN <= reqs[h].phase.n < usedN && InRing(usedRing, reqs[h].phase.n) == h)
  }

  /** The rings hold the requests that are queued and that are done, each once. */
  ghost predicate Rings(availRing: seq<int>, usedRing: seq<int>, reqs: map<int, Flight>,
                        availN: nat, takenN: nat, usedN: nat, seenN: nat) {
    && |availRing| == NUM && |usedRing| == NUM
    && (forall k {:trigger Key(k, reqs)} | Key(k, reqs) ::
          Ringed(availRing, usedRing, reqs, availN, takenN, usedN, seenN))
  }

  ghost predicate Waits(reqs: map<int, Flight>, h: int, n: nat) { h in reqs && reqs[h].phase == Queued(n) }

  ghost predicate Reported(reqs: map<int, Flight>, h: int, n: nat) {
    h in reqs && reqs[h].phase.Done? && reqs[h].phase.n == n
  }

  function InRing(ring: seq<int>, n: nat): int
    requires |ring| == NUM
  {
    ring[n % NUM]
  }

  /** Both tests for new used entries are exact: mp2's on all sixteen bits, and mp4's modulo eight. */
  lemma TestsExact(seenN: nat, usedN: nat)
    requires seenN <= usedN <= seenN + 2
    ensures seenN % IDX != usedN % IDX <==> seenN != usedN
    ensures seenN % NUM % NUM != usedN % IDX % NUM <==> seenN != usedN
  {
    assert usedN % IDX % NUM == usedN % NUM;
  }

  lemma Wraps(n: nat)
    ensures n % IDX % NUM == n % NUM
    ensures (n % IDX + 1) % IDX == (n + 1) % IDX
    ensures (n % NUM + 1) % NUM == (n + 1) % NUM
  {
    assert IDX == 8192 * NUM;
  }

  lemma WaitsAt(availRing: seq<int>, usedRing: seq<int>, reqs: map<int, Flight>, availN: nat, takenN: nat, usedN: nat,
                seenN: nat)
    requires Rings(availRing, usedRing, reqs, availN, takenN, usedN, seenN) && takenN < availN
    ensures Waits(reqs, InRing(availRing, takenN), takenN)
  {
    assert Key(0, reqs);
  }

  lemma ReportedAt(availRing: seq<int>, usedRing: seq<int>, reqs: map<int, Flight>, availN: nat, takenN: nat,
                   usedN: nat, seenN: nat)
    requires Rings(availRing, usedRing, reqs, availN, takenN, usedN, seenN) && seenN < usedN
    ensures Reported(reqs, InRing(usedRing, seenN), seenN)
  {
    assert Key(0, reqs);
  }

  lemma UsedAt(availRing: seq<int>, usedRing: seq<int>, reqs: map<int, Flight>, availN: nat, takenN: nat, usedN: nat,
               seenN: nat,
               h: int)
    requires Rings(availRing, usedRing, reqs, availN, takenN, usedN, seenN) && Reported(reqs, h, seenN)
    ensures InRing(usedRing, seenN) == h
  {
    assert Key(0, reqs);
  }

  /** When the driver has seen all there is, no request is waiting to be seen. */
  lemma NoneDone(availRing: seq<int>, usedRing: seq<int>, reqs: map<int, Flight>, availN: nat, takenN: nat, usedN: nat)
    requires Rings(availRing, usedRing, reqs, availN, takenN, usedN, usedN)
    ensures forall h {:trigger reqs[h]} {:trigger h in reqs} | h in reqs :: !reqs[h].phase.Done?
  {
    assert Key(0, reqs);
  }

  /** The rings as requests move: the next slot is written, */
  lemma SlotStep(availRing: seq<int>, usedRing: seq<int>, reqs: map<int, Flight>, availN: nat, takenN: nat, usedN: nat,
                 seenN: nat, h: int)
    requires Rings(availRing, usedRing, reqs, availN, takenN, usedN, seenN) && availN - takenN < NUM
    ensures Rings(availRing[availN % NUM := h], usedRing, reqs, availN, takenN, usedN, seenN)
  {
    assert Key(0, reqs);
    var ring' := availRing[availN % NUM := h];
    forall n {:trigger InRing(ring', n)} | takenN <= n < availN
      ensures InRing(ring', n) == InRing(availRing, n) && Waits(reqs, InRing(ring', n), n)
    {
      assert n % NUM != availN % NUM && Waits(reqs, InRing(availRing, n), n);
    }
    forall g {:trigger reqs[g]} {:trigger g in reqs} | g in reqs && reqs[g].phase.Queued?
      ensures InRing(ring', reqs[g].phase.n) == g
    {
      assert InRing(ring', reqs[g].phase.n) == InRing(availRing, reqs[g].phase.n);
    }
  }

  /** ... and made available, */
  lemma QueuedStep(availRing: seq<int>, usedRing: seq<int>, reqs: map<int, Flight>, availN: nat, takenN: nat,
                   usedN: nat,
                   seenN: nat, h: int, f: Flight)
    requires Rings(availRing, usedRing, reqs, availN, takenN, usedN, seenN) && 0 <= h < NUM && h !in reqs
    requires f.phase == Queued(availN) && InRing(availRing, availN) == h && takenN <= availN
    ensures Rings(availRing, usedRing, reqs[h := f], availN + 1, takenN, usedN, seenN)
  {
    assert Key(0, reqs);
    CountSet(reqs, h, f, 0, NUM);
    CountSet(reqs, h, f, 2, NUM);
    var reqs' := reqs[h := f];
    forall n {:trigger InRing(availRing, n)} | takenN <= n < availN + 1 ensures Waits(reqs', InRing(availRing, n), n) {
      assert n < availN ==> Waits(reqs, InRing(availRing, n), n);
    }
    forall n {:trigger InRing(usedRing, n)} | seenN <= n < usedN ensures Reported(reqs', InRing(usedRing, n), n) {
      assert Reported(reqs, InRing(usedRing, n), n);
    }
  }

  /** ... fetched by the device, */
  lemma FetchedStep(availRing: seq<int>, usedRing: seq<int>, reqs: map<int, Flight>, availN: nat, takenN: nat,
                    usedN: nat,
                    seenN: nat, h: int)
    requires Rings(availRing, usedRing, reqs, availN, takenN, usedN, seenN) && takenN < availN
    requires h == InRing(availRing, takenN) && 0 <= h < NUM && h in reqs
    ensures Rings(availRing, usedRing, reqs[h := reqs[h].(phase := Fetched)], availN, takenN + 1, usedN, seenN)
  {
    assert Key(0, reqs);
    assert Waits(reqs, InRing(availRing, takenN), takenN);
    var reqs' := reqs[h := reqs[h].(phase := Fetched)];
    CountSet(reqs, h, reqs'[h], 0, NUM);
    CountSet(reqs, h, reqs'[h], 2, NUM);
    forall n {:trigger InRing(availRing, n)} | takenN + 1 <= n < availN ensures Waits(reqs', InRing(availRing, n), n) {
      assert Waits(reqs, InRing(availRing, n), n);
    }
    forall n {:trigger InRing(usedRing, n)} | seenN <= n < usedN ensures Reported(reqs', InRing(usedRing, n), n) {
      assert Reported(reqs, InRing(usedRing, n), n);
    }
  }

  /** ... done, */
  lemma DoneStep(availRing: seq<int>, usedRing: seq<int>, reqs: map<int, Flight>, availN: nat, takenN: nat, usedN: nat,
                 seenN: nat, h: int, ok: bool, at: nat)
    requires Rings(availRing, usedRing, reqs, availN, takenN, usedN, seenN) && 0 <= h < NUM && h in reqs
    requires reqs[h].phase == Fetched && usedN - seenN < NUM && seenN <= usedN
    ensures Rings(availRing, usedRing[usedN % NUM := h], reqs[h := reqs[h].(phase := Done(usedN, ok, at))],
                  availN, takenN, usedN + 1, seenN)
  {
    assert Key(0, reqs);
    var ring', reqs' := usedRing[usedN % NUM := h], reqs[h := reqs[h].(phase := Done(usedN, ok, at))];
    CountSet(reqs, h, reqs'[h], 0, NUM);
    CountSet(reqs, h, reqs'[h], 2, NUM);
    forall n {:trigger InRing(availRing, n)} | takenN <= n < availN ensures Waits(reqs', InRing(availRing, n), n) {
      assert Waits(reqs, InRing(availRing, n), n);
    }
    forall n {:trigger InRing(ring', n)} | seenN <= n < usedN + 1 ensures Reported(reqs', InRing(ring', n), n) {
      assert n < usedN ==> n % NUM != usedN % NUM && Reported(reqs, InRing(usedRing, n), n);
    }
    forall g {:trigger reqs'[g]} {:trigger g in reqs'} | g in reqs' && reqs'[g].phase.Done?
      ensures seenN <= reqs'[g].phase.n < usedN + 1 && InRing(ring', reqs'[g].phase.n) == g
    {
      assert g != h ==> InRing(usedRing, reqs[g].phase.n) == g && reqs[g].phase.n % NUM != usedN % NUM;
    }
  }

  /** ... seen by the driver, */
  lemma SeenStep(availRing: seq<int>, usedRing: seq<int>, reqs: map<int, Flight>, availN: nat, takenN: nat, usedN: nat,
                 seenN: nat, h: int, at: nat)
    requires Rings(availRing, usedRing, reqs, availN, takenN, usedN, seenN) && seenN < usedN
    requires h == InRing(usedRing, seenN) && 0 <= h < NUM && h in reqs
    ensures Rings(availRing, usedRing, reqs[h := reqs[h].(phase := Seen(at))], availN, takenN, usedN, seenN + 1)
  {
    assert Key(0, reqs);
    assert Reported(reqs, InRing(usedRing, seenN), seenN);
    var reqs' := reqs[h := reqs[h].(phase := Seen(at))];
    CountSet(reqs, h, reqs'[h], 0, NUM);
    CountSet(reqs, h, reqs'[h], 2, NUM);
    forall n {:trigger InRing(availRing, n)} | takenN <= n < availN ensures Waits(reqs', InRing(availRing, n), n) {
      assert Waits(reqs, InRing(availRing, n), n);
    }
    forall n {:trigger InRing(usedRing, n)} | seenN + 1 <= n < usedN ensures Reported(reqs', InRing(usedRing, n), n) {
      assert Reported(reqs, InRing(usedRing, n), n);
    }
  }

  /** ... and gone. */
  lemma GoneStep(availRing: seq<int>, usedRing: seq<int>, reqs: map<int, Flight>, availN: nat, takenN: nat, usedN: nat,
                 seenN: nat, h: int)
    requires Rings(availRing, usedRing, reqs, availN, takenN, usedN, seenN) && h in reqs && reqs[h].phase.Seen?
    ensures Rings(availRing, usedRing, reqs - {h}, availN, takenN, usedN, seenN)
  {
    assert Key(0, reqs);
    CountDrop(reqs, h, 0, NUM);
    CountDrop(reqs, h, 2, NUM);
    var reqs' := reqs - {h};
    forall n {:trigger InRing(availRing, n)} | takenN <= n < availN ensures Waits(reqs', InRing(availRing, n), n) {
      assert Waits(reqs, InRing(availRing, n), n);
    }
    forall n {:trigger InRing(usedRing, n)} | seenN <= n < usedN ensures Reported(reqs', InRing(usedRing, n), n) {
      assert Reported(reqs, InRing(usedRing, n), n);
    }
  }

  // ---------------------------------------------------------------- what is served

  ghost predicate Telling(start: Store, store: Store, events: seq<Event>, reqs: map<int, Flight>) {
    && store == After(start, events, |events|)
    && (forall h {:trigger reqs[h]} {:trigger h in reqs} | h in reqs :: TellOk(events, reqs[h]))
  }

  /** The store is what the events make of it, and every request that is done has been served by one of
      them, as it was asked for; no other has been about its buffer since the request came. */
  ghost predicate Told(start: Store, store: Store, events: seq<Event>, reqs: map<int, Flight>) {
    forall k {:trigger Key(k, events)} | Key(k, events) :: Telling(start, store, events, reqs)
  }

  ghost predicate TellOk(events: seq<Event>, f: Flight) {
    && f.from <= |events|
    && match f.phase
       case Queued(_) => Untouched(events, f.from, |events|, f.req.b)
       case Fetched => Untouched(events, f.from, |events|, f.req.b)
       case Done(_, ok, at) => ServedAt(events, f, ok, at)
       case Seen(at) => ServedAt(events, f, true, at)
  }

  ghost predicate ServedAt(events: seq<Event>, f: Flight, ok: bool, at: nat) {
    && f.from <= at < |events| && events[at].Served? && events[at].req == f.req && events[at].ok == ok
    && Untouched(events, f.from, at, f.req.b) && Untouched(events, at + 1, |events|, f.req.b)
  }

  lemma TellAt(start: Store, store: Store, events: seq<Event>, reqs: map<int, Flight>, h: int)
    requires Told(start, store, events, reqs) && h in reqs
    ensures TellOk(events, reqs[h])
  {
    assert Key(0, events);
  }

  lemma StoreIs(start: Store, store: Store, events: seq<Event>, reqs: map<int, Flight>)
    requires Told(start, store, events, reqs)
    ensures store == After(start, events, |events|)
  {
    assert Key(0, events);
  }

  lemma ToldServed(start: Store, store: Store, events: seq<Event>, reqs: map<int, Flight>, busy: set<int>,
                   working: set<int>,
                   status: seq<int>, h: int, n: nat, e: Event)
    requires Told(start, store, events, reqs) && h in reqs && reqs[h].phase == Fetched
    requires Flights(reqs, busy, working, status) && e.Served? && e.req == reqs[h].req
    ensures Told(start, Apply(store, e), events + [e], reqs[h := reqs[h].(phase := Done(n, e.ok, |events|))])
  {
    assert Key(0, events) && Key(0, status);
    var events', reqs' := events + [e], reqs[h := reqs[h].(phase := Done(n, e.ok, |events|))];
    AfterPrefix(start, events, events', |events|);
    forall g {:trigger reqs'[g]} {:trigger g in reqs'} | g in reqs' ensures TellOk(events', reqs'[g]) {
      assert TellOk(events, reqs[g]);
      assert g != h ==> reqs[g].req.b != reqs[h].req.b;
    }
  }

  lemma ToldFilled(start: Store, store: Store, events: seq<Event>, reqs: map<int, Flight>, b: int, data: Bytes)
    requires Told(start, store, events, reqs) && NoneHas(reqs, b)
    ensures Told(start, Apply(store, Filled(b, data)), events + [Filled(b, data)], reqs)
  {
    assert Key(0, events);
    var events' := events + [Filled(b, data)];
    AfterPrefix(start, events, events', |events|);
    forall g {:trigger reqs[g]} {:trigger g in reqs} | g in reqs ensures TellOk(events', reqs[g]) {
      assert TellOk(events, reqs[g]);
    }
  }

  /** Requests come, move on without being served, and go. */
  lemma ToldAdded(start: Store, store: Store, events: seq<Event>, reqs: map<int, Flight>, h: int, f: Flight)
    requires Told(start, store, events, reqs) && TellOk(events, f)
    ensures Told(start, store, events, reqs[h := f])
  {
    assert Key(0, events);
  }

  lemma ToldGone(start: Store, store: Store, events: seq<Event>, reqs: map<int, Flight>, h: int)
    requires Told(start, store, events, reqs)
    ensures Told(start, store, events, reqs - {h})
  {
    assert Key(0, events);
  }

  /** What a request that is over has done: a write has put what the buffer held when the request came on
      the disk, and a read has put what was on the disk into the buffer, where it still is. */
  ghost predicate WasServed(start: Store, store: Store, events: seq<Event>, f: Flight) {
    && f.phase.Seen? && ServedAt(events, f, true, f.phase.at)
    && (f.req.write ==> Content(After(start, events, f.phase.at + 1).media, f.req.sector) ==
                        Content(After(start, events, f.from).bufs, f.req.b))
    && (!f.req.write ==> Content(store.bufs, f.req.b) == Content(After(start, events, f.phase.at).media, f.req.sector))
  }

  lemma SeenServed(start: Store, store: Store, events: seq<Event>, reqs: map<int, Flight>, h: int)
    requires Told(start, store, events, reqs) && h in reqs && reqs[h].phase.Seen?
    ensures WasServed(start, store, events, reqs[h])
  {
    StoreIs(start, store, events, reqs);
    TellAt(start, store, events, reqs, h);
    var f := reqs[h];
    BufferStays(start, events, f.from, f.phase.at, f.req.b);
    BufferStays(start, events, f.phase.at + 1, |events|, f.req.b);
  }

  lemma ServedLater(start: Store, store: Store, events: seq<Event>, store': Store, events': seq<Event>, f: Flight)
    requires events <= events' && WasServed(start, store, events, f) && Untouched(events', |events|, |events'|, f.req.b)
    requires store == After(start, events, |events|) && store' == After(start, events', |events'|)
    ensures WasServed(start, store', events', f)
  {
    AfterPrefix(start, events, events', f.phase.at);
    AfterPrefix(start, events, events', f.phase.at + 1);
    AfterPrefix(start, events, events', f.from);
    AfterPrefix(start, events, events', |events|);
    BufferStays(start, events', |events|, |events'|, f.req.b);
  }

  /** No event from i up to j writes to a sector. */
  ghost predicate Unwritten(events: seq<Event>, i: nat, j: nat, sector: nat) {
    forall k {:trigger events[k]} | i <= k < j && k < |events| ::
      events[k].Served? && events[k].req.write ==> events[k].req.sector != sector
  }

  lemma {:induction false} SectorStays(s: Store, events: seq<Event>, i: nat, j: nat, sector: nat)
    requires i <= j <= |events| && Unwritten(events, i, j, sector)
    ensures Content(After(s, events, j).media, sector) == Content(After(s, events, i).media, sector)
  {
    if i < j {
      SectorStays(s, events, i, j - 1, sector);
      assert !(events[j - 1].Served? && events[j - 1].req.write && events[j - 1].req.sector == sector);
    }
  }

  /** The disk is a memory: a read that is over has brought what the last write to its sector was given. */
  lemma ReadsLastWrite(start: Store, store: Store, store': Store, events: seq<Event>, w: Flight, r: Flight)
    requires WasServed(start, store, events, w) && WasServed(start, store', events, r)
    requires w.req.write && !r.req.write && w.req.sector == r.req.sector && w.phase.at < r.phase.at
    requires Unwritten(events, w.phase.at + 1, r.phase.at, r.req.sector)
    ensures Content(store'.bufs, r.req.b) == Content(After(start, events, w.from).bufs, w.req.b)
  {
    SectorStays(start, events, w.phase.at + 1, r.phase.at, r.req.sector);
  }

  // ---------------------------------------------------------------- what others do meanwhile

  /** A request has moved on; it has been seen in between just if `seen`. */
  ghost predicate Ahead(f: Flight, f': Flight, seen: bool) {
    && f'.req == f.req && f'.second == f.second && f'.third == f.third && f'.from == f.from
    && Kind(f.phase) <= Kind(f'.phase) && (Kind(f.phase) == Kind(f'.phase) ==> f'.phase == f.phase)
    && (f.phase.Done? && f'.phase.Seen? ==> f'.phase.at == f.phase.at)
    && (seen <==> f'.phase.Seen? && !f.phase.Seen?)
  }

  /** The device has left the status bytes of all other heads alone.  Behind a trigger. */
  ghost predicate Spared(status: seq<int>, status': seq<int>, heads: set<int>) {
    forall k {:trigger Key(k, status')} | Key(k, status') ::
      && |status'| == |status|
      && forall g {:trigger status'[g]} | 0 <= g < |status| && g !in heads :: status'[g] == status[g]
  }

  lemma SparedThen(status: seq<int>, status1: seq<int>, status': seq<int>, heads: set<int>)
    requires Spared(status, status1, heads) && Spared(status1, status', heads)
    ensures Spared(status, status', heads)
  {
    assert Key(0, status1) && Key(0, status');
  }

  lemma SparedAt(status: seq<int>, status': seq<int>, heads: set<int>, g: int)
    requires Spared(status, status', heads) && 0 <= g < |status| && g !in heads
    ensures |status'| == |status| && status'[g] == status[g]
  {
    assert Key(0, status');
  }

  lemma OnwardKeys(reqs: map<int, Flight>, events: seq<Event>, reqs': map<int, Flight>, events': seq<Event>,
                   seen: set<int>)
    requires Onward(reqs, events, reqs', events', seen)
    ensures reqs'.Keys == reqs.Keys
  {
    assert Key(0, events');
  }

  ghost predicate Forth(reqs: map<int, Flight>, events: seq<Event>, reqs': map<int, Flight>, events': seq<Event>,
                        seen: set<int>) {
    && reqs'.Keys == reqs.Keys && seen <= reqs.Keys && events <= events'
    && (forall h {:trigger reqs'[h]} {:trigger h in reqs'} | h in reqs :: Ahead(reqs[h], reqs'[h], h in seen))
    && (forall k {:trigger events'[k]} | |events| <= k < |events'| :: events'[k].Served? && Has(reqs, events'[k].req))
  }

  ghost predicate Has(reqs: map<int, Flight>, req: Request) {
    exists h {:trigger reqs[h]} :: h in reqs && reqs[h].req == req
  }

  /** From one state to a later one the same requests are in flight, each has moved on, those in `seen`
      have been seen by the driver, and all that has been served is requests in flight. */
  ghost predicate Onward(reqs: map<int, Flight>, events: seq<Event>, reqs': map<int, Flight>, events': seq<Event>,
                         seen: set<int>) {
    forall k {:trigger Key(k, events')} | Key(k, events') :: Forth(reqs, events, reqs', events', seen)
  }

  lemma OnwardSame(reqs: map<int, Flight>, events: seq<Event>)
    ensures Onward(reqs, events, reqs, events, {})
  {}

  lemma OnwardMoved(reqs: map<int, Flight>, events: seq<Event>, h: int, f: Flight)
    requires h in reqs && Ahead(reqs[h], f, f.phase.Seen?)
    ensures Onward(reqs, events, reqs[h := f], events, if f.phase.Seen? then {h} else {})
  {}

  lemma OnwardServed(reqs: map<int, Flight>, events: seq<Event>, h: int, f: Flight, e: Event)
    requires h in reqs && Ahead(reqs[h], f, false) && e.Served? && e.req == reqs[h].req
    ensures Onward(reqs, events, reqs[h := f], events + [e], {})
  {
    assert Has(reqs, reqs[h].req);
  }

  lemma OnwardTrans(reqs: map<int, Flight>, events: seq<Event>, reqs1: map<int, Flight>, events1: seq<Event>,
                    reqs2: map<int, Flight>, events2: seq<Event>, seen: set<int>, seen': set<int>)
    requires Onward(reqs, events, reqs1, events1, seen) && Onward(reqs1, events1, reqs2, events2, seen')
    ensures Onward(reqs, events, reqs2, events2, seen + seen') && seen !! seen'
  {
    assert Key(0, events1) && Key(0, events2);
    forall h {:trigger reqs2[h]} {:trigger h in reqs2} | h in reqs ensures Ahead(reqs[h], reqs2[h], h in seen + seen') {
      assert Ahead(reqs[h], reqs1[h], h in seen) && Ahead(reqs1[h], reqs2[h], h in seen');
    }
    forall h | h in seen ensures h !in seen' {
      assert Ahead(reqs[h], reqs1[h], h in seen) && Ahead(reqs1[h], reqs2[h], h in seen');
    }
    forall k {:trigger events2[k]} | |events| <= k < |events2| ensures events2[k].Served? && Has(reqs, events2[k].req) {
      if k < |events1| {
        assert events2[k] == events1[k];
      } else {
        assert Has(reqs1, events2[k].req);
        var h :| h in reqs1 && reqs1[h].req == events2[k].req;
        assert Ahead(reqs[h], reqs1[h], h in seen) && reqs[h].req == events2[k].req;
      }
    }
  }

  /** ... the driver having seen nothing, or only later. */
  lemma OnwardThen(reqs: map<int, Flight>, events: seq<Event>, reqs1: map<int, Flight>, events1: seq<Event>,
                   reqs2: map<int, Flight>, events2: seq<Event>, seen: set<int>)
    requires Onward(reqs, events, reqs1, events1, {}) && Onward(reqs1, events1, reqs2, events2, seen)
    ensures Onward(reqs, events, reqs2, events2, seen)
  {
    OnwardTrans(reqs, events, reqs1, events1, reqs2, events2, {}, seen);
    assert {} + seen == seen;
  }

  function Members(s: seq<int>): set<int> { set h | h in s }

  ghost predicate Distinct(s: seq<int>) { forall i, j :: 0 <= i < j < |s| ==> s[i] != s[j] }

  function Buffers(reqs: map<int, Flight>,
                   reports: seq<int>): set<int> { set h | h in reports && h in reqs :: reqs[h].req.b }

  /** The driver reports one more. */
  lemma ReportMore(reqs: map<int, Flight>, events: seq<Event>, reqs1: map<int, Flight>, events1: seq<Event>,
                   reqs2: map<int, Flight>, events2: seq<Event>, reports: seq<int>, id: int)
    requires Onward(reqs, events, reqs1, events1, Members(reports)) && Onward(reqs1, events1, reqs2, events2, {id})
    requires Distinct(reports)
    ensures id in reqs && id in reqs1 && id !in reports && Distinct(reports + [id])
    ensures Onward(reqs, events, reqs2, events2, Members(reports + [id]))
    ensures Buffers(reqs, reports + [id]) == Buffers(reqs, reports) + {reqs1[id].req.b}
    ensures reqs.Keys - Members(reports + [id]) < reqs.Keys - Members(reports)
  {
    OnwardTrans(reqs, events, reqs1, events1, reqs2, events2, Members(reports), {id});
    OnwardKeeps(reqs, events, reqs1, events1, Members(reports));
    OnwardKeeps(reqs1, events1, reqs2, events2, {id});
    assert id in {id};
    assert Members(reports + [id]) == Members(reports) + {id};
    assert Ahead(reqs[id], reqs1[id], id in Members(reports));
    assert id in reqs.Keys - Members(reports) && id !in reqs.Keys - Members(reports + [id]);
  }

  /** What stays as it was. */
  lemma OnwardKeeps(reqs: map<int, Flight>, events: seq<Event>, reqs': map<int, Flight>, events': seq<Event>,
                    seen: set<int>)
    requires Onward(reqs, events, reqs', events', seen)
    ensures reqs'.Keys == reqs.Keys && seen <= reqs.Keys && events <= events'
    ensures forall h {:trigger reqs'[h]} {:trigger h in reqs'} | h in reqs :: Ahead(reqs[h], reqs'[h], h in seen)
    ensures forall b {:trigger NoneHas(reqs', b)} | NoneHas(reqs, b) ::
      NoneHas(reqs', b) && Untouched(events', |events|, |events'|, b)
  {
    assert Key(0, events');
    forall b {:trigger NoneHas(reqs', b)} | NoneHas(reqs, b)
      ensures NoneHas(reqs', b) && Untouched(events', |events|, |events'|, b)
    {
      forall g {:trigger reqs'[g]} {:trigger g in reqs'} | g in reqs' ensures reqs'[g].req.b != b {
        assert reqs'[g].req == reqs[g].req;
      }
      forall k {:trigger events'[k]} | |events| <= k < |events'| ensures Buffer(events'[k]) != b {
        assert Has(reqs, events'[k].req);
        var h :| h in reqs && reqs[h].req == events'[k].req;
      }
    }
  }

  // ---------------------------------------------------------------- driver and device

  /** One step of the device: it fetches the next available request; or it carries out the one at h; or
      it fails at that.  A step that is not possible does nothing. */
  datatype Act = Fetch | Serve(h: int) | Fail(h: int, junk: Bytes)

  /** What the device does at each of the moments when the driver leaves it room. */
  type Plan = nat -> seq<Act>

  class Driver {
    /** mp4's driver keeps used_idx modulo NUM; mp2's keeps all sixteen bits. */
    const narrow: bool
    var desc: seq<Desc>
    var free: seq<bool>
    var ops: seq<Header>
    var infoB: seq<int>
    var status: seq<int>
    var availRing: seq<int>
    var availIdx: nat
    var usedRing: seq<int>
    var usedRingIdx: nat
    var usedIdx: nat
    /** The buffers whose `disk` field is set, and the processes that sleep on &disk.free[0]. */
    var busy: set<int>
    var sleepers: set<int>
    /** What the device has: the medium and the buffers, which it reaches by address, its place in the
        available ring, and the requests it works on. */
    var store: Store
    var lastAvail: nat
    var working: set<int>
    ghost const start: Store
    ghost var events: seq<Event>
    ghost var own: seq<Role>
    ghost var reqs: map<int, Flight>
    ghost var availN: nat
    ghost var takenN: nat
    ghost var usedN: nat
    ghost var seenN: nat

    /** The counters as the driver and the device keep them. */
    ghost predicate Indices()
      reads `availN, `takenN, `usedN, `seenN, `availIdx, `usedRingIdx, `usedIdx, `lastAvail
    {
      && availIdx == availN % IDX && usedRingIdx == usedN % IDX && lastAvail == takenN % IDX
      && usedIdx == seenN % (if narrow then NUM else IDX)
    }

    /** Three descriptors a request, besides those just taken. */
    ghost predicate Counted(taken: nat)
      reads `free, `reqs
    {
      |free| == NUM && FreeCount(free, NUM) + taken + 3 * Count(reqs, 4, NUM) == NUM
    }

    /** What holds whenever the device may take a step. */
    ghost predicate Sound(taken: nat)
      reads this
    {
      Shapes() && forall k {:trigger Key(k, this)} | Key(k, this) :: Parts(taken)
    }

    ghost predicate Shapes()
      reads this
    {
      |desc| == |ops| == |infoB| == |free| == |own| == |status| == |availRing| == |usedRing| == NUM
    }

    lemma Open(taken: nat)
      requires Sound(taken)
      ensures Parts(taken)
    {
      assert Key(0, this);
    }

    ghost predicate Parts(taken: nat)
      reads this
    {
      && Divided(desc, ops, infoB, free, own, reqs) && Counted(taken) && Indices()
      && Rings(availRing, usedRing, reqs, availN, takenN, usedN, seenN)
      && Flights(reqs, busy, working, status) && Told(start, store, events, reqs)
    }

    /** What holds between the driver's critical sections; a process sleeps for descriptors only while
        two requests are in flight. */
    ghost predicate Valid()
      reads this
    {
      && Sound(0) && NoneTaken(own) && (sleepers != {} ==> Count(reqs, 4, NUM) == 2)
    }

    constructor (narrow: bool, media: map<int, Bytes>)
      ensures Valid() && this.narrow == narrow && store == start == Store(media, map[]) && events == []
      ensures reqs == map[] && busy == {} && sleepers == {}
    {
      this.narrow, store, start, events := narrow, Store(media, map[]), Store(media, map[]), [];
      desc, free, ops := seq(NUM, _ => CLEAR), seq(NUM, _ => true), seq(NUM, _ => Header(false, 0));
      infoB, status, availRing, usedRing := seq(NUM, _ => 0), seq(NUM, _ => 0), seq(NUM, _ => 0), seq(NUM, _ => 0);
      availIdx, usedRingIdx, usedIdx, lastAvail, busy, sleepers, working := 0, 0, 0, 0, {}, {}, {};
      own, reqs, availN, takenN, usedN, seenN := seq(NUM, _ => Idle), map[], 0, 0, 0, 0;
      new;
      CountNone(reqs, 0, NUM);
      CountNone(reqs, 2, NUM);
      CountNone(reqs, 4, NUM);
      AllFree(free, NUM);
    }

    /** At most two requests are in flight, so the rings never overflow. */
    lemma TwoAtMost(taken: nat)
      requires Sound(taken)
      ensures Count(reqs, 4, NUM) <= 2 && takenN <= availN <= takenN + 2 && seenN <= usedN <= seenN + 2
      ensures taken == 3 ==> Count(reqs, 4, NUM) <= 1 && availN <= takenN + 1
    {
      Open(taken);
      assert Key(0, reqs);
      CountAll(reqs, NUM);
    }

    /** The driver's test for new entries in the used ring, and the device's for available ones, are exact
        at any moment. */
    lemma TestExact(taken: nat)
      requires Sound(taken)
      ensures (if narrow then usedIdx % NUM != usedRingIdx % NUM else usedIdx != usedRingIdx) <==> seenN < usedN
      ensures lastAvail != availIdx <==> takenN < availN
    {
      Open(taken);
      TwoAtMost(taken);
      TestsExact(seenN, usedN);
      TestsExact(takenN, availN);
    }

    /** A process that sleeps for descriptors has a request in flight to wake it. */
    lemma SleeperIsServed()
      requires Valid() && sleepers != {}
      ensures exists h :: h in reqs
    {
      Open(0);
      if forall h | 0 <= h < NUM :: h !in reqs {
        CountNone(reqs, 4, NUM);
      }
    }

    // -------------------------------------------------------------- the device

    /** The device takes the steps it chooses, since the state of r0 and e0. */
    method DeviceRun(plan: seq<Act>, ghost taken: nat, ghost r0: map<int, Flight>, ghost e0: seq<Event>)
      requires Sound(taken) && Onward(r0, e0, reqs, events, {})
      modifies `store, `status, `usedRing, `usedRingIdx, `lastAvail, `working, `events, `reqs, `takenN, `usedN
      ensures Sound(taken) && Onward(r0, e0, reqs, events, {}) && Onward(old(reqs), old(events), reqs, events, {})
      ensures usedN >= old(usedN) && Count(reqs, 4, NUM) == Count(old(reqs), 4, NUM)
      ensures Spared(old(status), status, r0.Keys)
    {
      Open(taken);
      OnwardSame(reqs, events);
      for i := 0 to |plan|
        invariant Sound(taken) && Onward(r0, e0, reqs, events, {}) && Onward(old(reqs), old(events), reqs, events, {})
        invariant usedN >= old(usedN) && Spared(old(status), status, r0.Keys)
      {
        ghost var reqs1, events1, status1 := reqs, events, status;
        OnwardKeys(r0, e0, reqs, events, {});
        DeviceStep(plan[i], taken);
        SparedThen(old(status), status1, status, r0.Keys);
        OnwardThen(r0, e0, reqs1, events1, reqs, events, {});
        OnwardThen(old(reqs), old(events), reqs1, events1, reqs, events, {});
      }
      Open(taken);
    }

    method DeviceStep(act: Act, ghost taken: nat)
      requires Sound(taken)
      modifies `store, `status, `usedRing, `usedRingIdx, `lastAvail, `working, `events, `reqs, `takenN, `usedN
      ensures Sound(taken) && Onward(old(reqs), old(events), reqs, events, {}) && usedN >= old(usedN)
      ensures Spared(old(status), status, old(reqs).Keys)
    {
      TestExact(taken);
      OnwardSame(reqs, events);
      match act
      case Fetch =>
        if lastAvail != availIdx {
          var h := DeviceFetch(taken);
        }
      case Serve(h) =>
        if h in working {
          DeviceServe(h, true, Content(map[], 0), taken);
        }
      case Fail(h, junk) =>
        if h in working {
          DeviceServe(h, false, junk, taken);
        }
    }

    /** The device fetches the next entry of the available ring. */
    method DeviceFetch(ghost taken: nat) returns (h: int)
      requires Sound(taken) && takenN < availN
      modifies `lastAvail, `working, `reqs, `takenN
      ensures Sound(taken) && Waits(old(reqs), h, old(takenN))
      ensures reqs == old(reqs)[h := old(reqs)[h].(phase := Fetched)]
      ensures Onward(old(reqs), events, reqs, events, {})
    {
      h := availRing[lastAvail % NUM];
      FetchedAt(h, taken);
      TakeUp(h);
    }

    method TakeUp(h: int)
      requires h in reqs
      modifies `lastAvail, `working, `reqs, `takenN
      ensures lastAvail == (old(lastAvail) + 1) % IDX && working == old(working) + {h}
      ensures reqs == old(reqs)[h := old(reqs)[h].(phase := Fetched)] && takenN == old(takenN) + 1
    {
      lastAvail := (lastAvail + 1) % IDX;
      working := working + {h};
      reqs, takenN := reqs[h := reqs[h].(phase := Fetched)], takenN + 1;
    }

    lemma FetchedAt(h: int, taken: nat)
      requires Sound(taken) && takenN < availN && h == availRing[lastAvail % NUM]
      ensures Waits(reqs, h, takenN) && (lastAvail + 1) % IDX == (takenN + 1) % IDX
      ensures Counted(taken) && Indices()
      ensures var reqs' := reqs[h := reqs[h].(phase := Fetched)];
              && Divided(desc, ops, infoB, free, own, reqs') && Flights(reqs', busy, working + {h}, status)
              && Count(reqs', 4, NUM) == Count(reqs, 4, NUM) && Told(start, store, events, reqs')
              && Rings(availRing, usedRing, reqs', availN, takenN + 1, usedN, seenN)
              && Onward(reqs, events, reqs', events, {})
    {
      Open(taken);
      Wraps(takenN);
      WaitsAt(availRing, usedRing, reqs, availN, takenN, usedN, seenN);
      FlightAt(reqs, busy, working, status, h);
      FetchedStep(availRing, usedRing, reqs, availN, takenN, usedN, seenN, h);
      Moved(desc, ops, infoB, free, own, reqs, h, Fetched);
      FlightMoved(reqs, busy, working, status, h, Fetched, busy, working + {h}, 0);
      TellAt(start, store, events, reqs, h);
      ToldAdded(start, store, events, reqs, h, reqs[h].(phase := Fetched));
      CountSet(reqs, h, reqs[h].(phase := Fetched), 4, NUM);
      OnwardMoved(reqs, events, h, reqs[h].(phase := Fetched));
    }

    /** The device carries out what it reads in a chain it has fetched, in any order, or fails at it, and
        reports it: what it does is what was asked for. */
    method DeviceServe(h: int, ok: bool, junk: Bytes, ghost taken: nat)
      requires Sound(taken) && h in working
      modifies `store, `status, `usedRing, `usedRingIdx, `working, `events, `reqs, `usedN
      ensures Sound(taken) && h in old(reqs) && old(reqs)[h].phase == Fetched
      ensures events == old(events) + [Served(old(reqs)[h].req, ok, junk)]
      ensures reqs == old(reqs)[h := old(reqs)[h].(phase := Done(old(usedN), ok, |old(events)|))]
      ensures usedN == old(usedN) + 1
      ensures store == Apply(old(store), Served(old(reqs)[h].req, ok, junk))
      ensures Onward(old(reqs), old(events), reqs, events, {}) && Spared(old(status), status, {h})
    {
      WorksAt(h, taken);
      DecodeAt(h, taken);
      Report(h, Decode(desc, ops, h), ok, junk, taken);
    }

    /** The data, the status byte and the entry in the used ring. */
    method Report(h: int, c: Reading, ok: bool, junk: Bytes, ghost taken: nat)
      requires Sound(taken) && h in reqs && reqs[h].phase == Fetched && 0 <= h < NUM && c == Asked(reqs[h].req, h)
      modifies `store, `status, `usedRing, `usedRingIdx, `working, `events, `reqs, `usedN
      ensures var e := Served(old(reqs)[h].req, ok, junk);
              Sound(taken) && events == old(events) + [e] && store == Apply(old(store), e)
      ensures reqs == old(reqs)[h := old(reqs)[h].(phase := Done(old(usedN), ok, |old(events)|))]
      ensures usedN == old(usedN) + 1
      ensures Onward(old(reqs), old(events), reqs, events, {}) && Spared(old(status), status, {h})
    {
      ghost var f, e := reqs[h].(phase := Done(usedN, ok, |events|)), Served(reqs[h].req, ok, junk);
      DoneAt(h, e, f, taken);
      PerformIs(store, reqs[h].req, h, ok, junk);
      Write(h, c, ok, junk, e, f);
    }

    /** Where there is no command the status byte is not written either, but the chain is given back. */
    method Write(h: int, c: Reading, ok: bool, junk: Bytes, ghost e: Event, ghost f: Flight)
      requires |status| == |usedRing| == NUM && (c.Command? ==> 0 <= c.st < NUM && c.len <= BSIZE && c.st == h)
      modifies `store, `status, `usedRing, `usedRingIdx, `working, `events, `reqs, `usedN
      ensures store == Perform(old(store), c, ok, junk)
      ensures status == if c.Command? then old(status)[c.st := if ok then 0 else 1] else old(status)
      ensures Spared(old(status), status, {h})
      ensures usedRing == old(usedRing)[old(usedRingIdx) % NUM := h] && usedRingIdx == (old(usedRingIdx) + 1) % IDX
      ensures working == old(working) - {h} && reqs == old(reqs)[h := f] && events == old(events) + [e]
      ensures usedN == old(usedN) + 1
    {
      store := Perform(store, c, ok, junk);
      if c.Command? {
        status := status[c.st := if ok then 0 else 1];
      }
      usedRing := usedRing[usedRingIdx % NUM := h];
      usedRingIdx := (usedRingIdx + 1) % IDX;
      working := working - {h};
      reqs, events, usedN := reqs[h := f], events + [e], usedN + 1;
    }

    lemma WorksAt(h: int, taken: nat)
      requires Sound(taken) && h in working
      ensures h in reqs && reqs[h].phase == Fetched && 0 <= h < NUM
    {
      Open(taken);
      FlightAt(reqs, busy, working, status, h);
    }

    /** As long as a request is in flight, the device reads in its chain what was asked for: the whole of this
        buffer, this sector, in this direction, as the flags allow it, and the status byte of this request. */
    lemma DecodeAt(h: int, taken: nat)
      requires Sound(taken) && h in reqs
      ensures 0 <= h < NUM
      ensures Decode(desc, ops, h) == Command(reqs[h].req.write, reqs[h].req.sector, reqs[h].req.b, BSIZE, h)
    {
      Open(taken);
      ChainAt(desc, ops, infoB, free, own, reqs, h);
      var f := reqs[h];
      assert Linked(desc, f.third, NUM - 1) == [desc[f.third]];
      assert Linked(desc, f.second, NUM) == [desc[f.second]] + Linked(desc, f.third, NUM - 1);
      assert Linked(desc, h, NUM + 1) == [desc[h]] + Linked(desc, f.second, NUM);
    }

    lemma DoneAt(h: int, e: Event, f: Flight, taken: nat)
      requires Sound(taken) && h in reqs && reqs[h].phase == Fetched && 0 <= h < NUM
      requires e.Served? && e.req == reqs[h].req && f == reqs[h].(phase := Done(usedN, e.ok, |events|))
      ensures usedRingIdx % NUM == usedN % NUM && (usedRingIdx + 1) % IDX == (usedN + 1) % IDX
      ensures Counted(taken) && Indices()
      ensures Divided(desc, ops, infoB, free, own, reqs[h := f]) && Count(reqs[h := f], 4, NUM) == Count(reqs, 4, NUM)
      ensures Flights(reqs[h := f], busy, working - {h}, status[h := if e.ok then 0 else 1])
      ensures Told(start, Apply(store, e), events + [e], reqs[h := f])
      ensures Rings(availRing, usedRing[usedN % NUM := h], reqs[h := f], availN, takenN, usedN + 1, seenN)
      ensures Onward(reqs, events, reqs[h := f], events + [e], {})
    {
      Open(taken);
      TwoAtMost(taken);
      Wraps(usedN);
      DoneStep(availRing, usedRing, reqs, availN, takenN, usedN, seenN, h, e.ok, |events|);
      Moved(desc, ops, infoB, free, own, reqs, h, f.phase);
      FlightMoved(reqs, busy, working, status, h, f.phase, busy, working - {h}, if e.ok then 0 else 1);
      ToldServed(start, store, events, reqs, busy, working, status, h, usedN, e);
      CountSet(reqs, h, f, 4, NUM);
      OnwardServed(reqs, events, h, f, e);
    }

    // -------------------------------------------------------------- the driver

    /** alloc_desc() */
    method AllocDesc(ghost taken: nat) returns (i: int)
      requires Sound(taken)
      modifies `free, `own
      ensures |free| == |own| == NUM
      ensures i == -1 ==> Sound(taken) && free == old(free) && own == old(own) && FreeCount(free, NUM) == 0
      ensures i != -1 ==> Sound(taken + 1) && 0 <= i < NUM && old(own)[i] == Idle && own == old(own)[i := Taken]
      ensures i != -1 ==> FreeCount(free, NUM) == FreeCount(old(free), NUM) - 1
      ensures i != -1 ==> forall j {:trigger old(free)[j]} | 0 <= j < i :: !old(free)[j]
    {
      i := 0;
      while i < NUM
        invariant 0 <= i <= NUM && forall j | 0 <= j < i :: !free[j]
      {
        if free[i] {
          Take(i, taken);
          return;
        }
        i := i + 1;
      }
      NoneFree(free, NUM);
      return -1;
    }

    method Take(i: int, ghost taken: nat)
      requires Sound(taken) && 0 <= i < NUM && free[i]
      modifies `free, `own
      ensures Sound(taken + 1) && old(own)[i] == Idle && own == old(own)[i := Taken]
      ensures FreeCount(free, NUM) == FreeCount(old(free), NUM) - 1
    {
      TakenAt(i, taken);
      free, own := free[i := false], own[i := Taken];
    }

    lemma TakenAt(i: int, taken: nat)
      requires Sound(taken) && 0 <= i < NUM && free[i]
      ensures own[i] == Idle && Divided(desc, ops, infoB, free[i := false], own[i := Taken], reqs)
      ensures FreeCount(free[i := false], NUM) + 1 == FreeCount(free, NUM) && Parts(taken)
    {
      Open(taken);
      RoleAt(desc, ops, infoB, free, own, reqs, i);
      RoleSet(desc, ops, infoB, free, own, reqs, i, desc[i], Taken);
      assert desc[i := desc[i]] == desc;
      FreeSet(free, i, false, NUM);
    }

    /** free_desc(), which wakes those who wait for a descriptor. */
    method FreeDesc(i: int, ghost taken: nat) returns (panicked: bool)
      requires Sound(taken + 1) && 0 <= i < NUM && own[i] == Taken
      modifies `desc, `free, `own, `sleepers
      ensures Sound(taken) && !panicked && own == old(own)[i := Idle] && sleepers == {}
      ensures desc == old(desc)[i := Cleared(old(desc)[i])] && FreeCount(free, NUM) == FreeCount(old(free), NUM) + 1
    {
      FreedAt(i, taken);
      if free[i] {
        return true;
      }
      desc, free, own, sleepers := desc[i := Cleared(desc[i])], free[i := true], own[i := Idle], {};
      return false;
    }

    /** mp4's driver clears the address of a descriptor that it frees, mp2's all of it. */
    function Cleared(d: Desc): Desc { if narrow then d.(addr := Nil) else CLEAR }

    lemma FreedAt(i: int, taken: nat)
      requires Sound(taken + 1) && 0 <= i < NUM && own[i] == Taken
      ensures !free[i] && Divided(desc[i := Cleared(desc[i])], ops, infoB, free[i := true], own[i := Idle], reqs)
      ensures FreeCount(free[i := true], NUM) == FreeCount(free, NUM) + 1 && Parts(taken + 1)
    {
      Open(taken + 1);
      RoleAt(desc, ops, infoB, free, own, reqs, i);
      RoleSet(desc, ops, infoB, free, own, reqs, i, Cleared(desc[i]), Idle);
      FreeSet(free, i, true, NUM);
    }

    /** alloc3_desc() */
    method Alloc3Desc(device: Plan) returns (ok: bool, i0: int, i1: int, i2: int)
      requires Valid()
      modifies `desc, `free, `own, `sleepers
      modifies `store, `status, `usedRing, `usedRingIdx, `lastAvail, `working, `events, `reqs, `takenN, `usedN
      ensures Onward(old(reqs), old(events), reqs, events, {})
      ensures ok <==> FreeCount(old(free), NUM) >= 3
      ensures ok ==>
        Sound(3) && Three(own, i0, i1, i2) && Three(old(own)[i0 := Taken][i1 := Taken][i2 := Taken], i0, i1, i2)
      ensures ok ==> own == old(own)[i0 := Taken][i1 := Taken][i2 := Taken] && sleepers == old(sleepers)
      ensures !ok ==> Sound(0) && own == old(own) && (sleepers == old(sleepers) || sleepers == {})
      ensures !ok ==> FreeCount(free, NUM) == FreeCount(old(free), NUM)
    {
      ghost var r0, e0 := reqs, events;
      OnwardSame(r0, e0);
      ok, i1, i2 := false, -1, -1;
      i0 := AllocDesc(0);
      if i0 >= 0 {
        DeviceRun(device(0), 1, r0, e0);
        ok, i1, i2 := AllocMore(i0, device, r0, e0);
      }
    }

    /** ... from the second descriptor on. */
    method AllocMore(i0: int, device: Plan, ghost r0: map<int, Flight>, ghost e0: seq<Event>)
      returns (ok: bool, i1: int, i2: int)
      requires Sound(1) && 0 <= i0 < NUM && own[i0] == Taken && Onward(r0, e0, reqs, events, {})
      modifies `desc, `free, `own, `sleepers
      modifies `store, `status, `usedRing, `usedRingIdx, `lastAvail, `working, `events, `reqs, `takenN, `usedN
      ensures Onward(r0, e0, reqs, events, {}) && |own| == NUM
      ensures ok <==> FreeCount(old(free), NUM) >= 2
      ensures ok ==> Sound(3) && 0 <= i1 < NUM && 0 <= i2 < NUM && old(own)[i1] == old(own)[i2] == Idle && i1 != i2
      ensures ok ==> own == old(own)[i1 := Taken][i2 := Taken] && sleepers == old(sleepers)
      ensures !ok ==> Sound(0) && own == old(own)[i0 := Idle] && sleepers == {}
      ensures !ok ==> FreeCount(free, NUM) == FreeCount(old(free), NUM) + 1
    {
      ok, i2 := false, -1;
      i1 := AllocDesc(1);
      if i1 < 0 {
        var panicked := FreeDesc(i0, 0);
      } else {
        DeviceRun(device(1), 2, r0, e0);
        ok, i2 := AllocLast(i0, i1, device, r0, e0);
      }
    }

    method AllocLast(i0: int, i1: int, device: Plan, ghost r0: map<int, Flight>, ghost e0: seq<Event>)
      returns (ok: bool, i2: int)
      requires Sound(2) && 0 <= i0 < NUM && 0 <= i1 < NUM && i0 != i1 && own[i0] == own[i1] == Taken
      requires Onward(r0, e0, reqs, events, {})
      modifies `desc, `free, `own, `sleepers
      modifies `store, `status, `usedRing, `usedRingIdx, `lastAvail, `working, `events, `reqs, `takenN, `usedN
      ensures Onward(r0, e0, reqs, events, {}) && |own| == NUM
      ensures ok <==> FreeCount(old(free), NUM) >= 1
      ensures ok ==>
        Sound(3) && 0 <= i2 < NUM && old(own)[i2] == Idle && own == old(own)[i2 := Taken] && sleepers == old(sleepers)
      ensures !ok ==> Sound(0) && own == old(own)[i0 := Idle][i1 := Idle] && sleepers == {}
      ensures !ok ==> FreeCount(free, NUM) == FreeCount(old(free), NUM) + 2
    {
      i2 := AllocDesc(2);
      ok := i2 >= 0;
      if !ok {
        GiveBack(i0, i1, device(2), r0, e0);
      }
    }

    method GiveBack(i0: int, i1: int, plan: seq<Act>, ghost r0: map<int, Flight>, ghost e0: seq<Event>)
      requires Sound(2) && 0 <= i0 < NUM && 0 <= i1 < NUM && i0 != i1 && own[i0] == own[i1] == Taken
      requires Onward(r0, e0, reqs, events, {})
      modifies `desc, `free, `own, `sleepers
      modifies `store, `status, `usedRing, `usedRingIdx, `lastAvail, `working, `events, `reqs, `takenN, `usedN
      ensures Sound(0) && Onward(r0, e0, reqs, events, {}) && own == old(own)[i0 := Idle][i1 := Idle] && sleepers == {}
      ensures FreeCount(free, NUM) == FreeCount(old(free), NUM) + 2
    {
      var panicked := FreeDesc(i0, 1);
      DeviceRun(plan, 1, r0, e0);
      panicked := FreeDesc(i1, 0);
    }

    /** virtio_disk_rw() up to its wait: the request is formatted and handed to the device, and the head of
        its chain returned, or the process goes to sleep and -1 is returned. */
    method StartRw(p: int, b: int, write: bool, blockno: nat, device: Plan) returns (h: int)
      requires Valid() && NoneHas(reqs, b)
      modifies `desc, `free, `own, `sleepers, `ops, `infoB, `busy, `availRing, `availIdx, `availN
      modifies `store, `status, `usedRing, `usedRingIdx, `lastAvail, `working, `events, `reqs, `takenN, `usedN
      ensures Valid()
      ensures h == -1 <==> FreeCount(old(free), NUM) < 3
      ensures h == -1 ==> Onward(old(reqs), old(events), reqs, events, {}) && busy == old(busy)
      ensures h == -1 ==> p in sleepers && Count(reqs, 4, NUM) == 2
      ensures h != -1 ==> h in reqs && Onward(old(reqs), old(events), reqs - {h}, events, {}) && h !in old(reqs)
      ensures h != -1 ==> reqs[h].req == Request(b, write, blockno * (BSIZE / 512)) && reqs[h].phase.Queued?
      ensures h != -1 ==> reqs[h].from == |old(events)| && busy == old(busy) + {b} && sleepers == old(sleepers)
      ensures h != -1 ==> |status| == NUM && 0 <= h < NUM && status[h] == Preset()
    {
      ghost var r0, e0 := reqs, events;
      NoSleepers();
      var ok, i0, i1, i2 := Alloc3Desc(device);
      if ok {
        h := i0;
        Issue(h, i1, i2, Request(b, write, blockno * (BSIZE / 512)), (i: nat) => device(i + 3), r0, e0);
      } else {
        Sleep(p);
        h := -1;
      }
    }

    /** The request, from three descriptors. */
    method Issue(h: int, i1: int, i2: int, req: Request, device: Plan, ghost r0: map<int, Flight>, ghost e0: seq<Event>)
      requires Sound(3) && Three(own, h, i1, i2) && NoneHas(r0, req.b) && Onward(r0, e0, reqs, events, {})
      requires sleepers == {} && NoneTaken(Freed(own, h, i1, i2, 3))
      modifies `desc, `own, `ops, `infoB, `busy, `availRing, `availIdx, `availN
      modifies `store, `status, `usedRing, `usedRingIdx, `lastAvail, `working, `events, `reqs, `takenN, `usedN
      ensures Valid() && h in reqs && Onward(r0, e0, reqs - {h}, events, {}) && h !in r0
      ensures reqs[h].req == req && reqs[h].phase.Queued? && reqs[h].from == |e0| && busy == old(busy) + {req.b}
      ensures |status| == NUM && 0 <= h < NUM && status[h] == Preset()
    {
      ghost var f := Flight(req, i1, i2, |e0|, Queued(availN));
      Format(h, i1, i2, req, f, device, r0, e0);
      Added(h, f, r0, e0);
      NoneElse(own, h, f);
      Notify(h, f);
    }

    lemma NoSleepers()
      requires Valid()
      ensures FreeCount(free, NUM) >= 3 ==> sleepers == {}
    {
      Open(0);
    }

    method Sleep(p: int)
      requires Sound(0) && NoneTaken(own) && FreeCount(free, NUM) < 3
      modifies `sleepers
      ensures Valid() && p in sleepers && Count(reqs, 4, NUM) == 2
    {
      Open(0);
      sleepers := sleepers + {p};
    }

    /** The request in memory, one write at a time; the device runs after each. */
    method Format(h: int, i1: int, i2: int, req: Request, ghost f: Flight, device: Plan, ghost r0: map<int, Flight>,
                  ghost e0: seq<Event>)
      requires Sound(3) && Three(own, h, i1, i2) && NoneHas(r0, req.b) && Onward(r0, e0, reqs, events, {})
      requires f.req == req && f.second == i1 && f.third == i2
      modifies `desc, `ops, `infoB, `busy, `availRing
      modifies `store, `status, `usedRing, `usedRingIdx, `lastAvail, `working, `events, `reqs, `takenN, `usedN
      ensures Sound(3) && Onward(r0, e0, reqs, events, {}) && busy == old(busy) + {req.b}
      ensures Formatted(desc, ops, infoB, h, f) && InRing(availRing, availN) == h
      ensures |status| == NUM && status[h] == Preset()
    {
      FormatFirst(h, i1, i2, req, device, r0, e0);
      ghost var status1 := status;
      PutDesc(i2, Third(h), device(4), r0, e0);
      ghost var status2 := status;
      PutBusy(h, req.b, device(5), r0, e0);
      ghost var status3 := status;
      PutInfo(h, req.b, device(6), r0, e0);
      ghost var status4 := status;
      PutSlot(h, device(7), r0, e0);
      SparedThen(status1, status2, status3, r0.Keys);
      SparedThen(status3, status4, status, r0.Keys);
      SparedThen(status1, status3, status, r0.Keys);
      SparedAt(status1, status, r0.Keys, h);
    }

    /** What the status byte is before the device has written it: mp2's driver takes a value that is no success. */
    function Preset(): int { if narrow then 0 else 0xff }

    method FormatFirst(h: int, i1: int, i2: int, req: Request, device: Plan, ghost r0: map<int, Flight>,
                       ghost e0: seq<Event>)
      requires Sound(3) && Three(own, h, i1, i2) && NoneHas(r0, req.b) && Onward(r0, e0, reqs, events, {})
      modifies `desc, `ops
      modifies `store, `status, `usedRing, `usedRingIdx, `lastAvail, `working, `events, `reqs, `takenN, `usedN
      ensures Sound(3) && Onward(r0, e0, reqs, events, {}) && ops[h] == Header(req.write, req.sector)
      ensures desc[h] == First(h, i1) && desc[i1] == Second(req, i2)
      ensures h !in r0 && |status| == NUM && status[h] == Preset()
    {
      PutOp(h, Header(req.write, req.sector), device(0), r0, e0);
      PutDesc(h, First(h, i1), device(1), r0, e0);
      PutDesc(i1, Second(req, i2), device(2), r0, e0);
      PutStatus(h, Preset(), req.b, device(3), r0, e0);
    }

    method PutOp(h: int, op: Header, plan: seq<Act>, ghost r0: map<int, Flight>, ghost e0: seq<Event>)
      requires Sound(3) && 0 <= h < NUM && own[h] == Taken && Onward(r0, e0, reqs, events, {})
      modifies `ops
      modifies `store, `status, `usedRing, `usedRingIdx, `lastAvail, `working, `events, `reqs, `takenN, `usedN
      ensures Sound(3) && Onward(r0, e0, reqs, events, {}) && ops == old(ops)[h := op]
    {
      Open(3);
      InfoSet(desc, ops, infoB, free, own, reqs, h, op, infoB[h]);
      assert infoB[h := infoB[h]] == infoB;
      ops := ops[h := op];
      DeviceRun(plan, 3, r0, e0);
    }

    method PutInfo(h: int, b: int, plan: seq<Act>, ghost r0: map<int, Flight>, ghost e0: seq<Event>)
      requires Sound(3) && 0 <= h < NUM && own[h] == Taken && Onward(r0, e0, reqs, events, {})
      modifies `infoB
      modifies `store, `status, `usedRing, `usedRingIdx, `lastAvail, `working, `events, `reqs, `takenN, `usedN
      ensures Sound(3) && Onward(r0, e0, reqs, events, {}) && infoB == old(infoB)[h := b]
      ensures Spared(old(status), status, r0.Keys)
    {
      Open(3);
      InfoSet(desc, ops, infoB, free, own, reqs, h, ops[h], b);
      assert ops[h := ops[h]] == ops;
      infoB := infoB[h := b];
      DeviceRun(plan, 3, r0, e0);
    }

    method PutDesc(i: int, d: Desc, plan: seq<Act>, ghost r0: map<int, Flight>, ghost e0: seq<Event>)
      requires Sound(3) && 0 <= i < NUM && own[i] == Taken && Onward(r0, e0, reqs, events, {})
      modifies `desc
      modifies `store, `status, `usedRing, `usedRingIdx, `lastAvail, `working, `events, `reqs, `takenN, `usedN
      ensures Sound(3) && Onward(r0, e0, reqs, events, {}) && desc == old(desc)[i := d]
      ensures Spared(old(status), status, r0.Keys)
    {
      Open(3);
      RoleAt(desc, ops, infoB, free, own, reqs, i);
      RoleSet(desc, ops, infoB, free, own, reqs, i, d, Taken);
      assert free[i := false] == free && own[i := Taken] == own;
      desc := desc[i := d];
      DeviceRun(plan, 3, r0, e0);
    }

    method PutStatus(h: int, st: int, ghost b: int, plan: seq<Act>, ghost r0: map<int, Flight>, ghost e0: seq<Event>)
      requires Sound(3) && 0 <= h < NUM && own[h] == Taken && NoneHas(r0, b) && Onward(r0, e0, reqs, events, {})
      modifies `store, `status, `usedRing, `usedRingIdx, `lastAvail, `working, `events, `reqs, `takenN, `usedN
      ensures Sound(3) && Onward(r0, e0, reqs, events, {})
      ensures h !in r0 && |status| == NUM && status[h] == st
    {
      Open(3);
      OnwardKeeps(r0, e0, reqs, events, {});
      OnwardKeys(r0, e0, reqs, events, {});
      RoleAt(desc, ops, infoB, free, own, reqs, h);
      assert NoneHas(reqs, b);
      FlightOther(reqs, busy, working, status, b, h, st);
      status := status[h := st];
      ghost var status1 := status;
      DeviceRun(plan, 3, r0, e0);
      SparedAt(status1, status, r0.Keys, h);
    }

    /** `b->disk = 1` */
    method PutBusy(ghost h: int, b: int, plan: seq<Act>, ghost r0: map<int, Flight>, ghost e0: seq<Event>)
      requires Sound(3) && 0 <= h < NUM && own[h] == Taken && NoneHas(r0, b) && Onward(r0, e0, reqs, events, {})
      modifies `busy
      modifies `store, `status, `usedRing, `usedRingIdx, `lastAvail, `working, `events, `reqs, `takenN, `usedN
      ensures Sound(3) && Onward(r0, e0, reqs, events, {}) && busy == old(busy) + {b}
      ensures Spared(old(status), status, r0.Keys)
    {
      Open(3);
      OnwardKeeps(r0, e0, reqs, events, {});
      RoleAt(desc, ops, infoB, free, own, reqs, h);
      assert NoneHas(reqs, b);
      FlightOther(reqs, busy, working, status, b, h, status[h]);
      assert status[h := status[h]] == status;
      busy := busy + {b};
      DeviceRun(plan, 3, r0, e0);
    }

    /** The next entry of the available ring, which the device does not look at yet. */
    method PutSlot(h: int, plan: seq<Act>, ghost r0: map<int, Flight>, ghost e0: seq<Event>)
      requires Sound(3) && Onward(r0, e0, reqs, events, {})
      modifies `availRing
      modifies `store, `status, `usedRing, `usedRingIdx, `lastAvail, `working, `events, `reqs, `takenN, `usedN
      ensures Sound(3) && Onward(r0, e0, reqs, events, {}) && InRing(availRing, availN) == h
      ensures Spared(old(status), status, r0.Keys)
    {
      Open(3);
      TwoAtMost(3);
      Wraps(availN);
      SlotStep(availRing, usedRing, reqs, availN, takenN, usedN, seenN, h);
      availRing := availRing[availIdx % NUM := h];
      DeviceRun(plan, 3, r0, e0);
    }

    /** What the new request adds to the state. */
    lemma Added(h: int, f: Flight, r0: map<int, Flight>, e0: seq<Event>)
      requires Sound(3) && Three(own, h, f.second, f.third) && Formatted(desc, ops, infoB, h, f)
      requires InRing(availRing, availN) == h
      requires f.req.b in busy && NoneHas(r0, f.req.b) && Onward(r0, e0, reqs, events, {}) && f.from == |e0|
      requires f.phase == Queued(availN)
      ensures h !in reqs && h !in r0 && Onward(r0, e0, reqs[h := f] - {h}, events, {})
      ensures Divided(desc, ops, infoB, free, Chain(own, h, f), reqs[h := f])
      ensures Flights(reqs[h := f], busy, working, status)
      ensures Told(start, store, events, reqs[h := f])
      ensures Rings(availRing, usedRing, reqs[h := f], availN + 1, takenN, usedN, seenN)
      ensures Count(reqs[h := f], 4, NUM) == Count(reqs, 4, NUM) + 1 && Parts(3)
      ensures (availIdx + 1) % IDX == (availN + 1) % IDX
    {
      Open(3);
      TwoAtMost(3);
      Wraps(availN);
      OnwardKeeps(r0, e0, reqs, events, {});
      assert NoneHas(reqs, f.req.b);
      Chained(desc, ops, infoB, free, own, reqs, h, f);
      FlightAdded(reqs, busy, working, status, h, f);
      ToldAdded(start, store, events, reqs, h, f);
      QueuedStep(availRing, usedRing, reqs, availN, takenN, usedN, seenN, h, f);
      CountSet(reqs, h, f, 4, NUM);
      assert reqs[h := f] - {h} == reqs;
    }

    /** The index of the available ring moves on: only now the request is there for the device. */
    method Notify(h: int, ghost f: Flight)
      requires Shapes() && Parts(3) && Three(own, h, f.second, f.third) && (availIdx + 1) % IDX == (availN + 1) % IDX
      requires Divided(desc, ops, infoB, free, Chain(own, h, f), reqs[h := f])
      requires Flights(reqs[h := f], busy, working, status)
      requires Told(start, store, events, reqs[h := f])
      requires Rings(availRing, usedRing, reqs[h := f], availN + 1, takenN, usedN, seenN)
      requires Count(reqs[h := f], 4, NUM) == Count(reqs, 4, NUM) + 1 && sleepers == {}
      requires NoneTaken(Chain(own, h, f))
      modifies `own, `availIdx, `reqs, `availN
      ensures Valid() && reqs == old(reqs)[h := f]
    {
      availIdx := (availIdx + 1) % IDX;
      own, reqs, availN := Chain(own, h, f), reqs[h := f], availN + 1;
    }

    /** virtio_disk_rw() after its wait, when `b->disk` is clear: the request has been served as it was asked
        for, and is gone. */
    method FinishRw(h: int, device: Plan)
      requires Valid() && h in reqs && reqs[h].req.b !in busy
      modifies `desc, `free, `own, `sleepers, `infoB
      modifies `store, `status, `usedRing, `usedRingIdx, `lastAvail, `working, `events, `reqs, `takenN, `usedN
      ensures Valid() && Onward(old(reqs) - {h}, old(events), reqs, events, {}) && sleepers == {}
      ensures old(reqs)[h].phase.Seen? && WasServed(start, store, events, old(reqs)[h])
      ensures |infoB| == NUM && 0 <= h < NUM && infoB[h] == 0
    {
      ghost var f, e0, r0, s0 := reqs[h], events, reqs - {h}, store;
      FinishedAt(h);
      Forget(h, f);
      OnwardSame(r0, e0);
      FreeChain(h, f.second, f.third, device, r0, e0);
      Open(0);
      StoreIs(start, store, events, reqs);
      OnwardKeeps(r0, e0, reqs, events, {});
      assert NoneHas(reqs, f.req.b);
      ServedLater(start, s0, e0, store, events, f);
    }

    /** What is left without a request that has been seen. */
    lemma FinishedAt(h: int)
      requires Valid() && h in reqs && reqs[h].req.b !in busy
      ensures Parts(0) && ChainOk(desc, ops, infoB, own, h, reqs[h]) && NoneHas(reqs - {h}, reqs[h].req.b)
      ensures reqs[h].phase.Seen? && WasServed(start, store, events, reqs[h]) && store == After(start, events, |events|)
      ensures Divided(desc, ops, infoB[h := 0], free, Unchain(own, h, reqs[h]), reqs - {h})
      ensures Flights(reqs - {h}, busy, working, status) && Told(start, store, events, reqs - {h})
      ensures Rings(availRing, usedRing, reqs - {h}, availN, takenN, usedN, seenN)
      ensures Count(reqs - {h}, 4, NUM) == Count(reqs, 4, NUM) - 1
    {
      Open(0);
      FlightAt(reqs, busy, working, status, h);
      StoreIs(start, store, events, reqs);
      SeenServed(start, store, events, reqs, h);
      Unchained(desc, ops, infoB, free, own, reqs, h);
      FlightGone(reqs, busy, working, status, h);
      ToldGone(start, store, events, reqs, h);
      GoneStep(availRing, usedRing, reqs, availN, takenN, usedN, seenN, h);
      CountDrop(reqs, h, 4, NUM);
    }

    /** `disk.info[idx[0]].b = 0` */
    method Forget(h: int, ghost f: Flight)
      requires Shapes() && Parts(0) && NoneTaken(own) && ChainOk(desc, ops, infoB, own, h, f) && h in reqs
      requires f == reqs[h]
      requires Divided(desc, ops, infoB[h := 0], free, Unchain(own, h, f), reqs - {h})
      requires Flights(reqs - {h}, busy, working, status) && Told(start, store, events, reqs - {h})
      requires Rings(availRing, usedRing, reqs - {h}, availN, takenN, usedN, seenN)
      requires Count(reqs - {h}, 4, NUM) == Count(reqs, 4, NUM) - 1
      modifies `own, `infoB, `reqs
      ensures Sound(3) && own == Unchain(old(own), h, f) && reqs == old(reqs) - {h}
      ensures |infoB| == NUM && 0 <= h < NUM && infoB[h] == 0
    {
      infoB := infoB[h := 0];
      own, reqs := Unchain(own, h, f), reqs - {h};
    }

    /** free_chain() */
    method FreeChain(h: int, ghost second: int, ghost third: int, device: Plan, ghost r0: map<int, Flight>,
                     ghost e0: seq<Event>)
      requires Sound(3) && Three(own, h, second, third) && Onward(r0, e0, reqs, events, {})
      requires desc[h].chained && desc[h].next == second && desc[second].chained && desc[second].next == third
      requires !desc[third].chained
      modifies `desc, `free, `own, `sleepers
      modifies `store, `status, `usedRing, `usedRingIdx, `lastAvail, `working, `events, `reqs, `takenN, `usedN
      ensures Sound(0) && own == old(own)[h := Idle][second := Idle][third := Idle] && sleepers == {}
      ensures Onward(r0, e0, reqs, events, {})
    {
      var i, more := h, true;
      ghost var k := 0;
      while more
        invariant 0 <= k <= 3 && Sound(3 - k) && Onward(r0, e0, reqs, events, {}) && more == (k < 3)
        invariant Breaking(old(own), old(desc), own, desc, h, second, third, i, k) && (k > 0 ==> sleepers == {})
        decreases 3 - k
      {
        ghost var own1, desc1, i1 := own, desc, i;
        BreakingAt(old(own), old(desc), own, desc, h, second, third, i, k);
        var nxt;
        more, nxt := FreeOne(i, 2 - k);
        BreakingOn(old(own), old(desc), own1, desc1, own, desc, h, second, third, i1, nxt, k);
        if more {
          i := nxt;
          DeviceRun(device(i), 2 - k, r0, e0);
        }
        k := k + 1;
      }
      BreakingAt(old(own), old(desc), own, desc, h, second, third, i, k);
    }

    /** One turn of free_chain(): mp4's driver reads the descriptor after it is freed, mp2's before. */
    method FreeOne(i: int, ghost taken: nat) returns (flag: bool, nxt: int)
      requires Sound(taken + 1) && 0 <= i < NUM && own[i] == Taken
      modifies `desc, `free, `own, `sleepers
      ensures Sound(taken) && own == old(own)[i := Idle] && sleepers == {}
      ensures desc == old(desc)[i := Cleared(old(desc)[i])] && flag == old(desc)[i].chained && nxt == old(desc)[i].next
    {
      flag, nxt := desc[i].chained, desc[i].next;
      var panicked := FreeDesc(i, taken);
      if narrow {
        flag, nxt := desc[i].chained, desc[i].next;
      }
    }

    /** The owner of a buffer that is in no request fills it. */
    method Fill(b: int, data: Bytes)
      requires Valid() && NoneHas(reqs, b)
      modifies `store, `events
      ensures Valid() && events == old(events) + [Filled(b, data)] && store == Apply(old(store), Filled(b, data))
    {
      Open(0);
      ToldFilled(start, store, events, reqs, b, data);
      store, events := store.(bufs := store.bufs[b := data]), events + [Filled(b, data)];
    }

    // -------------------------------------------------------------- the interrupt handler

    /** virtio_disk_intr(), with mp2's test for new entries or mp4's, while the device goes on.  It ends, with
        nothing in the used ring that it has not seen; each request that is done is reported once, in the
        order of the ring; and it panics just if it comes to one that has failed. */
    method Intr(device: nat -> Plan) returns (panicked: bool, ghost reports: seq<int>)
      requires Valid()
      modifies `busy, `usedIdx, `seenN
      modifies `store, `status, `usedRing, `usedRingIdx, `lastAvail, `working, `events, `reqs, `takenN, `usedN
      ensures Valid() && Onward(old(reqs), old(events), reqs, events, Members(reports)) && Distinct(reports)
      ensures seenN == old(seenN) + |reports| && busy == old(busy) - Buffers(old(reqs), reports)
      ensures !panicked ==>
        seenN == usedN && forall h {:trigger reqs[h]} {:trigger h in reqs} | h in reqs :: !reqs[h].phase.Done?
      ensures panicked <==> exists h :: h in reqs && reqs[h].phase.Done? && !reqs[h].phase.ok
    {
      panicked, reports := false, [];
      OnwardSame(reqs, events);
      assert Members(reports) == {};
      var turn := 0;
      DeviceRun(device(0)(0), 0, reqs, events);
      TestExact(0);
      while if narrow then usedIdx % NUM != usedRingIdx % NUM else usedIdx != usedRingIdx
        invariant Valid() && Onward(old(reqs), old(events), reqs, events, Members(reports)) && Distinct(reports)
        invariant seenN == old(seenN) + |reports| && busy == old(busy) - Buffers(old(reqs), reports)
        invariant (if narrow then usedIdx % NUM != usedRingIdx % NUM else usedIdx != usedRingIdx) <==> seenN < usedN
        decreases old(reqs).Keys - Members(reports)
      {
        turn := turn + 1;
        panicked, reports := Turn(device(turn), reports, old(reqs), old(events), old(busy));
        if panicked {
          return;
        }
        TestExact(0);
      }
      Open(0);
      TwoAtMost(0);
      NoneDone(availRing, usedRing, reqs, availN, takenN, usedN);
    }

    method Turn(device: Plan, ghost reports: seq<int>, ghost r0: map<int, Flight>, ghost e0: seq<Event>,
                ghost busy0: set<int>)
      returns (panicked: bool, ghost reports': seq<int>)
      requires Valid() && seenN < usedN && Onward(r0, e0, reqs, events, Members(reports)) && Distinct(reports)
      requires busy == busy0 - Buffers(r0, reports)
      modifies `busy, `usedIdx, `seenN
      modifies `store, `status, `usedRing, `usedRingIdx, `lastAvail, `working, `events, `reqs, `takenN, `usedN
      ensures Valid() && Onward(r0, e0, reqs, events, Members(reports')) && Distinct(reports')
      ensures busy == busy0 - Buffers(r0, reports') && seenN == old(seenN) + |reports'| - |reports|
      ensures panicked ==> exists h :: h in reqs && reqs[h].phase.Done? && !reqs[h].phase.ok
      ensures !panicked ==> r0.Keys - Members(reports') < r0.Keys - Members(reports)
    {
      ghost var reqs1, events1 := reqs, events;
      var id;
      id, panicked := See(device);
      if panicked {
        OnwardTrans(r0, e0, reqs1, events1, reqs, events, Members(reports), {});
        assert Members(reports) + {} == Members(reports);
        reports' := reports;
      } else {
        ReportMore(r0, e0, reqs1, events1, reqs, events, reports, id);
        reports' := reports + [id];
      }
    }

    /** One turn of the loop in virtio_disk_intr(); the device runs between its reads and after it. */
    method See(device: Plan) returns (id: int, panicked: bool)
      requires Valid() && seenN < usedN
      modifies `busy, `usedIdx, `seenN
      modifies `store, `status, `usedRing, `usedRingIdx, `lastAvail, `working, `events, `reqs, `takenN, `usedN
      ensures Valid() && Reported(old(reqs), id, old(seenN)) && panicked == !old(reqs)[id].phase.ok
      ensures panicked ==> Onward(old(reqs), old(events), reqs, events, {}) && seenN == old(seenN) && busy == old(busy)
      ensures panicked ==> Reported(reqs, id, seenN) && !reqs[id].phase.ok
      ensures !panicked ==> Onward(old(reqs), old(events), reqs, events, {id}) && seenN == old(seenN) + 1
      ensures !panicked ==> busy == old(busy) - {old(reqs)[id].req.b}
    {
      ghost var r0, e0 := reqs, events;
      OnwardSame(r0, e0);
      id := usedRing[usedIdx % NUM];
      EntryAt(id);
      DeviceRun(device(1), 0, r0, e0);
      OnwardKeeps(r0, e0, reqs, events, {});
      assert Ahead(r0[id], reqs[id], false);
      InfoAt(id);
      panicked := status[id] != 0;
      if !panicked {
        Release(id, device, r0, e0);
      }
    }

    /** The request is good: its owner is told. */
    method Release(id: int, device: Plan, ghost r0: map<int, Flight>, ghost e0: seq<Event>)
      requires Valid() && seenN < usedN && Onward(r0, e0, reqs, events, {})
      requires id in r0 && Reported(reqs, id, seenN) && reqs[id].phase.ok
      modifies `busy, `usedIdx, `seenN
      modifies `store, `status, `usedRing, `usedRingIdx, `lastAvail, `working, `events, `reqs, `takenN, `usedN
      ensures Valid() && Onward(r0, e0, reqs, events, {id}) && seenN == old(seenN) + 1
      ensures busy == old(busy) - {r0[id].req.b}
    {
      ghost var r1, e1 := reqs, events;
      OnwardKeeps(r0, e0, r1, e1, {});
      assert Ahead(r0[id], r1[id], false);
      OnwardSame(r1, e1);
      DeviceRun(device(2), 0, r0, e0);
      OnwardKeeps(r1, e1, reqs, events, {});
      assert Ahead(r1[id], reqs[id], false);
      CheckOff(id, device(3), r0, e0);
    }

    /** The entry that the driver reads next. */
    lemma EntryAt(id: int)
      requires Valid() && seenN < usedN && id == usedRing[usedIdx % NUM]
      ensures Reported(reqs, id, seenN)
    {
      Open(0);
      Wraps(seenN);
      ReportedAt(availRing, usedRing, reqs, availN, takenN, usedN, seenN);
    }

    lemma InfoAt(id: int)
      requires Valid() && id in reqs && reqs[id].phase.Done?
      ensures 0 <= id < NUM && (status[id] == 0 <==> reqs[id].phase.ok) && infoB[id] == reqs[id].req.b
    {
      Open(0);
      FlightAt(reqs, busy, working, status, id);
      ChainAt(desc, ops, infoB, free, own, reqs, id);
    }

    /** `b->disk = 0`, and the step of used_idx.  The device reads neither. */
    method CheckOff(id: int, plan: seq<Act>, ghost r0: map<int, Flight>, ghost e0: seq<Event>)
      requires Valid() && Reported(reqs, id, seenN) && reqs[id].phase.ok && seenN < usedN
      requires Onward(r0, e0, reqs, events, {})
      modifies `busy, `usedIdx, `seenN
      modifies `store, `status, `usedRing, `usedRingIdx, `lastAvail, `working, `events, `reqs, `takenN, `usedN
      ensures Valid() && Onward(r0, e0, reqs, events, {id}) && seenN == old(seenN) + 1
      ensures busy == old(busy) - {old(reqs)[id].req.b}
    {
      SeenAt(id);
      OnwardThen(r0, e0, reqs, events, reqs[id := reqs[id].(phase := Seen(reqs[id].phase.at))], events, {id});
      Tick(id);
      ghost var reqs1, events1 := reqs, events;
      OnwardSame(reqs, events);
      DeviceRun(plan, 0, reqs, events);
      OnwardTrans(r0, e0, reqs1, events1, reqs, events, {id}, {});
      assert {id} + {} == {id};
    }

    method Tick(id: int)
      requires Shapes() && 0 <= id < NUM && id in reqs && reqs[id].phase.Done? && infoB[id] == reqs[id].req.b
      requires NoneTaken(own) && (sleepers != {} ==> Count(reqs, 4, NUM) == 2) && SeenSound(id)
      modifies `busy, `usedIdx, `seenN, `reqs
      ensures Valid() && reqs == old(reqs)[id := old(reqs)[id].(phase := Seen(old(reqs)[id].phase.at))]
      ensures seenN == old(seenN) + 1 && busy == old(busy) - {old(reqs)[id].req.b}
    {
      busy := busy - {infoB[id]};
      usedIdx := (usedIdx + 1) % (if narrow then NUM else IDX);
      reqs, seenN := reqs[id := reqs[id].(phase := Seen(reqs[id].phase.at))], seenN + 1;
    }

    /** What holds once the driver has seen the entry of id. */
    ghost predicate SeenSound(id: int)
      requires Shapes() && id in reqs && reqs[id].phase.Done?
      reads this
    {
      var reqs' := reqs[id := reqs[id].(phase := Seen(reqs[id].phase.at))];
      && Parts(0) && (usedIdx + 1) % (if narrow then NUM else IDX) == (seenN + 1) % (if narrow then NUM else IDX)
      && Divided(desc, ops, infoB, free, own, reqs') && Flights(reqs', busy - {reqs[id].req.b}, working, status)
      && Told(start, store, events, reqs') && Rings(availRing, usedRing, reqs', availN, takenN, usedN, seenN + 1)
      && Count(reqs', 4, NUM) == Count(reqs, 4, NUM)
    }

    lemma SeenAt(id: int)
      requires Valid() && Reported(reqs, id, seenN) && reqs[id].phase.ok && seenN < usedN
      ensures 0 <= id < NUM && infoB[id] == reqs[id].req.b && SeenSound(id)
      ensures Onward(reqs, events, reqs[id := reqs[id].(phase := Seen(reqs[id].phase.at))], events, {id})
    {
      ghost var f := reqs[id].(phase := Seen(reqs[id].phase.at));
      Open(0);
      Wraps(seenN);
      InfoAt(id);
      UsedAt(availRing, usedRing, reqs, availN, takenN, usedN, seenN, id);
      SeenStep(availRing, usedRing, reqs, availN, takenN, usedN, seenN, id, f.phase.at);
      Moved(desc, ops, infoB, free, own, reqs, id, f.phase);
      FlightAt(reqs, busy, working, status, id);
      FlightMoved(reqs, busy, working, status, id, f.phase, busy - {f.req.b}, working, 0);
      TellAt(start, store, events, reqs, id);
      ToldAdded(start, store, events, reqs, id, f);
      CountSet(reqs, id, f, 4, NUM);
      OnwardMoved(reqs, events, id, f);
    }
  }
}
