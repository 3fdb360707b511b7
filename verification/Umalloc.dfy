/** The user-level allocator over its free list.  Addresses and sizes are in units of a Header. */
module Umalloc {
  import opened Basics
  import opened FreeList

  const HEADER := 16
  const MIN_UNITS := 4096

  /** The units malloc() needs for nbytes: the payload rounded up, and one header. */
  function Units(nbytes: nat): (n: nat)
    ensures n > 0 && (n - 1) * HEADER >= nbytes && (n - 2) * HEADER < nbytes
  {
    (nbytes + HEADER - 1) / HEADER + 1
  }

  /** sbrk() takes a C int: the low 32 bits of its argument, as a signed number. */
  function ToInt32(x: nat): int {
    var low := x % 0x1_0000_0000;
    if low < 0x8000_0000 then low else low - 0x1_0000_0000
  }

  /** The area sbrk() is asked for is the area the new header claims, exactly below 2^27 units. */
  lemma RequestedArea(nbytes: nat)
    requires nbytes < 0x1_0000_0000
    ensures var nu := if Units(nbytes) < MIN_UNITS then MIN_UNITS else Units(nbytes);
            ToInt32(nu * HEADER) == nu * HEADER <==> nbytes <= 0x7fff_ffe0
  {
    var nu := if Units(nbytes) < MIN_UNITS then MIN_UNITS else Units(nbytes);
    assert nu <= 0x1000_0001;
    assert nu < 0x800_0000 <==> nbytes <= 0x7fff_ffe0;
  }

  // ---------------------------------------------------------------- what sbrk() has given

  /** A call of sbrk(), and its answer: the address of the area, or -1. */
  datatype Call = Call(bytes: int, p: int)

  /** The units of all areas that have been granted. */
  ghost function Got(calls: seq<Call>): set<int> {
    if calls == [] then {}
    else
      Got(calls[..|calls| - 1]) + AreaOf(calls[|calls| - 1])
  }

  function AreaOf(c: Call): set<int> {
    if c.p == -1 || c.bytes < 0 then {} else Area(c.p, c.bytes / HEADER)
  }

  lemma GotMore(obtained: set<int>, calls: seq<Call>, c: Call)
    requires Accounted(obtained, calls)
    ensures Accounted(obtained + AreaOf(c), calls + [c])
  {
    assert (calls + [c])[..|calls|] == calls;
    assert Key(0, calls);
  }

  /** The units obtained are those of the areas granted. */
  ghost predicate Accounted(obtained: set<int>, calls: seq<Call>) {
    forall k {:trigger Key(k, calls)} | Key(k, calls) :: obtained == Got(calls)
  }

  /** There has been one call more, for at least n units, and no less than MIN_UNITS. */
  ghost predicate Asked(calls: seq<Call>, calls': seq<Call>, n: nat) {
    |calls'| > 0 && calls' == calls + [Call(ToInt32(Max(MIN_UNITS, n) * HEADER), calls'[|calls'| - 1].p)]
  }

  ghost predicate Refused(calls: seq<Call>) { |calls| > 0 && calls[|calls| - 1].p == -1 }

  // ---------------------------------------------------------------- who owns which unit

  ghost predicate InLive(live: map<int, int>, u: int) {
    exists p :: Covers(live, p, u)
  }

  ghost predicate Covers(live: map<int, int>, p: int, u: int) {
    p in live && p <= u < p + live[p]
  }

  /** Free and allocated blocks partition the units obtained from sbrk(). */
  ghost predicate Owned(h: Headers, ring: seq<int>, live: map<int, int>, obtained: set<int>) {
    && (forall u :: u in obtained <==> InFree(h, ring, u) || InLive(live, u))
    && (forall u :: !(InFree(h, ring, u) && InLive(live, u)))
    && (forall p, q {:trigger p in live, q in live} | p in live && q in live && p < q :: p + live[p] <= q)
    && (forall p {:trigger p in live} | p in live :: p in h.size && h.size[p] == live[p] > 0)
  }

  lemma LiveIsNotFree(h: Headers, ring: seq<int>, live: map<int, int>, obtained: set<int>, p: int, i: nat)
    requires Owned(h, ring, live, obtained) && p in live && i < |ring| && ring[i] in h.size && h.size[ring[i]] > 0
    ensures p + live[p] <= ring[i] || ring[i] + h.size[ring[i]] <= p
  {
    var u := if p < ring[i] then ring[i] else p;
    if ring[i] < p + live[p] && p < ring[i] + h.size[ring[i]] {
      assert Holds(h, ring, i, u) && Covers(live, p, u);
      assert InFree(h, ring, u) && InLive(live, u);
      assert false;
    }
  }

  /** The gap free() finds for an allocated block is wide enough for it. */
  lemma LiveFits(h: Headers, base: int, ring: seq<int>, live: map<int, int>, obtained: set<int>, bp: int, t: nat)
    requires Cycle(h, base, ring) && Owned(h, ring, live, obtained) && bp in live && Slot(ring, bp, t)
    ensures CanLink(h, base, ring, bp, t)
  {
    if t > 0 {
      LiveIsNotFree(h, ring, live, obtained, bp, t);
    }
    if t + 1 < |ring| {
      LiveIsNotFree(h, ring, live, obtained, bp, t + 1);
    }
    assert h.ptr[ring[t]] == ring[Next(t, |ring|)];
  }

  lemma NotInRing(h: Headers, base: int, ring: seq<int>, live: map<int, int>, obtained: set<int>, bp: int)
    requires Cycle(h, base, ring) && Owned(h, ring, live, obtained) && bp in live && base < bp
    ensures bp !in ring
  {
    forall i | 0 <= i < |ring| ensures ring[i] != bp {
      if i > 0 {
        LiveIsNotFree(h, ring, live, obtained, bp, i);
      }
    }
  }

  /** A unit of an allocated block, behind its header, is no header of any block. */
  lemma StoreKeeps(h: Headers, base: int, ring: seq<int>, live: map<int, int>, obtained: set<int>, bp: int, u: int,
                   x: int, y: int)
    requires Cycle(h, base, ring) && Owned(h, ring, live, obtained) && bp in live && base < bp < u < bp + live[bp]
    ensures var h' := Headers(h.ptr[u := x], h.size[u := y]); Cycle(h', base, ring) && Owned(h', ring, live, obtained)
  {
    var h' := Headers(h.ptr[u := x], h.size[u := y]);
    forall i | 0 <= i < |ring| ensures ring[i] != u {
      if i > 0 {
        LiveIsNotFree(h, ring, live, obtained, bp, i);
      }
    }
    forall p {:trigger p in live} | p in live ensures p != u {
      assert bp in live;
    }
    forall v ensures InFree(h', ring, v) == InFree(h, ring, v) {
      forall i ensures Holds(h', ring, i, v) == Holds(h, ring, i, v) {}
    }
  }

  lemma FreeOwned(h: Headers, base: int, ring: seq<int>, live: map<int, int>, obtained: set<int>, bp: int, t: nat)
    requires CanLink(h, base, ring, bp, t) && Owned(h, ring, live, obtained) && bp in live && base !in live
    ensures var h', ring' := Link(h, ring[t], bp), LinkRing(h, ring, bp, t);
            Cycle(h', base, ring') && Owned(h', ring', live - {bp}, obtained)
  {
    LinkCycle(h, base, ring, bp, t);
    var h', ring', live' := Link(h, ring[t], bp), LinkRing(h, ring, bp, t), live - {bp};
    forall u ensures InFree(h', ring', u) <==> InFree(h, ring, u) || bp <= u < bp + h.size[bp] {
      LinkUnits(h, base, ring, bp, t, u);
    }
    forall u ensures InLive(live', u) <==> InLive(live, u) && !(bp <= u < bp + h.size[bp]) {
      Removed(live, bp, u);
    }
    forall p {:trigger p in live'} | p in live' ensures p in h'.size && h'.size[p] == live'[p] > 0 {
      assert p in live;
      if t > 0 {
        LiveIsNotFree(h, ring, live, obtained, p, t);
      }
    }
    forall u ensures u in obtained <==> InFree(h', ring', u) || InLive(live', u) {
      assert bp <= u < bp + h.size[bp] ==> Covers(live, bp, u);
    }
  }

  lemma Removed(live: map<int, int>, bp: int, u: int)
    requires bp in live
    requires forall p, q {:trigger p in live, q in live} | p in live && q in live && p < q :: p + live[p] <= q
    ensures InLive(live - {bp}, u) <==> InLive(live, u) && !(bp <= u < bp + live[bp])
  {
    var live' := live - {bp};
    if p :| Covers(live, p, u) && !(bp <= u < bp + live[bp]) {
      assert Covers(live', p, u);
    }
    if p :| Covers(live', p, u) {
      assert Covers(live, p, u);
    }
  }

  lemma Added(live: map<int, int>, bp: int, n: int, u: int)
    requires bp !in live
    ensures InLive(live[bp := n], u) <==> InLive(live, u) || bp <= u < bp + n
  {
    var live' := live[bp := n];
    if p :| Covers(live, p, u) {
      assert Covers(live', p, u);
    }
    if p :| Covers(live', p, u) {
      assert p != bp ==> Covers(live, p, u);
    }
    assert bp <= u < bp + n ==> Covers(live', bp, u);
  }

  /** Block bp of n units leaves the free units and becomes an allocated block. */
  lemma AllocOwned(h: Headers, ring: seq<int>, h': Headers, ring': seq<int>, live: map<int, int>, obtained: set<int>,
                   bp: int, n: int)
    requires Owned(h, ring, live, obtained) && 0 < n
    requires forall u :: InFree(h', ring', u) <==> InFree(h, ring, u) && !(bp <= u < bp + n)
    requires forall u | bp <= u < bp + n :: InFree(h, ring, u)
    requires bp in h'.size && h'.size[bp] == n
    requires forall p | p in live && p != bp :: p in h'.size && h'.size[p] == h.size[p]
    ensures bp !in live && Owned(h', ring', live[bp := n], obtained)
  {
    FreeIsNotLive(h, ring, live, obtained, bp, n);
    var live' := live[bp := n];
    forall u ensures InLive(live', u) <==> InLive(live, u) || bp <= u < bp + n {
      Added(live, bp, n, u);
    }
    forall p, q {:trigger p in live', q in live'} | p in live' && q in live' && p < q ensures p + live'[p] <= q {
      assert p == bp || p in live;
      assert q == bp || q in live;
    }
  }

  lemma FreeIsNotLive(h: Headers, ring: seq<int>, live: map<int, int>, obtained: set<int>, bp: int, n: int)
    requires Owned(h, ring, live, obtained) && 0 < n
    requires forall u | bp <= u < bp + n :: InFree(h, ring, u)
    ensures bp !in live && forall p | p in live :: p + live[p] <= bp || bp + n <= p
  {
    forall p | p in live ensures p + live[p] <= bp || bp + n <= p {
      var u := if p < bp then bp else p;
      assert u < p + live[p] ==> Covers(live, p, u) && InLive(live, u);
      assert u < bp + n ==> InFree(h, ring, u);
    }
  }

  lemma RemoveOwned(h: Headers, base: int, ring: seq<int>, live: map<int, int>, obtained: set<int>, i: nat)
    requires Cycle(h, base, ring) && Owned(h, ring, live, obtained) && 0 < i < |ring|
    ensures var h', ring' := h.(ptr := h.ptr[ring[i - 1] := h.ptr[ring[i]]]), ring[..i] + ring[i + 1..];
            Cycle(h', base, ring') && ring[i] !in live && Owned(h', ring', live[ring[i] := h.size[ring[i]]], obtained)
  {
    RemoveCycle(h, base, ring, i);
    var h', ring' := h.(ptr := h.ptr[ring[i - 1] := h.ptr[ring[i]]]), ring[..i] + ring[i + 1..];
    var bp, n := ring[i], h.size[ring[i]];
    forall u ensures InFree(h', ring', u) <==> InFree(h, ring, u) && !(bp <= u < bp + n) {
      RemoveUnits(h, h', ring, i, u);
    }
    forall u | bp <= u < bp + n ensures InFree(h, ring, u) {
      assert Holds(h, ring, i, u);
    }
    AllocOwned(h, ring, h', ring', live, obtained, bp, n);
  }

  lemma CutOwned(h: Headers, base: int, ring: seq<int>, live: map<int, int>, obtained: set<int>, i: nat, n: int)
    requires Cycle(h, base, ring) && Owned(h, ring, live, obtained) && 0 < i < |ring| && 0 < n < h.size[ring[i]]
    ensures var rest := h.size[ring[i]] - n;
            var h' := h.(size := h.size[ring[i] := rest][ring[i] + rest := n]);
            Cycle(h', base, ring) && ring[i] + rest !in live && Owned(h', ring, live[ring[i] + rest := n], obtained)
  {
    CutCycle(h, base, ring, i, n);
    var rest := h.size[ring[i]] - n;
    var bp := ring[i] + rest;
    var h' := h.(size := h.size[ring[i] := rest][bp := n]);
    forall u ensures InFree(h', ring, u) <==> InFree(h, ring, u) && !(bp <= u < bp + n) {
      CutUnits(h, base, ring, i, n, u);
    }
    forall u | ring[i] <= u < bp + n ensures InFree(h, ring, u) {
      assert Holds(h, ring, i, u);
    }
    FreeIsNotLive(h, ring, live, obtained, ring[i], h.size[ring[i]]);
    AllocOwned(h, ring, h', ring, live, obtained, bp, n);
  }

  function Area(p: int, n: nat): (a: set<int>)
    ensures forall u :: u in a <==> p <= u < p + n
  {
    if n == 0 then {} else Area(p, n - 1) + {p + n - 1}
  }

  /** An area above everything obtained so far, with its header written, is one more block. */
  lemma GrowOwned(h: Headers, base: int, ring: seq<int>, live: map<int, int>, obtained: set<int>, p: int, n: int)
    requires Cycle(h, base, ring) && Owned(h, ring, live, obtained) && 0 < n && base < p
    requires forall u | u in obtained :: u < p
    ensures var h' := h.(size := h.size[p := n]);
            Cycle(h', base, ring) && p !in live && Owned(h', ring, live[p := n], obtained + Area(p, n))
  {
    var h', live' := h.(size := h.size[p := n]), live[p := n];
    forall q | q in live ensures q + live[q] <= p {
      assert Covers(live, q, q + live[q] - 1) && InLive(live, q + live[q] - 1);
    }
    forall i | 0 <= i < |ring| ensures ring[i] < p {
      assert i > 0 ==> Holds(h, ring, i, ring[i]) && InFree(h, ring, ring[i]);
    }
    forall u ensures InLive(live', u) <==> InLive(live, u) || p <= u < p + n {
      Added(live, p, n, u);
    }
    forall u ensures InFree(h', ring, u) <==> InFree(h, ring, u) {
      if i :| Holds(h, ring, i, u) { assert Holds(h', ring, i, u); }
      if i :| Holds(h', ring, i, u) { assert Holds(h, ring, i, u); }
    }
    assert forall u | p <= u :: !InFree(h, ring, u) && !InLive(live, u) by {
      assert forall u | p <= u :: u !in obtained;
    }
  }

  /** How far round a cycle of k blocks j is from f. */
  function Round(f: nat, j: nat, k: nat): int { if f <= j then j - f else j - f + k }

  /** No block after f, up to and including j, has n units. */
  ghost predicate TooSmall(h: Headers, ring: seq<int>, f: nat, j: nat, n: int) {
    forall m | 0 <= m < |ring| && 0 < Round(f, m, |ring|) <= Round(f, j, |ring|) ::
      ring[m] in h.size && h.size[ring[m]] < n
  }

  ghost predicate NoneFits(h: Headers, ring: seq<int>, n: int) {
    forall m | 0 <= m < |ring| :: ring[m] in h.size && h.size[ring[m]] < n
  }

  /** Block bp is the tail of the first block after freep that has n units. */
  ghost predicate FirstFit(h: Headers, ring: seq<int>, freep: int, n: int, bp: int) {
    exists f, j {:trigger TooSmall(h, ring, f, j, n)} :: 0 <= f < |ring| && ring[f] == freep && 0 <= j < |ring| - 1
      && TooSmall(h, ring, f, j, n) && ring[j + 1] in h.size && h.size[ring[j + 1]] >= n
        && bp == ring[j + 1] + h.size[ring[j + 1]] - n
  }

  /** Of the free list beside these allocated blocks, block bp is the tail of a first fit. */
  ghost predicate Found(base: int, live: map<int, int>, obtained: set<int>, n: int, bp: int) {
    exists h, ring, freep {:trigger FirstFit(h, ring, freep, n, bp)} ::
      Cycle(h, base, ring) && Owned(h, ring, live, obtained) && freep in ring && FirstFit(h, ring, freep, n, bp)
  }

  lemma FitFound(h: Headers, base: int, ring: seq<int>, f: nat, j: nat, n: int)
    requires Cycle(h, base, ring) && f < |ring| && j < |ring| && 0 < n && TooSmall(h, ring, f, j, n)
    requires h.size[ring[Next(j, |ring|)]] >= n
    ensures j + 1 < |ring| && FirstFit(h, ring, ring[f], n, ring[j + 1] + h.size[ring[j + 1]] - n)
  {}

  /** The search has come round to where it began. */
  lemma WentRound(h: Headers, ring: seq<int>, f: nat, j: nat, n: int)
    requires forall i | 0 <= i < |ring| :: ring[i] in h.size
    requires f < |ring| && j < |ring| && TooSmall(h, ring, f, j, n)
    requires h.size[ring[Next(j, |ring|)]] < n
    ensures Next(j, |ring|) != f ==> TooSmall(h, ring, f, Next(j, |ring|), n)
    ensures Next(j, |ring|) != f ==> Round(f, Next(j, |ring|), |ring|) == Round(f, j, |ring|) + 1
    ensures Next(j, |ring|) == f ==> NoneFits(h, ring, n)
  {}

  /** The block of n units at p lies inside one free block. */
  ghost predicate Inside(h: Headers, ring: seq<int>, p: int, n: int) {
    exists i :: Holds(h, ring, i, p) && p + n <= ring[i] + h.size[ring[i]]
  }

  lemma LinkInside(h: Headers, base: int, ring: seq<int>, bp: int, t: nat)
    requires CanLink(h, base, ring, bp, t)
    ensures Inside(Link(h, ring[t], bp), LinkRing(h, ring, bp, t), bp, h.size[bp])
  {
    var h', ring' := Link(h, ring[t], bp), LinkRing(h, ring, bp, t);
    Ascending(h, base, ring);
    if JoinsPrev(h, ring, bp, t) {
      assert ring'[t] == ring[t] && Holds(h', ring', t, bp);
    } else {
      assert ring'[t + 1] == bp && Holds(h', ring', t + 1, bp);
    }
  }

  ghost function IndexIn(ring: seq<int>, x: int): (i: nat)
    requires x in ring
    ensures i < |ring| && ring[i] == x
  {
    var i :| 0 <= i < |ring| && ring[i] == x;
    i
  }

  lemma Linked(h: Headers, base: int, ring: seq<int>, i: nat)
    requires Cycle(h, base, ring) && i < |ring|
    ensures ring[i] in h.ptr && h.ptr[ring[i]] == ring[Next(i, |ring|)]
    ensures forall m | 0 <= m < |ring| :: ring[m] in h.size && ring[m] in h.ptr
  {}


  class Heap {
    const base: int
    var ptr: map<int, int>
    var size: map<int, int>
    var freep: int
    var brk: int
    ghost var ring: seq<int>
    ghost var live: map<int, int>
    ghost var obtained: set<int>
    ghost var calls: seq<Call>

    ghost function Mem(): Headers reads this { Headers(ptr, size) }

    /** The free list is a sorted, coalesced cycle through base and freep, and with the allocated
        blocks it partitions the units obtained, which are all that sbrk() has granted; before the first call
        there is nothing at all. */
    ghost predicate Valid() reads this {
      && 0 < base < brk
      && (if freep == 0 then ring == [] && live == map[] && obtained == {} else
          freep in ring && forall k {:trigger Key(k, ring)} | Key(k, ring) ::
            Cycle(Mem(), base, ring) && Owned(Mem(), ring, live, obtained))
      && (forall u | u in obtained :: base < u < brk) && Accounted(obtained, calls)
    }

    lemma Open()
      requires Valid() && freep != 0
      ensures Cycle(Mem(), base, ring) && Owned(Mem(), ring, live, obtained)
    {
      assert Key(0, ring);
    }

    constructor (base: int, brk: int)
      requires 0 < base < brk
      ensures Valid() && live == map[] && obtained == {} && calls == []
    {
      this.base, this.brk, freep, ptr, size := base, brk, 0, map[], map[];
      ring, live, obtained, calls := [], map[], {}, [];
    }

    lemma LiveAboveBase(p: int)
      requires Valid() && p in live
      ensures freep != 0 && base < p
    {
      Open();
      assert Covers(live, p, p) && InLive(live, p);
    }

    /** The loop of free(): the block of the list behind which bp belongs. */
    method FindGap(bp: int) returns (p: int, ghost i: nat)
      requires Cycle(Mem(), base, ring) && freep in ring && base < bp && bp !in ring
      ensures Slot(ring, bp, i) && p == ring[i]
    {
      Ascending(Mem(), base, ring);
      ghost var k := |ring|;
      ghost var t := SlotExists(ring, bp, k);
      p := freep;
      i := IndexIn(ring, freep);
      while !(bp > p && bp < ptr[p])
        invariant 0 <= i < k && p == ring[i]
        decreases Round(i, t, k)
      {
        assert ptr[ring[i]] == ring[Next(i, k)];
        if p >= ptr[p] && (bp > p || bp < ptr[p]) {
          break;
        }
        p := ptr[p];
        i := Next(i, k);
      }
      assert ptr[ring[i]] == ring[Next(i, k)];
    }

    /** The client writes to a unit of a block that it has. */
    method Store(ap: int, u: int, x: int, y: int)
      requires Valid() && ap - 1 in live && ap <= u < ap - 1 + live[ap - 1]
      modifies `ptr, `size
      ensures Valid() && ptr == old(ptr)[u := x] && size == old(size)[u := y]
    {
      LiveAboveBase(ap - 1);
      Open();
      StoreKeeps(Mem(), base, ring, live, obtained, ap - 1, u, x, y);
      ptr, size := ptr[u := x], size[u := y];
      assert Mem() == old(Headers(ptr[u := x], size[u := y]));
    }

    method Free(ap: int)
      requires Valid() && ap - 1 in live
      modifies `ptr, `size, `freep, `ring, `live
      ensures Valid() && freep != 0 && live == old(live) - {ap - 1}
      ensures Inside(Mem(), ring, ap - 1, old(live[ap - 1]))
    {
      var bp := ap - 1;
      LiveAboveBase(bp);
      Open();
      NotInRing(Mem(), base, ring, live, obtained, bp);
      var p, i := FindGap(bp);
      LiveFits(Mem(), base, ring, live, obtained, bp, i);
      assert base !in live by {
        if base in live { LiveAboveBase(base); }
      }
      FreeOwned(Mem(), base, ring, live, obtained, bp, i);
      LinkCycle(Mem(), base, ring, bp, i);
      LinkInside(Mem(), base, ring, bp, i);
      ring := LinkRing(Mem(), ring, bp, i);
      live := live - {bp};
      LinkBlock(p, bp);
      assert ring[i] == p;
    }

    /** The relinking in free(): join to the upper neighbour, then to the lower. */
    method LinkBlock(p: int, bp: int)
      requires p in ptr && p in size && bp in size && ptr[p] in ptr && ptr[p] in size
      modifies `ptr, `size, `freep
      ensures Mem() == Link(old(Mem()), p, bp) && freep == p
    {
      if bp + size[bp] == ptr[p] {
        size := size[bp := size[bp] + size[ptr[p]]];
        ptr := ptr[bp := ptr[ptr[p]]];
      } else {
        ptr := ptr[bp := ptr[p]];
      }
      if p + size[p] == bp {
        size := size[p := size[p] + size[bp]];
        ptr := ptr[p := ptr[bp]];
      } else {
        ptr := ptr[p := bp];
      }
      freep := p;
    }

    /** The system call: it fails, or it moves the break by n bytes.  Others may have moved the
        break up since the last call. */
    method Sbrk(n: int) returns (p: int)
      requires 0 < brk && n % HEADER == 0
      modifies `brk, `calls
      ensures calls == old(calls) + [Call(n, p)]
      ensures p == -1 ==> brk == old(brk)
      ensures p != -1 ==> p >= old(brk) && brk == p + n / HEADER
    {
      var gap: int := *;
      if gap < 0 {
        p := -1;
      } else {
        p := brk + gap;
        brk := p + n / HEADER;
      }
      calls := calls + [Call(n, p)];
    }

    /** morecore() writes the header of the area it got: one more block, not free yet. */
    method Granted(a: int, nu: nat)
      requires 0 < base < a && a + nu <= brk && 0 < nu && freep in ring && freep != 0
      requires Cycle(Mem(), base, ring) && Owned(Mem(), ring, live, obtained)
      requires forall u | u in obtained :: base < u < a
      requires Accounted(obtained + Area(a, nu), calls)
      modifies `size, `live, `obtained
      ensures Valid() && old(obtained) <= obtained
      ensures a in live && live[a] == nu && live - {a} == old(live)
    {
      GrowOwned(Mem(), base, ring, live, obtained, a, nu);
      ghost var h' := Mem().(size := size[a := nu]);
      size := size[a := nu];
      assert Mem() == h';
      live := live[a := nu];
      obtained := obtained + Area(a, nu);
    }

    /** overrun: the break moved by less than the new header claims, because the request is too
        large for sbrk()'s int; what happens to memory after that is not modelled. */
    method Morecore(nunits: nat) returns (p: int, overrun: bool)
      requires Valid() && freep != 0 && 0 < nunits <= 0x1000_0001
      modifies this
      ensures Asked(old(calls), calls, nunits)
      ensures overrun <==> !Refused(calls) && nunits >= 0x800_0000
      ensures p == 0 <==> Refused(calls) || overrun
      ensures !overrun ==> Valid() && freep != 0 && live == old(live)
      ensures !overrun && p != 0 ==> p == freep && exists a, nu :: nu >= nunits && Inside(Mem(), ring, a, nu)
    {
      var nu := if nunits < MIN_UNITS then MIN_UNITS else nunits;
      assert ToInt32(nu * HEADER) % HEADER == 0;
      Open();
      var a := Sbrk(ToInt32(nu * HEADER));
      GotMore(obtained, old(calls), Call(ToInt32(nu * HEADER), a));
      if a == -1 {
        return 0, false;
      }
      if ToInt32(nu * HEADER) != nu * HEADER {
        return 0, true;
      }
      Granted(a, nu);
      Free(a + 1);
      return freep, false;
    }

    /** The part of malloc() that hands out block p, whole or its tail. */
    method Take(ghost j: nat, prevp: int, p: int, nunits: int) returns (bp: int)
      requires Valid() && freep != 0 && j + 1 < |ring| && prevp == ring[j] && p == ring[j + 1]
      requires p in size && 0 < nunits <= size[p]
      modifies `ptr, `size, `freep, `ring, `live
      ensures Valid() && freep == prevp && bp > 0 && bp !in old(live) && live == old(live)[bp := nunits]
      ensures bp == p + old(size[p]) - nunits
    {
      Open();
      if size[p] == nunits {
        TakeWhole(j, prevp, p);
        bp := p;
      } else {
        bp := TakeTail(j + 1, p, nunits);
      }
      freep := prevp;
    }

    method TakeWhole(ghost j: nat, prevp: int, p: int)
      requires Cycle(Mem(), base, ring) && Owned(Mem(), ring, live, obtained) && j + 1 < |ring| && prevp == ring[j]
      requires p == ring[j + 1]
      modifies `ptr, `ring, `live
      ensures Cycle(Mem(), base, ring) && Owned(Mem(), ring, live, obtained) && p > 0 && p in size && prevp in ring
      ensures p !in old(live) && live == old(live)[p := size[p]]
    {
      RemoveOwned(Mem(), base, ring, live, obtained, j + 1);
      ghost var ring' := ring[..j + 1] + ring[j + 2..];
      ghost var h' := Mem().(ptr := ptr[ring[j] := ptr[ring[j + 1]]]);
      assert ring'[j] == prevp && 0 < base < p;
      ptr := ptr[prevp := ptr[p]];
      ring := ring';
      live := live[p := size[p]];
      assert Mem() == h';
    }

    method TakeTail(ghost i: nat, p: int, nunits: int) returns (bp: int)
      requires Cycle(Mem(), base, ring) && Owned(Mem(), ring, live, obtained) && 0 < i < |ring| && p == ring[i]
      requires p in size && 0 < nunits < size[p]
      modifies `size, `live
      ensures Cycle(Mem(), base, ring) && Owned(Mem(), ring, live, obtained) && bp > 0
      ensures bp !in old(live) && live == old(live)[bp := nunits] && bp == p + old(size[p]) - nunits
    {
      CutOwned(Mem(), base, ring, live, obtained, i, nunits);
      ghost var rest := size[p] - nunits;
      ghost var h' := Mem().(size := size[p := rest][p + rest := nunits]);
      assert 0 < base < p;
      size := size[p := size[p] - nunits];
      bp := p + size[p];
      size := size[bp := nunits];
      live := live[bp := nunits];
      assert Mem() == h';
    }

    method Malloc(nbytes: nat) returns (ap: int, overrun: bool)
      requires Valid() && nbytes < 0x1_0000_0000
      modifies this
      ensures overrun <==> calls != old(calls) && !Refused(calls) && nbytes > 0x7fff_ffe0
      ensures !overrun ==> Valid()
      ensures !overrun ==> (ap == 0 <==> calls != old(calls) && Refused(calls))
      ensures !overrun && ap == 0 ==> live == old(live)
      ensures !overrun && ap != 0 ==> ap - 1 !in old(live) && live == old(live)[ap - 1 := Units(nbytes)]
      ensures calls == old(calls) ==> FirstFit(old(Mem()), old(ring), old(freep), Units(nbytes), ap - 1)
      ensures !overrun && ap != 0 ==> Found(base, old(live), obtained, Units(nbytes), ap - 1)
      ensures calls != old(calls) ==>
        Asked(old(calls), calls, Units(nbytes)) && NoneFits(old(Mem()), old(ring), Units(nbytes))
    {
      var nunits := Units(nbytes);
      if freep == 0 {
        freep := base;
        ptr, size := ptr[base := base], size[base := 0];
        ring := [base];
      }
      ap, overrun := Search(nunits);
    }

    /** malloc() looks at p, the block behind prevp; it has come from freep, at place f, to prevp, at place
        j, and found no block that is large enough.  If morecore() has been called there is one. */
    ghost predicate Looking(f: nat, j: nat, prevp: int, p: int, n: int, grown: bool)
      reads this
    {
      && f < |ring| && j < |ring| && Valid() && freep != 0
      && forall k {:trigger Key(k, (f, j))} | Key(k, (f, j)) :: LookingAt(f, j, prevp, p, n, grown)
    }

    ghost predicate LookingAt(f: nat, j: nat, prevp: int, p: int, n: int, grown: bool)
      requires f < |ring| && j < |ring|
      reads this
    {
      && ring[f] == freep && ring[j] == prevp && p == ring[Next(j, |ring|)] && TooSmall(Mem(), ring, f, j, n)
      && (grown ==> exists a, nu :: nu >= n && Inside(Mem(), ring, a, nu))
    }

    lemma LookStart(f: nat, n: int, grown: bool)
      requires Valid() && freep != 0 && f < |ring| && ring[f] == freep && 0 < n
      requires grown ==> exists a, nu :: nu >= n && Inside(Mem(), ring, a, nu)
      ensures freep in ptr && Looking(f, f, freep, ptr[freep], n, grown)
    {
      Open();
      Linked(Mem(), base, ring, f);
    }

    lemma LookNext(f: nat, j: nat, prevp: int, p: int, n: int, grown: bool)
      requires Looking(f, j, prevp, p, n, grown) && 0 < n
      ensures p in ptr && p in size
      ensures size[p] >= n ==> j + 1 < |ring| && prevp == ring[j] && p == ring[j + 1]
      ensures size[p] >= n ==> FirstFit(Mem(), ring, freep, n, p + size[p] - n)
      ensures size[p] < n && p == freep ==> NoneFits(Mem(), ring, n) && !grown
      ensures size[p] < n && p != freep ==> Looking(f, Next(j, |ring|), p, ptr[p], n, grown)
      ensures size[p] < n && p != freep ==> Round(f, Next(j, |ring|), |ring|) == Round(f, j, |ring|) + 1
    {
      assert Key(0, (f, j));
      Open();
      Linked(Mem(), base, ring, j);
      Linked(Mem(), base, ring, Next(j, |ring|));
      if size[p] >= n {
        FitFound(Mem(), base, ring, f, j, n);
      } else {
        WentRound(Mem(), ring, f, j, n);
      }
    }

    lemma FoundHere(n: int, bp: int)
      requires Valid() && freep != 0 && FirstFit(Mem(), ring, freep, n, bp)
      ensures Found(base, live, obtained, n, bp)
    {
      Open();
    }

    /** Block p, at which malloc() looks, is large enough. */
    method HandOut(ghost f: nat, ghost j: nat, prevp: int, p: int, nunits: int, ghost grown: bool) returns (bp: int)
      requires Looking(f, j, prevp, p, nunits, grown) && 0 < nunits && p in size && size[p] >= nunits
      modifies `ptr, `size, `freep, `ring, `live
      ensures Valid() && bp > 0 && bp !in old(live) && live == old(live)[bp := nunits]
      ensures FirstFit(old(Mem()), old(ring), old(freep), nunits, bp) && Found(base, old(live), obtained, nunits, bp)
    {
      LookNext(f, j, prevp, p, nunits, grown);
      FoundHere(nunits, p + size[p] - nunits);
      bp := Take(j, prevp, p, nunits);
    }

    /** morecore(), and the list to look through anew. */
    method Refill(nunits: nat) returns (p: int, overrun: bool, ghost f: nat)
      requires Valid() && freep != 0 && 0 < nunits <= 0x1000_0001
      modifies this
      ensures Asked(old(calls), calls, nunits)
      ensures overrun <==> !Refused(calls) && nunits >= 0x800_0000
      ensures p == 0 <==> Refused(calls) || overrun
      ensures !overrun ==> Valid() && live == old(live)
      ensures p != 0 ==> p in ptr && Looking(f, f, p, ptr[p], nunits, true)
    {
      f := 0;
      p, overrun := Morecore(nunits);
      if !overrun && p != 0 {
        f := IndexIn(ring, freep);
        LookStart(f, nunits, true);
      }
    }

    /** The loop of malloc(): round the list from freep, and at most once to morecore(). */
    method Search(nunits: nat) returns (ap: int, overrun: bool)
      requires Valid() && freep != 0 && 0 < nunits <= 0x1000_0001
      modifies this
      ensures overrun <==> calls != old(calls) && !Refused(calls) && nunits >= 0x800_0000
      ensures !overrun ==> Valid()
      ensures !overrun ==> (ap == 0 <==> calls != old(calls) && Refused(calls))
      ensures !overrun && ap == 0 ==> live == old(live)
      ensures !overrun && ap != 0 ==> ap - 1 !in old(live) && live == old(live)[ap - 1 := nunits]
      ensures calls == old(calls) ==> FirstFit(old(Mem()), old(ring), old(freep), nunits, ap - 1)
      ensures !overrun && ap != 0 ==> Found(base, old(live), obtained, nunits, ap - 1)
      ensures calls != old(calls) ==> Asked(old(calls), calls, nunits) && NoneFits(old(Mem()), old(ring), nunits)
    {
      ghost var f := IndexIn(ring, freep);
      ghost var j := f;
      ghost var grown := false;
      LookStart(f, nunits, grown);
      var prevp := freep;
      var p := ptr[prevp];
      while true
        invariant Looking(f, j, prevp, p, nunits, grown)
        invariant live == old(live)
        invariant !grown ==> calls == old(calls) && Mem() == old(Mem()) && ring == old(ring) && freep == old(freep)
        invariant grown ==>
          Asked(old(calls), calls, nunits) && !Refused(calls) && nunits < 0x800_0000
          && NoneFits(old(Mem()), old(ring), nunits)
        decreases !grown, |ring| - Round(f, j, |ring|)
      {
        LookNext(f, j, prevp, p, nunits, grown);
        if size[p] >= nunits {
          ap := HandOut(f, j, prevp, p, nunits, grown);
          return ap + 1, false;
        }
        if p == freep {
          p, overrun, f := Refill(nunits);
          if p == 0 {
            return 0, overrun;
          }
          grown, j := true, f;
        } else {
          j := Next(j, |ring|);
        }
        prevp, p := p, ptr[p];
      }
    }
  }
}
