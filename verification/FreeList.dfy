/** The free list of the user-level allocator: a circular, address-ordered list of blocks.
    Addresses and sizes are in units of a Header (16 bytes). */
module FreeList {
  import opened Basics

  /** The `ptr` and `size` fields of the headers in memory. */
  datatype Headers = Headers(ptr: map<int, int>, size: map<int, int>)

  function Next(i: nat, k: nat): nat { if i + 1 < k then i + 1 else 0 }

  /** `ring` lists the blocks of the cycle through `base`, in address order: disjoint, and no two
      of them touching.  `base` itself holds no units. */
  ghost predicate Cycle(h: Headers, base: int, ring: seq<int>) {
    && 0 < |ring| && ring[0] == base && 0 < base
    && (forall i | 0 <= i < |ring| :: ring[i] in h.ptr && ring[i] in h.size)
    && h.size[base] == 0
    && (forall i {:trigger Next(i, |ring|)} | 0 <= i < |ring| :: h.ptr[ring[i]] == ring[Next(i, |ring|)])
    && (forall i | 0 < i < |ring| :: h.size[ring[i]] > 0)
    && (forall i, j | 0 <= i < j < |ring| :: ring[i] + h.size[ring[i]] < ring[j])
  }

  /** Unit u belongs to a block of the list. */
  ghost predicate InFree(h: Headers, ring: seq<int>, u: int)
  {
    exists i :: Holds(h, ring, i, u)
  }

  /** Block i of the list holds unit u. */
  ghost predicate Holds(h: Headers, ring: seq<int>, i: int, u: int) {
    0 <= i < |ring| && ring[i] in h.size && ring[i] <= u < ring[i] + h.size[ring[i]]
  }

  /** The free list is determined by the set of free units: two lists for the same units have the
      same blocks with the same sizes. */
  lemma Canonical(h: Headers, ring: seq<int>, h': Headers, ring': seq<int>, base: int)
    requires Cycle(h, base, ring) && Cycle(h', base, ring')
    requires forall u :: InFree(h, ring, u) <==> InFree(h', ring', u)
    ensures ring == ring' && forall i | 0 <= i < |ring| :: h.size[ring[i]] == h'.size[ring[i]]
  {
    CanonicalPrefix(h, ring, h', ring', base, Min(|ring|, |ring'|));
    if |ring| <= |ring'| {
      SameLength(h, ring, h', ring', base);
    } else {
      SameLength(h', ring', h, ring, base);
    }
  }

  lemma {:induction false} CanonicalPrefix(h: Headers, ring: seq<int>, h': Headers, ring': seq<int>, base: int, k: nat)
    requires Cycle(h, base, ring) && Cycle(h', base, ring') && k <= |ring| && k <= |ring'|
    requires forall u :: InFree(h, ring, u) <==> InFree(h', ring', u)
    ensures forall i | 0 <= i < k :: ring[i] == ring'[i] && h.size[ring[i]] == h'.size[ring'[i]]
  {
    if k > 1 {
      CanonicalPrefix(h, ring, h', ring', base, k - 1);
      BlockStart(h, ring, h', ring', base, k - 1);
      BlockStart(h', ring', h, ring, base, k - 1);
      BlockEnd(h, ring, h', ring', base, k - 1);
      BlockEnd(h', ring', h, ring, base, k - 1);
    }
  }

  /** The k-th block of ring does not start before the k-th of ring'. */
  lemma BlockStart(h: Headers, ring: seq<int>, h': Headers, ring': seq<int>, base: int, k: nat)
    requires Cycle(h, base, ring) && Cycle(h', base, ring') && 0 < k < |ring| && k < |ring'|
    requires forall u :: InFree(h, ring, u) <==> InFree(h', ring', u)
    requires forall i | 0 <= i < k :: ring[i] == ring'[i] && h.size[ring[i]] == h'.size[ring'[i]]
    ensures ring'[k] <= ring[k]
  {
    var u := ring[k];
    assert Holds(h, ring, k, u) && InFree(h, ring, u);
    var j :| Holds(h', ring', j, u);
    assert forall i | 0 <= i < k :: ring[i] + h.size[ring[i]] < ring[k];
  }

  /** With equal starts, it does not end after it either. */
  lemma BlockEnd(h: Headers, ring: seq<int>, h': Headers, ring': seq<int>, base: int, k: nat)
    requires Cycle(h, base, ring) && Cycle(h', base, ring') && 0 < k < |ring| && k < |ring'|
    requires forall u :: InFree(h, ring, u) <==> InFree(h', ring', u)
    requires ring[k] == ring'[k]
    ensures h.size[ring[k]] <= h'.size[ring'[k]]
  {
    var e := ring'[k] + h'.size[ring'[k]];
    forall j | 0 <= j < |ring'| ensures !Holds(h', ring', j, e) {
      if j < k {
        assert ring'[j] + h'.size[ring'[j]] < ring'[k];
      } else if j > k {
        assert e < ring'[j];
      }
    }
    assert !InFree(h, ring, e);
    assert !Holds(h, ring, k, e);
  }

  lemma SameLength(h: Headers, ring: seq<int>, h': Headers, ring': seq<int>, base: int)
    requires Cycle(h, base, ring) && Cycle(h', base, ring') && |ring| <= |ring'|
    requires forall u :: InFree(h, ring, u) <==> InFree(h', ring', u)
    requires forall i | 0 <= i < |ring| :: ring[i] == ring'[i] && h.size[ring[i]] == h'.size[ring'[i]]
    ensures |ring| == |ring'|
  {
    var longer := |ring| < |ring'|;
    var u := if longer then ring'[|ring|] else base;
    assert forall j | 0 <= j < |ring| && longer :: ring'[j] + h'.size[ring'[j]] < u;
    assert longer ==> Holds(h', ring', |ring|, u) && InFree(h', ring', u);
  }

  // ---------------------------------------------------------------- inserting a block

  /** Where a block at bp belongs: after ring[t]. */
  ghost predicate Slot(ring: seq<int>, bp: int, t: nat) {
    t < |ring| && ring[t] < bp && (t + 1 < |ring| ==> bp < ring[t + 1])
  }

  lemma {:induction false} SlotExists(ring: seq<int>, bp: int, k: nat) returns (t: nat)
    requires 0 < k <= |ring| && ring[0] < bp && forall i, j | 0 <= i < j < |ring| :: ring[i] < ring[j]
    requires k < |ring| ==> bp < ring[k]
    requires bp !in ring
    ensures Slot(ring, bp, t)
  {
    if ring[k - 1] < bp {
      t := k - 1;
    } else {
      t := SlotExists(ring, bp, k - 1);
    }
  }

  /** Block bp of n units lies in the gap after ring[t]. */
  ghost predicate Fits(h: Headers, ring: seq<int>, bp: int, n: int, t: nat)
    requires t < |ring| ==> ring[t] in h.size
  {
    && Slot(ring, bp, t) && 0 < n
    && ring[t] + h.size[ring[t]] <= bp
    && (t + 1 < |ring| ==> bp + n <= ring[t + 1])
  }

  /** The headers after free() has linked bp, of n units, behind ring[t]. */
  function Link(h: Headers, p: int, bp: int): Headers
    requires p in h.ptr && p in h.size && bp in h.size && h.ptr[p] in h.ptr && h.ptr[p] in h.size
  {
    var next := h.ptr[p];
    var h1 := if bp + h.size[bp] == next
              then Headers(h.ptr[bp := h.ptr[next]], h.size[bp := h.size[bp] + h.size[next]])
              else Headers(h.ptr[bp := next], h.size);
    if p + h1.size[p] == bp
    then Headers(h1.ptr[p := h1.ptr[bp]], h1.size[p := h1.size[p] + h1.size[bp]])
    else Headers(h1.ptr[p := bp], h1.size)
  }

  /** The blocks of the cycle afterwards. */
  ghost function LinkRing(h: Headers, ring: seq<int>, bp: int, t: nat): seq<int>
    requires t < |ring| && bp in h.size && ring[t] in h.size
  {
    var before := if ring[t] + h.size[ring[t]] == bp then ring[..t + 1] else ring[..t + 1] + [bp];
    var after := if t + 1 < |ring| && bp + h.size[bp] == ring[t + 1] then ring[t + 2..] else ring[t + 1..];
    before + after
  }

  ghost predicate CanLink(h: Headers, base: int, ring: seq<int>, bp: int, t: nat) {
    && Cycle(h, base, ring) && bp in h.size && Fits(h, ring, bp, h.size[bp], t)
    && h.ptr[ring[t]] == ring[Next(t, |ring|)]
  }

  predicate JoinsNext(h: Headers, ring: seq<int>, bp: int, t: nat)
    requires bp in h.size
  {
    t + 1 < |ring| && bp + h.size[bp] == ring[t + 1]
  }

  predicate JoinsPrev(h: Headers, ring: seq<int>, bp: int, t: nat)
    requires t < |ring| && ring[t] in h.size
  {
    ring[t] + h.size[ring[t]] == bp
  }

  /** Freeing keeps the list sorted, disjoint and coalesced... */
  lemma LinkCycle(h: Headers, base: int, ring: seq<int>, bp: int, t: nat)
    requires CanLink(h, base, ring, bp, t)
    ensures Cycle(Link(h, ring[t], bp), base, LinkRing(h, ring, bp, t))
    ensures t < |LinkRing(h, ring, bp, t)| && LinkRing(h, ring, bp, t)[t] == ring[t]
  {
    if JoinsPrev(h, ring, bp, t) {
      if JoinsNext(h, ring, bp, t) { CycleBoth(h, base, ring, bp, t); } else { CyclePrev(h, base, ring, bp, t); }
    } else {
      if JoinsNext(h, ring, bp, t) { CycleNext(h, base, ring, bp, t); } else { CycleNone(h, base, ring, bp, t); }
    }
  }

  lemma Ascending(h: Headers, base: int, ring: seq<int>)
    requires Cycle(h, base, ring)
    ensures forall i, j | 0 <= i < j < |ring| :: ring[i] < ring[j]
    ensures forall i | 0 < i < |ring| :: base < ring[i]
  {}

  /** ring' is ring with bp inserted behind ring[t], then with the d blocks that follow removed. */
  ghost predicate Spliced(ring: seq<int>, ring': seq<int>, bp: int, t: nat, d: nat) {
    && t + d < |ring| && |ring'| == |ring| + 1 - d && ring'[t + 1] == bp
    && (forall i {:trigger ring'[i]} | 0 <= i <= t :: ring'[i] == ring[i])
    && (forall i {:trigger ring'[i]} | t + 1 < i < |ring'| :: ring'[i] == ring[i - 1 + d])
  }

  lemma SplicedRing(ring: seq<int>, bp: int, t: nat, d: nat)
    requires t + d < |ring|
    ensures Spliced(ring, ring[..t + 1] + [bp] + ring[t + 1 + d..], bp, t, d)
  {}

  lemma CycleNone(h: Headers, base: int, ring: seq<int>, bp: int, t: nat)
    requires CanLink(h, base, ring, bp, t) && !JoinsNext(h, ring, bp, t) && !JoinsPrev(h, ring, bp, t)
    ensures Cycle(Link(h, ring[t], bp), base, LinkRing(h, ring, bp, t))
  {
    var h', ring' := Link(h, ring[t], bp), LinkRing(h, ring, bp, t);
    assert h' == Headers(h.ptr[bp := h.ptr[ring[t]]][ring[t] := bp], h.size);
    SplicedRing(ring, bp, t, 0);
    Splice0(h, base, ring, ring', bp, t);
  }

  lemma Splice0(h: Headers, base: int, ring: seq<int>, ring': seq<int>, bp: int, t: nat)
    requires CanLink(h, base, ring, bp, t) && !JoinsNext(h, ring, bp, t) && !JoinsPrev(h, ring, bp, t)
    requires Spliced(ring, ring', bp, t, 0)
    ensures Cycle(Headers(h.ptr[bp := h.ptr[ring[t]]][ring[t] := bp], h.size), base, ring')
  {
    Splice0Order(h, base, ring, ring', bp, t);
    var ptr := h.ptr[bp := h.ptr[ring[t]]][ring[t] := bp];
    forall i {:trigger Next(i, |ring'|)} | 0 <= i < |ring'|
      ensures ring'[i] in ptr && ptr[ring'[i]] == ring'[Next(i, |ring'|)]
    {
      Splice0Ptr(h, base, ring, ring', bp, t, i);
    }
  }

  lemma Splice0Ptr(h: Headers, base: int, ring: seq<int>, ring': seq<int>, bp: int, t: nat, i: nat)
    requires CanLink(h, base, ring, bp, t) && Spliced(ring, ring', bp, t, 0) && i < |ring'|
    ensures var ptr := h.ptr[bp := h.ptr[ring[t]]][ring[t] := bp];
            ring'[i] in ptr && ptr[ring'[i]] == ring'[Next(i, |ring'|)]
  {
    var k := |ring|;
    Ascending(h, base, ring);
    assert bp !in ring;
    if i < t {
      assert h.ptr[ring[i]] == ring[Next(i, k)] == ring[i + 1];
    } else if i == t + 1 {
      assert h.ptr[ring[t]] == ring[Next(t, k)];
      assert t + 1 < k ==> ring'[t + 2] == ring[t + 1];
    } else if i > t + 1 {
      assert h.ptr[ring[i - 1]] == ring[Next(i - 1, k)];
      assert i < k ==> ring'[i + 1] == ring[i];
    }
  }

  lemma Splice0Order(h: Headers, base: int, ring: seq<int>, ring': seq<int>, bp: int, t: nat)
    requires CanLink(h, base, ring, bp, t) && !JoinsNext(h, ring, bp, t) && !JoinsPrev(h, ring, bp, t)
    requires Spliced(ring, ring', bp, t, 0)
    ensures forall i | 0 <= i < |ring'| :: ring'[i] in h.size
    ensures forall i, j | 0 <= i < j < |ring'| :: ring'[i] + h.size[ring'[i]] < ring'[j]
  {
    forall i, j | 0 <= i < j < |ring'| ensures ring'[i] + h.size[ring'[i]] < ring'[j] {
      if j == t + 1 {
        assert i < t ==> ring[i] + h.size[ring[i]] < ring[t];
      } else if i == t + 1 {
        assert bp + h.size[bp] < ring[t + 1] <= ring[j - 1];
      }
    }
  }

  lemma CycleNext(h: Headers, base: int, ring: seq<int>, bp: int, t: nat)
    requires CanLink(h, base, ring, bp, t) && JoinsNext(h, ring, bp, t) && !JoinsPrev(h, ring, bp, t)
    ensures Cycle(Link(h, ring[t], bp), base, LinkRing(h, ring, bp, t))
  {
    var ring' := LinkRing(h, ring, bp, t);
    SplicedRing(ring, bp, t, 1);
    Splice1(h, base, ring, ring', bp, t);
  }

  lemma Splice1(h: Headers, base: int, ring: seq<int>, ring': seq<int>, bp: int, t: nat)
    requires CanLink(h, base, ring, bp, t) && JoinsNext(h, ring, bp, t) && !JoinsPrev(h, ring, bp, t)
    requires Spliced(ring, ring', bp, t, 1)
    ensures Cycle(Link(h, ring[t], bp), base, ring')
  {
    var h', k := Link(h, ring[t], bp), |ring|;
    Ascending(h, base, ring);
    var p, next := ring[t], ring[t + 1];
    assert h.ptr[p] == next && h.ptr[next] == ring[Next(t + 1, k)] && bp !in ring;
    assert h'.size == h.size[bp := h.size[bp] + h.size[next]];
    assert h'.ptr == h.ptr[bp := h.ptr[next]][p := bp];
    forall i {:trigger Next(i, k)} | 0 <= i < k ensures h'.ptr[ring'[i]] == ring'[Next(i, k)] {
      if i != t && i != t + 1 {
        assert h.ptr[ring[i]] == ring[Next(i, k)];
      }
    }
    forall i, j | 0 <= i < j < k ensures ring'[i] + h'.size[ring'[i]] < ring'[j] {
      if i == t + 1 {
        assert next + h.size[next] < ring[j];
      } else if j == t + 1 {
        assert i < t ==> ring[i] + h.size[ring[i]] < ring[t];
      }
    }
  }

  lemma CyclePrev(h: Headers, base: int, ring: seq<int>, bp: int, t: nat)
    requires CanLink(h, base, ring, bp, t) && !JoinsNext(h, ring, bp, t) && JoinsPrev(h, ring, bp, t)
    ensures Cycle(Link(h, ring[t], bp), base, LinkRing(h, ring, bp, t))
  {
    var h', ring' := Link(h, ring[t], bp), LinkRing(h, ring, bp, t);
    Ascending(h, base, ring);
    var p := ring[t];
    assert ring' == ring && bp !in ring;
    assert h'.size == h.size[p := h.size[p] + h.size[bp]];
    assert h'.ptr == h.ptr[bp := h.ptr[p]][p := h.ptr[p]];
    forall i | 0 <= i < |ring| ensures h'.ptr[ring[i]] == h.ptr[ring[i]] {}
    CycleGrown(h, base, ring, h', t);
  }

  /** A block grows, but not up to the next one. */
  lemma CycleGrown(h: Headers, base: int, ring: seq<int>, h': Headers, t: nat)
    requires Cycle(h, base, ring) && t < |ring| && h'.ptr.Keys >= h.ptr.Keys && h'.size.Keys >= h.size.Keys
    requires forall i | 0 <= i < |ring| :: h'.ptr[ring[i]] == h.ptr[ring[i]]
    requires forall i | 0 <= i < |ring| && i != t :: h'.size[ring[i]] == h.size[ring[i]]
    requires t > 0 && h'.size[ring[t]] >= h.size[ring[t]]
    requires (t + 1 < |ring| ==> ring[t] + h'.size[ring[t]] < ring[t + 1])
    ensures Cycle(h', base, ring)
  {
    Ascending(h, base, ring);
    forall i, j | 0 <= i < j < |ring| ensures ring[i] + h'.size[ring[i]] < ring[j] {
      assert i == t ==> ring[t + 1] <= ring[j];
    }
  }

  lemma CycleBoth(h: Headers, base: int, ring: seq<int>, bp: int, t: nat)
    requires CanLink(h, base, ring, bp, t) && JoinsNext(h, ring, bp, t) && JoinsPrev(h, ring, bp, t)
    ensures Cycle(Link(h, ring[t], bp), base, LinkRing(h, ring, bp, t))
  {
    var h', ring' := Link(h, ring[t], bp), LinkRing(h, ring, bp, t);
    assert ring' == ring[..t + 1] + ring[t + 2..];
    Ascending(h, base, ring);
    assert bp !in ring && h'.size[ring[t]] == h.size[ring[t]] + h.size[bp] + h.size[ring[t + 1]];
    SpliceBoth(h, base, ring, h', ring', t);
  }

  lemma SpliceBoth(h: Headers, base: int, ring: seq<int>, h': Headers, ring': seq<int>, t: nat)
    requires Cycle(h, base, ring) && Without(ring, ring', t + 1)
    requires forall i | 0 <= i < |ring'| :: ring'[i] in h'.size && ring'[i] in h'.ptr
    requires forall i | 0 <= i < |ring'| && i != t ::
      h'.size[ring'[i]] == h.size[ring'[i]] && h'.ptr[ring'[i]] == h.ptr[ring'[i]]
    requires ring[t] + h'.size[ring'[t]] == ring[t + 1] + h.size[ring[t + 1]] && h'.ptr[ring'[t]] == h.ptr[ring[t + 1]]
    requires t == 0 ==> h'.size[ring'[t]] == 0
    ensures Cycle(h', base, ring')
  {
    var k := |ring'|;
    forall i {:trigger Next(i, k)} | 0 <= i < k ensures h'.ptr[ring'[i]] == ring'[Next(i, k)] {
      WithoutPtr(h, base, ring, ring', t + 1, i);
    }
    SpliceBothOrder(h, base, ring, h', ring', t);
  }

  lemma SpliceBothOrder(h: Headers, base: int, ring: seq<int>, h': Headers, ring': seq<int>, t: nat)
    requires Cycle(h, base, ring) && Without(ring, ring', t + 1)
    requires forall i | 0 <= i < |ring'| :: ring'[i] in h'.size
    requires ring[t] in h'.size && ring[t] + h'.size[ring[t]] == ring[t + 1] + h.size[ring[t + 1]]
    requires forall i | 0 <= i < |ring'| && i != t :: h'.size[ring'[i]] == h.size[ring'[i]]
    ensures forall i, j | 0 <= i < j < |ring'| :: ring'[i] + h'.size[ring'[i]] < ring'[j]
  {
    forall i, j | 0 <= i < j < |ring'| ensures ring'[i] + h'.size[ring'[i]] < ring'[j] {
      assert ring'[j] == if j <= t then ring[j] else ring[j + 1];
      assert ring'[i] == if i <= t then ring[i] else ring[i + 1];
    }
  }

  /** ring' is ring without its block t. */
  ghost predicate Without(ring: seq<int>, ring': seq<int>, t: nat) {
    && 0 < t < |ring| && |ring'| == |ring| - 1
    && (forall i {:trigger ring'[i]} | 0 <= i < t :: ring'[i] == ring[i])
    && (forall i {:trigger ring'[i]} | t <= i < |ring'| :: ring'[i] == ring[i + 1])
  }

  /** The pointers of the blocks that stay, when the predecessor of the removed one skips it. */
  lemma WithoutPtr(h: Headers, base: int, ring: seq<int>, ring': seq<int>, t: nat, i: nat)
    requires Cycle(h, base, ring) && Without(ring, ring', t) && i < |ring'|
    ensures (if i == t - 1 then h.ptr[ring[t]] else h.ptr[ring'[i]]) == ring'[Next(i, |ring'|)]
  {
    var k := |ring|;
    if i < t - 1 {
      assert h.ptr[ring[i]] == ring[Next(i, k)] == ring[i + 1];
    } else if i == t - 1 {
      assert h.ptr[ring[t]] == ring[Next(t, k)];
    } else {
      assert h.ptr[ring[i + 1]] == ring[Next(i + 1, k)];
    }
  }

  /** ... and adds exactly the block's units. */
  lemma LinkUnits(h: Headers, base: int, ring: seq<int>, bp: int, t: nat, u: int)
    requires CanLink(h, base, ring, bp, t)
    requires Cycle(Link(h, ring[t], bp), base, LinkRing(h, ring, bp, t))
    ensures InFree(Link(h, ring[t], bp), LinkRing(h, ring, bp, t), u) <==>
      InFree(h, ring, u) || bp <= u < bp + h.size[bp]
  {
    Ascending(h, base, ring);
    assert bp !in ring;
    if JoinsPrev(h, ring, bp, t) {
      LinkUnitsPrev(h, base, ring, bp, t, u);
    } else {
      LinkUnitsApart(h, base, ring, bp, t, u);
    }
  }

  lemma LinkUnitsApart(h: Headers, base: int, ring: seq<int>, bp: int, t: nat, u: int)
    requires CanLink(h, base, ring, bp, t) && bp !in ring && !JoinsPrev(h, ring, bp, t)
    requires Cycle(Link(h, ring[t], bp), base, LinkRing(h, ring, bp, t))
    ensures InFree(Link(h, ring[t], bp), LinkRing(h, ring, bp, t), u) <==>
      InFree(h, ring, u) || bp <= u < bp + h.size[bp]
  {
    var h', ring', next := Link(h, ring[t], bp), LinkRing(h, ring, bp, t), h.ptr[ring[t]];
    SplicedRing(ring, bp, t, if JoinsNext(h, ring, bp, t) then 1 else 0);
    if JoinsNext(h, ring, bp, t) {
      assert h'.size == h.size[bp := h.size[bp] + h.size[next]];
      UnitsNext(h, ring, h', ring', bp, t, u);
    } else {
      assert h'.size == h.size;
      UnitsNone(h, ring, h', ring', bp, t, u);
    }
  }

  lemma LinkUnitsPrev(h: Headers, base: int, ring: seq<int>, bp: int, t: nat, u: int)
    requires CanLink(h, base, ring, bp, t) && bp !in ring && JoinsPrev(h, ring, bp, t)
    requires forall i, j | 0 <= i < j < |ring| :: ring[i] < ring[j]
    requires Cycle(Link(h, ring[t], bp), base, LinkRing(h, ring, bp, t))
    ensures InFree(Link(h, ring[t], bp), LinkRing(h, ring, bp, t), u) <==>
      InFree(h, ring, u) || bp <= u < bp + h.size[bp]
  {
    var h', ring' := Link(h, ring[t], bp), LinkRing(h, ring, bp, t);
    if JoinsNext(h, ring, bp, t) {
      assert ring' == ring[..t + 1] + ring[t + 2..];
      UnitsBoth(h, ring, h', ring', bp, t, u);
    } else {
      assert ring' == ring;
      UnitsPrev(h, ring, h', bp, t, u);
    }
  }

  ghost predicate Sized(h: Headers, ring: seq<int>) { forall i | 0 <= i < |ring| :: ring[i] in h.size }

  lemma UnitsNone(h: Headers, ring: seq<int>, h': Headers, ring': seq<int>, bp: int, t: nat, u: int)
    requires Sized(h, ring) && Sized(h', ring') && bp in h.size && Spliced(ring, ring', bp, t, 0)
    requires h'.size == h.size
    ensures InFree(h', ring', u) <==> InFree(h, ring, u) || bp <= u < bp + h.size[bp]
  {
    if i :| Holds(h, ring, i, u) {
      assert Holds(h', ring', if i <= t then i else i + 1, u);
    }
    if i :| Holds(h', ring', i, u) {
      assert i != t + 1 ==> Holds(h, ring, if i <= t then i else i - 1, u);
    }
    assert bp <= u < bp + h.size[bp] ==> Holds(h', ring', t + 1, u);
  }

  lemma UnitsNext(h: Headers, ring: seq<int>, h': Headers, ring': seq<int>, bp: int, t: nat, u: int)
    requires Sized(h, ring) && Sized(h', ring') && bp in h.size && Spliced(ring, ring', bp, t, 1)
    requires ring[t + 1] == bp + h.size[bp] && h.size[bp] > 0 && h.size[ring[t + 1]] > 0 && bp !in ring
    requires h'.size == h.size[bp := h.size[bp] + h.size[ring[t + 1]]]
    ensures InFree(h', ring', u) <==> InFree(h, ring, u) || bp <= u < bp + h.size[bp]
  {
    if i :| Holds(h, ring, i, u) {
      assert Holds(h', ring', i, u);
    }
    if i :| Holds(h', ring', i, u) {
      assert i != t + 1 || u >= ring[t + 1] ==> Holds(h, ring, i, u);
    }
    assert bp <= u < bp + h.size[bp] ==> Holds(h', ring', t + 1, u);
  }

  lemma UnitsPrev(h: Headers, ring: seq<int>, h': Headers, bp: int, t: nat, u: int)
    requires Sized(h, ring) && Sized(h', ring) && bp in h.size && t < |ring| && h.size[ring[t]] >= 0 && h.size[bp] > 0
    requires ring[t] + h.size[ring[t]] == bp
    requires forall i | 0 <= i < |ring| && i != t :: ring[i] != ring[t]
    requires h'.size == h.size[ring[t] := h.size[ring[t]] + h.size[bp]]
    ensures InFree(h', ring, u) <==> InFree(h, ring, u) || bp <= u < bp + h.size[bp]
  {
    if i :| Holds(h, ring, i, u) {
      assert Holds(h', ring, i, u);
    }
    if i :| Holds(h', ring, i, u) {
      assert i != t || u < bp ==> Holds(h, ring, i, u);
    }
    assert bp <= u < bp + h.size[bp] ==> Holds(h', ring, t, u);
  }

  lemma UnitsBoth(h: Headers, ring: seq<int>, h': Headers, ring': seq<int>, bp: int, t: nat, u: int)
    requires Sized(h, ring) && Sized(h', ring') && bp in h.size && Without(ring, ring', t + 1)
    requires ring[t] + h.size[ring[t]] == bp && ring[t + 1] == bp + h.size[bp]
    requires h.size[ring[t]] >= 0 && h.size[bp] > 0 && h.size[ring[t + 1]] > 0
    requires forall i | 0 <= i < |ring| && i != t :: ring[i] != ring[t]
    requires forall i | 0 <= i < |ring| && i != t + 1 ::
      ring[i] in h'.size && h'.size[ring[i]] == h.size[ring[i]] + if i == t then h.size[bp] + h.size[ring[t + 1]] else 0
    ensures InFree(h', ring', u) <==> InFree(h, ring, u) || bp <= u < bp + h.size[bp]
  {
    if i :| Holds(h, ring, i, u) {
      assert Holds(h', ring', if i <= t then i else i - 1, u);
    }
    if i :| Holds(h', ring', i, u) {
      if i < t {
        assert Holds(h, ring, i, u);
      } else if i > t {
        assert Holds(h, ring, i + 1, u);
      } else {
        assert u < bp ==> Holds(h, ring, t, u);
        assert u >= ring[t + 1] ==> Holds(h, ring, t + 1, u);
      }
    }
    assert bp <= u < bp + h.size[bp] ==> Holds(h', ring', t, u);
  }

  // ---------------------------------------------------------------- taking a block out

  /** malloc's exact fit: block i leaves the list. */
  lemma RemoveCycle(h: Headers, base: int, ring: seq<int>, i: nat)
    requires Cycle(h, base, ring) && 0 < i < |ring|
    ensures ring[i - 1] in h.ptr && ring[i] in h.ptr
    ensures Cycle(h.(ptr := h.ptr[ring[i - 1] := h.ptr[ring[i]]]), base, ring[..i] + ring[i + 1..])
  {
    var ring' := ring[..i] + ring[i + 1..];
    assert Without(ring, ring', i);
    RemoveCycle'(h, base, ring, ring', i);
  }

  lemma RemoveCycle'(h: Headers, base: int, ring: seq<int>, ring': seq<int>, i: nat)
    requires Cycle(h, base, ring) && Without(ring, ring', i)
    ensures Cycle(h.(ptr := h.ptr[ring[i - 1] := h.ptr[ring[i]]]), base, ring')
  {
    var ptr := h.ptr[ring[i - 1] := h.ptr[ring[i]]];
    Ascending(h, base, ring);
    forall j {:trigger Next(j, |ring'|)} | 0 <= j < |ring'| ensures ptr[ring'[j]] == ring'[Next(j, |ring'|)] {
      WithoutPtr(h, base, ring, ring', i, j);
    }
  }

  lemma RemoveUnits(h: Headers, h': Headers, ring: seq<int>, i: nat, u: int)
    requires 0 < i < |ring| && Sized(h, ring) && h'.size == h.size
    requires forall j, k | 0 <= j < k < |ring| :: ring[j] + h.size[ring[j]] < ring[k]
    ensures InFree(h', ring[..i] + ring[i + 1..], u) <==>
      InFree(h, ring, u) && !(ring[i] <= u < ring[i] + h.size[ring[i]])
  {
    var ring' := ring[..i] + ring[i + 1..];
    assert Without(ring, ring', i);
    RemoveUnits'(h, ring, ring', i, u);
    assert InFree(h, ring', u) <==> InFree(h', ring', u) by {
      if j :| Holds(h, ring', j, u) { assert Holds(h', ring', j, u); }
      if j :| Holds(h', ring', j, u) { assert Holds(h, ring', j, u); }
    }
  }

  lemma RemoveUnits'(h: Headers, ring: seq<int>, ring': seq<int>, i: nat, u: int)
    requires Without(ring, ring', i) && Sized(h, ring)
    requires forall j, k | 0 <= j < k < |ring| :: ring[j] + h.size[ring[j]] < ring[k]
    ensures InFree(h, ring', u) <==> InFree(h, ring, u) && !(ring[i] <= u < ring[i] + h.size[ring[i]])
  {
    if j :| Holds(h, ring, j, u) && j != i {
      assert Holds(h, ring', if j < i then j else j - 1, u);
    }
    if j :| Holds(h, ring', j, u) {
      assert Holds(h, ring, if j < i then j else j + 1, u);
    }
  }

  /** malloc's other case: the last n units of block i are cut off. */
  lemma CutCycle(h: Headers, base: int, ring: seq<int>, i: nat, n: int)
    requires Cycle(h, base, ring) && 0 < i < |ring| && 0 < n < h.size[ring[i]]
    ensures var rest := h.size[ring[i]] - n;
            Cycle(h.(size := h.size[ring[i] := rest][ring[i] + rest := n]), base, ring)
  {
    Ascending(h, base, ring);
    assert forall j | 0 <= j < |ring| :: ring[j] != ring[i] + h.size[ring[i]] - n by {
      assert forall j | i < j < |ring| :: ring[i] + h.size[ring[i]] < ring[j];
    }
  }

  lemma CutUnits(h: Headers, base: int, ring: seq<int>, i: nat, n: int, u: int)
    requires Cycle(h, base, ring) && 0 < i < |ring| && 0 < n < h.size[ring[i]]
    ensures var rest := h.size[ring[i]] - n;
            InFree(h.(size := h.size[ring[i] := rest][ring[i] + rest := n]), ring, u)
            <==> InFree(h, ring, u) && !(ring[i] + rest <= u < ring[i] + rest + n)
  {
    var rest := h.size[ring[i]] - n;
    var h' := h.(size := h.size[ring[i] := rest][ring[i] + rest := n]);
    Ascending(h, base, ring);
    assert forall j | 0 <= j < |ring| :: ring[j] != ring[i] + rest by {
      assert forall j | i < j < |ring| :: ring[i] + h.size[ring[i]] < ring[j];
    }
    if j :| Holds(h, ring, j, u) && !(ring[i] + rest <= u < ring[i] + rest + n) {
      assert Holds(h', ring, j, u);
    }
    if j :| Holds(h', ring, j, u) {
      assert Holds(h, ring, j, u);
      assert j < i ==> ring[j] + h.size[ring[j]] < ring[i];
      assert j > i ==> ring[i] + h.size[ring[i]] < ring[j];
    }
  }
}
