/** The slab allocator: per-page free lists, and three lists of slabs. */
module Slab {
  import opened Basics
  import opened Lists

  /** sizeof(struct slab), sizeof(struct kmem_cache), and MP2_MIN_AVAIL_SLAB. */
  const SLAB_HEADER := 32
  const CACHE_HEADER := 120
  const MIN_AVAIL := 2

  /** Where a slab is: on one of the lists of the cache, or between them. */
  datatype Where = Full | Partial | Free | Nowhere

  // ---------------------------------------------------------------- the objects of a page

  /** The address of the k-th object of the given size from first on, reached as the source does. */
  ghost function Addr(first: int, size: nat, k: nat): int { if k == 0 then first else Addr(first, size, k - 1) + size }

  /** The addresses of the first n objects. */
  ghost function Objects(first: int, size: nat, n: nat): set<int> {
    if n == 0 then {} else Objects(first, size, n - 1) + {Addr(first, size, n - 1)}
  }

  lemma {:induction false} AddrIs(first: int, size: nat, k: nat)
    ensures Addr(first, size, k) == first + k * size
  {
    if k > 0 {
      AddrIs(first, size, k - 1);
      assert (k - 1) * size + size == k * size;
    }
  }

  lemma {:induction false} ObjectsRange(first: int, size: nat, n: nat)
    requires size > 0
    ensures |Objects(first, size, n)| == n && first <= Addr(first, size, n)
    ensures forall o | o in Objects(first, size, n) :: first <= o && o + size <= Addr(first, size, n)
  {
    if n > 0 {
      ObjectsRange(first, size, n - 1);
    }
  }

  /** Two objects never overlap. */
  lemma {:induction false} ObjectsApart(first: int, size: nat, n: nat)
    requires size > 0
    ensures forall o, o' | o in Objects(first, size, n) && o' in Objects(first, size, n) && o < o' :: o + size <= o'
  {
    if n > 0 {
      ObjectsApart(first, size, n - 1);
      ObjectsRange(first, size, n - 1);
    }
  }

  /** The entries that kmem_cache_create() puts on the free list inside the cache's own page: one at
      least, even when there is no room for it. */
  function InCache(size: nat): nat
    requires size > 0
  {
    if size > PGSIZE - CACHE_HEADER then 1 else (PGSIZE - CACHE_HEADER) / size
  }

  /** They lie within the page exactly up to 3976 bytes an object. */
  lemma InCacheFits(size: nat)
    requires size > 0
    ensures CACHE_HEADER + InCache(size) * size <= PGSIZE <==> size <= 3976
  {
    if size <= PGSIZE - CACHE_HEADER {
      assert (PGSIZE - CACHE_HEADER) / size * size <= PGSIZE - CACHE_HEADER;
    }
  }

  // ---------------------------------------------------------------- free lists

  /** The free list at head runs through the objects of chain, through their first words. */
  ghost predicate ChainOk(next: map<int, int>, head: int, objs: set<int>, chain: seq<int>) {
    && head == (if chain == [] then 0 else chain[0])
    && (forall i {:trigger chain[i]} | 0 <= i < |chain| :: chain[i] in objs && chain[i] in next)
    && (forall i, j | 0 <= i < j < |chain| :: chain[i] != chain[j])
    && (forall i {:trigger NextOk(next, chain, i)} | 0 <= i < |chain| :: NextOk(next, chain, i))
  }

  ghost predicate NextOk(next: map<int, int>, chain: seq<int>, i: nat)
    requires i < |chain|
  {
    chain[i] in next && next[chain[i]] == if i + 1 < |chain| then chain[i + 1] else 0
  }

  ghost predicate LinkedTo(next: map<int, int>, chain: seq<int>, i: nat)
    requires i + 1 < |chain|
  {
    chain[i] in next && next[chain[i]] == chain[i + 1]
  }

  lemma ChainPop(next: map<int, int>, head: int, objs: set<int>, chain: seq<int>)
    requires ChainOk(next, head, objs, chain) && chain != []
    ensures head in next && head in objs && head !in chain[1..] && ChainOk(next, next[head], objs, chain[1..])
  {
    assert NextOk(next, chain, 0);
    forall i {:trigger NextOk(next, chain[1..], i)} | 0 <= i < |chain[1..]| ensures NextOk(next, chain[1..], i) {
      assert NextOk(next, chain, i + 1);
    }
  }

  lemma ChainPush(next: map<int, int>, head: int, objs: set<int>, chain: seq<int>, o: int)
    requires ChainOk(next, head, objs, chain) && o in objs && o !in chain
    ensures ChainOk(next[o := head], o, objs, [o] + chain)
  {
    var next', chain' := next[o := head], [o] + chain;
    forall i {:trigger NextOk(next', chain', i)} | 0 <= i < |chain'| ensures NextOk(next', chain', i) {
      assert i > 0 ==> NextOk(next, chain, i - 1);
    }
  }

  lemma ChainAgree(next: map<int, int>, next': map<int, int>, head: int, objs: set<int>, chain: seq<int>)
    requires ChainOk(next, head, objs, chain)
    requires forall o {:trigger next'[o]} {:trigger o in next'} | o in objs && o in next ::
      o in next' && next'[o] == next[o]
    ensures ChainOk(next', head, objs, chain)
  {
    forall i {:trigger chain[i]} {:trigger NextOk(next', chain, i)} | 0 <= i < |chain|
      ensures chain[i] in next' && NextOk(next', chain, i)
    {
      assert NextOk(next, chain, i);
      var o := chain[i];
      assert o in next' && next'[o] == next[o];
    }
  }

  /** A write to an object of another page. */
  lemma ChainFrame(next: map<int, int>, head: int, objs: set<int>, chain: seq<int>, o: int, x: int)
    requires ChainOk(next, head, objs, chain) && o !in objs
    ensures ChainOk(next[o := x], head, objs, chain)
  {
    forall i {:trigger NextOk(next[o := x], chain, i)} | 0 <= i < |chain| ensures NextOk(next[o := x], chain, i) {
      assert NextOk(next, chain, i);
    }
  }

  lemma ChainMissed(next: map<int, int>, head: int, objs: set<int>, chain: seq<int>, a: int, x: int)
    requires ChainOk(next, head, objs, chain) && a !in chain
    ensures ChainOk(next[a := x], head, objs, chain)
  {
    forall i {:trigger NextOk(next[a := x], chain, i)} | 0 <= i < |chain| ensures NextOk(next[a := x], chain, i) {
      assert NextOk(next, chain, i);
    }
  }

  /** A page whose objects are all on the free list has none left over. */
  lemma {:induction false} ChainSize(chain: seq<int>, objs: set<int>)
    requires (forall i | 0 <= i < |chain| :: chain[i] in objs)
    requires (forall i, j | 0 <= i < j < |chain| :: chain[i] != chain[j])
    ensures |chain| <= |objs| && (|chain| == |objs| <==> forall o | o in objs :: o in chain)
  {
    if chain == [] {
      if objs != {} {
        var o := SomeMember(objs);
        assert o in objs && o !in chain;
      }
    } else {
      var o, rest := chain[0], chain[1..];
      assert forall i | 0 <= i < |rest| :: rest[i] == chain[i + 1];
      ChainSize(rest, objs - {o});
      assert forall p | p in objs - {o} :: p in chain <==> p in rest;
    }
  }

  // ---------------------------------------------------------------- the lists of slabs

  /** The list head of the cache at base for w.  The list node in a slab goes by the address of the
      slab, as list_entry() has it. */
  function Head(base: int, w: Where): int {
    base + if w == Full then 64 else if w == Partial then 80 else 96
  }

  ghost predicate ListOk(links: Links, base: int, list: seq<int>, place: map<int, Where>, w: Where) {
    && Ring(links, [Head(base, w)] + list)
    && (forall i {:trigger list[i]} | 0 <= i < |list| :: list[i] in place && place[list[i]] == w)
  }

  /** The three lists of slabs, in order. */
  datatype SlabLists = SlabLists(full: seq<int>, partial: seq<int>, free: seq<int>) {
    function At(w: Where): seq<int> {
      match w
      case Full => full
      case Partial => partial
      case Free => free
      case Nowhere => []
    }

    function With(w: Where, list: seq<int>): SlabLists {
      match w
      case Full => this.(full := list)
      case Partial => this.(partial := list)
      case Free => this.(free := list)
      case Nowhere => this
    }
  }

  /** Each slab that is anywhere is on the list that place says, and on no other. */
  ghost predicate Listed(links: Links, base: int, lists: SlabLists, place: map<int, Where>) {
    && ListOk(links, base, lists.full, place, Full) && ListOk(links, base, lists.partial, place, Partial)
      && ListOk(links, base, lists.free, place, Free)
    && (forall s {:trigger place[s]} | s in place && place[s] != Nowhere :: s in lists.At(place[s]))
    && (forall s {:trigger s in place} | s in place :: s <= base || base + PGSIZE <= s)
  }

  lemma Separate(links: Links, base: int, list: seq<int>, list': seq<int>, place: map<int, Where>, w: Where, w': Where)
    requires ListOk(links, base, list, place, w) && ListOk(links, base, list', place, w') && w != Nowhere
    requires w' != Nowhere && w != w'
    requires forall s {:trigger s in place} | s in place :: s <= base || base + PGSIZE <= s
    ensures var nodes, other := [Head(base, w)] + list, [Head(base, w')] + list';
            forall i, j | 0 <= i < |nodes| && 0 <= j < |other| :: nodes[i] != other[j]
  {
    var nodes, other := [Head(base, w)] + list, [Head(base, w')] + list';
    forall i, j | 0 <= i < |nodes| && 0 <= j < |other| ensures nodes[i] != other[j] {
      assert i > 0 ==> nodes[i] == list[i - 1];
      assert j > 0 ==> other[j] == list'[j - 1];
    }
  }

  function Without(list: seq<int>, k: nat): seq<int>
    requires k < |list|
  {
    list[..k] + list[k + 1..]
  }

  lemma WithoutHas(list: seq<int>, k: nat, s: int)
    requires k < |list| && s in list && s != list[k]
    ensures s in Without(list, k)
  {
    var i :| 0 <= i < |list| && list[i] == s;
    assert Without(list, k)[if i < k then i else i - 1] == s;
  }

  /** list_del() of a slab takes it off its list, */
  lemma DelThis(links: Links, base: int, list: seq<int>, place: map<int, Where>, w: Where, k: nat)
    requires ListOk(links, base, list, place, w) && k < |list|
    ensures list[k] in links.next && list[k] in links.prev
    ensures ListOk(Del(links, list[k]), base, Without(list, k), place[list[k] := Nowhere], w)
  {
    var nodes, s := [Head(base, w)] + list, list[k];
    assert nodes[k + 1] == s;
    DelRing(links, nodes, k + 1);
    assert nodes[..k + 1] + nodes[k + 2..] == [Head(base, w)] + Without(list, k);
    forall i {:trigger Without(list, k)[i]} | 0 <= i < |list| - 1
      ensures Without(list, k)[i] in place && place[Without(list, k)[i]] == w && Without(list, k)[i] != s
    {
      var j := if i < k then i else i + 1;
      assert Without(list, k)[i] == list[j] == nodes[j + 1];
    }
  }

  /** ... and leaves the other lists alone. */
  lemma DelOther(links: Links, base: int, list: seq<int>, list': seq<int>, place: map<int, Where>, w: Where, w': Where,
                 k: nat)
    requires ListOk(links, base, list, place, w) && ListOk(links, base, list', place, w') && w != Nowhere
    requires w' != Nowhere && w != w' && k < |list|
    requires forall s {:trigger s in place} | s in place :: s <= base || base + PGSIZE <= s
    ensures list[k] in links.next && list[k] in links.prev
    ensures ListOk(Del(links, list[k]), base, list', place[list[k] := Nowhere], w')
  {
    Separate(links, base, list, list', place, w, w');
    var nodes := [Head(base, w)] + list;
    assert nodes[k + 1] == list[k];
    Apart(links, nodes, [Head(base, w')] + list', list[k]);
  }

  lemma Unlisted(links: Links, base: int, lists: SlabLists, place: map<int, Where>, s: int, k: nat)
    requires Listed(links, base, lists, place) && s in place && place[s] != Nowhere
    requires k < |lists.At(place[s])| && lists.At(place[s])[k] == s
    ensures s in links.next && s in links.prev
    ensures Listed(Del(links, s), base, lists.With(place[s], Without(lists.At(place[s]), k)), place[s := Nowhere])
  {
    var w := place[s];
    var list := lists.At(w);
    DelThis(links, base, list, place, w, k);
    if w != Full { DelOther(links, base, list, lists.full, place, w, Full, k); }
    if w != Partial { DelOther(links, base, list, lists.partial, place, w, Partial, k); }
    if w != Free { DelOther(links, base, list, lists.free, place, w, Free, k); }
    forall t | t in place && t != s && place[t] != Nowhere ensures t in lists.With(w, Without(list, k)).At(place[t]) {
      if place[t] == w {
        WithoutHas(list, k, t);
      }
    }
  }

  /** list_add_tail() of a slab puts it at the end of a list, */
  lemma AddThis(links: Links, base: int, list: seq<int>, place: map<int, Where>, w: Where, s: int)
    requires ListOk(links, base, list, place, w) && (s in place ==> place[s] == Nowhere) && w != Nowhere
    requires (s <= base || base + PGSIZE <= s)
    ensures Head(base, w) in links.prev
    ensures ListOk(AddTail(links, s, Head(base, w)), base, list + [s], place[s := w], w)
  {
    var nodes := [Head(base, w)] + list;
    assert nodes[0] == Head(base, w);
    assert s !in nodes by {
      assert s !in list;
    }
    AddTailRing(links, nodes, s);
    assert nodes + [s] == [Head(base, w)] + (list + [s]);
  }

  /** ... and leaves the other lists alone. */
  lemma AddOther(links: Links, base: int, list: seq<int>, list': seq<int>, place: map<int, Where>, w: Where, w': Where,
                 s: int)
    requires ListOk(links, base, list, place, w) && ListOk(links, base, list', place, w') && w != Nowhere
    requires w' != Nowhere && w != w'
    requires (s in place ==> place[s] == Nowhere) && (s <= base || base + PGSIZE <= s)
    requires forall t {:trigger t in place} | t in place :: t <= base || base + PGSIZE <= t
    ensures Head(base, w) in links.prev
    ensures ListOk(AddTail(links, s, Head(base, w)), base, list', place[s := w], w')
  {
    Separate(links, base, list, list', place, w, w');
    var nodes := [Head(base, w)] + list;
    assert nodes[0] == Head(base, w);
    assert s !in [Head(base, w')] + list' by {
      assert s !in list';
    }
    Apart(links, nodes, [Head(base, w')] + list', s);
  }

  /** A slab that is on no list yet. */
  lemma Unplaced(links: Links, base: int, lists: SlabLists, place: map<int, Where>, s: int)
    requires Listed(links, base, lists, place) && s !in place && (s <= base || base + PGSIZE <= s)
    ensures Listed(links, base, lists, place[s := Nowhere])
  {}

  lemma Relisted(links: Links, base: int, lists: SlabLists, place: map<int, Where>, s: int, w: Where)
    requires Listed(links, base, lists, place) && (s in place ==> place[s] == Nowhere) && w != Nowhere
    requires (s <= base || base + PGSIZE <= s)
    ensures Head(base, w) in links.prev
    ensures Listed(AddTail(links, s, Head(base, w)), base, lists.With(w, lists.At(w) + [s]), place[s := w])
  {
    var list := lists.At(w);
    AddThis(links, base, list, place, w, s);
    if w != Full { AddOther(links, base, list, lists.full, place, w, Full, s); }
    if w != Partial { AddOther(links, base, list, lists.partial, place, w, Partial, s); }
    if w != Free { AddOther(links, base, list, lists.free, place, w, Free, s); }
  }

  // ---------------------------------------------------------------- the cache


  lemma PageOf(s: int, o: int)
    requires s % PGSIZE == 0 && s <= o < s + PGSIZE
    ensures o - o % PGSIZE == s
  {}

  class Cache {
    const base: int
    const objectSize: nat
    var links: Links
    var freelist: int
    var slabFree: map<int, int>
    var inUse: map<int, nat>
    var next: map<int, int>
    ghost var lists: SlabLists
    ghost var place: map<int, Where>
    ghost var chains: map<int, seq<int>>

    function Cap(): (n: nat)
      requires objectSize > 0
    {
      (PGSIZE - SLAB_HEADER) / objectSize
    }

    /** The objects of the slab, or of the cache's own page, at s. */
    ghost function Objs(s: int): set<int>
      requires objectSize > 0
    {
      Objects(s + Header(s), objectSize, Room(s))
    }

    /** kmem_cache_create(), in a page from kalloc(). */
    constructor (base: int, objectSize: nat)
      requires 8 <= objectSize <= 3976 && base > 0 && base % PGSIZE == 0
      ensures Valid() && this.base == base && this.objectSize == objectSize
      ensures forall o {:trigger Live(o)} :: !Live(o)
    {
      this.base, this.objectSize := base, objectSize;
      links := Init(Init(Init(Links(map[], map[]), base + 64), base + 80), base + 96);
      lists, place, slabFree, inUse, next := SlabLists([], [], []), map[], map[], map[], map[];
      freelist := base + CACHE_HEADER;
      chains := map[];
      new;
      ghost var chain := InitChain(base + CACHE_HEADER, InCache(objectSize));
      chains := map[base := chain];
      ObjectCount(base);
      ChainSize(chain, Objs(base));
      NoneListed();
    }

    /** The cache has no slabs yet. */
    lemma NoneListed()
      requires links == Init(Init(Init(Links(map[], map[]), base + 64), base + 80), base + 96)
      requires lists == SlabLists([], [], []) && place == map[]
      ensures Listing()
    {
      forall w | w != Nowhere ensures Ring(links, [Head(base, w)]) {
        assert Linked(links, [Head(base, w)], 0);
      }
    }

    /** in_use says which list the slab is on. */
    ghost predicate PlaceOk(s: int)
      requires s in place && s in chains && objectSize > 0
      reads `place, `chains
    {
      match place[s]
      case Full => |chains[s]| == 0
      case Partial => 0 < |chains[s]| < Cap()
      case Free => |chains[s]| == Cap()
      case Nowhere => false
    }

    ghost predicate PagesIn(next: map<int, int>, freelist: int, slabFree: map<int, int>, inUse: map<int, nat>,
                            chains: map<int, seq<int>>)
      requires objectSize > 0
    {
      && 0 < base && base % PGSIZE == 0 && base !in slabFree && chains.Keys == slabFree.Keys + {base}
      && slabFree.Keys == inUse.Keys
      && (forall s {:trigger s in chains} | s in chains :: 0 < s && s % PGSIZE == 0)
      && ChainOk(next, freelist, Objs(base), chains[base])
      && (forall s {:trigger slabFree[s]} | s in slabFree ::
            ChainOk(next, slabFree[s], Objs(s), chains[s]) && inUse[s] == Cap() - |chains[s]|)
    }

    ghost predicate PagesOk()
      requires objectSize > 0
      reads `next, `freelist, `slabFree, `inUse, `chains
    {
      PagesIn(next, freelist, slabFree, inUse, chains)
    }

    /** The three parts of the invariant, each behind its trigger. */
    ghost predicate Pages()
      requires objectSize > 0
      reads `next, `freelist, `slabFree, `inUse, `chains
    {
      forall k {:trigger Key(k, chains)} | Key(k, chains) :: PagesOk()
    }

    ghost predicate Listing()
      reads `links, `lists, `place
    {
      forall k {:trigger Key(k, lists)} | Key(k, lists) ::
        Listed(links, base, lists, place) && |lists.free| <= MIN_AVAIL
    }

    ghost predicate Places(loose: int)
      requires objectSize > 0 && place.Keys <= chains.Keys
      reads `place, `chains
    {
      forall k {:trigger Key(k, place)} | Key(k, place) :: forall s {:trigger place[s]} | s in place && s != loose ::
        PlaceOk(s)
    }

    /** The invariant, but for where the slab loose is: 0 for none. */
    ghost predicate Sound(loose: int) reads this {
      && 8 <= objectSize <= 3976 && place.Keys == slabFree.Keys && chains.Keys == slabFree.Keys + {base}
      && Pages() && Listing() && Places(loose)
    }

    ghost predicate Valid() reads this { Sound(0) }

    /** The slabs to allocate from, in the order of preference. */
    ghost function Available(): seq<int> reads `lists { lists.partial + lists.free }

    /** How many of them there are besides s. */
    ghost function Others(s: int): int
      reads `lists, `place
    {
      |Available()| - if s in place && (place[s] == Partial || place[s] == Free) then 1 else 0
    }

    /** The slab at s goes back to the page pool when one more of its objects is freed. */
    ghost predicate Gives(s: int)
      reads `lists, `place, `inUse
    {
      s in inUse && inUse[s] == 1 && Others(s) >= MIN_AVAIL
    }

    /** The object at o has been handed out and not been freed. */
    ghost predicate Live(o: int)
      requires objectSize > 0
      reads `chains
    {
      LiveIn(chains, o)
    }

    ghost predicate LiveIn(chains: map<int, seq<int>>, o: int)
      requires objectSize > 0
    {
      var s := o - o % PGSIZE;
      s in chains && o in Objs(s) && o !in chains[s]
    }

    /** The header of a page, and how many objects follow it. */
    function Header(s: int): nat { if s == base then CACHE_HEADER else SLAB_HEADER }

    function Room(s: int): nat
      requires objectSize > 0
    {
      if s == base then InCache(objectSize) else Cap()
    }

    lemma RoomFits(s: int)
      requires 8 <= objectSize <= 3976
      ensures Header(s) + Room(s) * objectSize <= PGSIZE && Room(s) > 0
    {
      InCacheFits(objectSize);
      assert Cap() * objectSize <= PGSIZE - SLAB_HEADER;
    }

    /** Every object of a page lies inside the page, behind its header. */
    lemma InPage(s: int, o: int)
      requires 8 <= objectSize <= 3976 && s % PGSIZE == 0 && o in Objs(s)
      ensures s < o && o + objectSize <= s + PGSIZE && o - o % PGSIZE == s
    {
      RoomFits(s);
      AddrIs(s + Header(s), objectSize, Room(s));
      ObjectsRange(s + Header(s), objectSize, Room(s));
      PageOf(s, o);
    }

    lemma ObjectCount(s: int)
      requires 8 <= objectSize <= 3976
      ensures |Objs(s)| == Room(s) > 0
    {
      RoomFits(s);
      ObjectsRange(s + Header(s), objectSize, Room(s));
    }

    lemma SamePageApart(s: int, o: int, o': int)
      requires 8 <= objectSize <= 3976 && o in Objs(s) && o' in Objs(s) && o < o'
      ensures o + objectSize <= o'
    {
      ObjectsApart(s + Header(s), objectSize, Room(s));
    }

    /** Live objects do not overlap. */
    lemma LiveApart(o: int, o': int)
      requires Valid() && Live(o) && Live(o') && o < o'
      ensures o + objectSize <= o'
    {
      var s, s' := o - o % PGSIZE, o' - o' % PGSIZE;
      InPage(s, o);
      InPage(s', o');
      if s == s' {
        SamePageApart(s, o, o');
      }
    }

    /** The words of a live object are no header, and no part of a free list. */
    lemma StoreMisses(o: int, a: int, t: int)
      requires Valid() && Live(o) && o <= a < o + objectSize && t in chains
      ensures a !in chains[t] && !(t <= a < t + Header(t))
    {
      var s := o - o % PGSIZE;
      PageChain(s);
      PageChain(t);
      InPage(s, o);
      ObjectsRange(s + Header(s), objectSize, Room(s));
      RoomFits(t);
      if s == t {
        SamePageMissed(s, o, a);
      } else {
        PageOf(s, a);
        OtherPageMissed(t, a);
      }
    }

    lemma OtherPageMissed(t: int, a: int)
      requires 8 <= objectSize <= 3976 && Pages() && t in chains && a - a % PGSIZE != t
      ensures a !in chains[t] && !(t <= a < t + Header(t))
    {
      PageChain(t);
      RoomFits(t);
      forall c | c in chains[t] ensures c != a {
        InPage(t, c);
      }
      if t <= a < t + Header(t) {
        PageOf(t, a);
      }
    }

    lemma SamePageMissed(s: int, o: int, a: int)
      requires 8 <= objectSize <= 3976 && s in chains
      requires forall c {:trigger c in chains[s]} | c in chains[s] :: c in Objs(s)
      requires o in Objs(s) && o !in chains[s] && o <= a < o + objectSize
      ensures a !in chains[s]
    {
      forall c | c in chains[s] ensures c != a {
        if c < o { SamePageApart(s, c, o); } else { SamePageApart(s, o, c); }
      }
    }

    /** Byte by byte, a word of a live object overlaps no header, and no link of a free list. */
    lemma WordApart(o: int, a: int, t: int)
      requires Valid() && Live(o) && o <= a && a + 8 <= o + objectSize && t in chains
      ensures a + 8 <= t || t + Header(t) <= a
      ensures forall c {:trigger c in chains[t]} | c in chains[t] :: a + 8 <= c || c + 8 <= a
    {
      var s := o - o % PGSIZE;
      PageChain(s);
      PageChain(t);
      InPage(s, o);
      RoomFits(t);
      ObjectsRange(s + Header(s), objectSize, Room(s));
      forall c {:trigger c in chains[t]} | c in chains[t] ensures a + 8 <= c || c + 8 <= a {
        InPage(t, c);
        if s == t {
          if c < o { SamePageApart(s, c, o); } else { SamePageApart(s, o, c); }
        }
      }
    }

    /** The client writes a word into an object that it has. */
    method Store(o: int, a: int, x: int)
      requires Valid() && Live(o) && o <= a < o + objectSize
      modifies `next
      ensures Valid() && next == old(next)[a := x]
      ensures forall s {:trigger s in chains} | s in chains :: !(s <= a < s + Header(s))
    {
      forall t {:trigger chains[t]} {:trigger t in chains} | t in chains
        ensures (t == base || t in slabFree) && ChainOk(next[a := x], HeadOf(t), Objs(t), chains[t])
        ensures !(t <= a < t + Header(t))
      {
        StoreMisses(o, a, t);
        PageChain(t);
        ChainMissed(next, HeadOf(t), Objs(t), chains[t], a, x);
      }
      OpenPages();
      next := next[a := x];
    }

    lemma OpenPages()
      requires objectSize > 0 && Pages()
      ensures PagesOk()
    {
      assert Key(0, chains);
    }

    /** No two pages share an object. */
    lemma OtherPage(s: int, t: int, o: int)
      requires 8 <= objectSize <= 3976 && s % PGSIZE == 0 && t % PGSIZE == 0 && s != t && o in Objs(s)
      ensures o !in Objs(t)
    {
      if o in Objs(t) {
        InPage(s, o);
        InPage(t, o);
      }
    }

    /** The free list of a page, with its head where it is kept. */
    ghost function HeadOf(s: int): int
      requires s == base || s in slabFree
      reads `freelist, `slabFree
    {
      if s == base then freelist else slabFree[s]
    }

    lemma PageChain(s: int)
      requires 8 <= objectSize <= 3976 && Pages() && s in chains
      ensures s % PGSIZE == 0 && s > 0 && (s == base <==> s !in slabFree)
      ensures (s in slabFree ==> s in inUse && inUse[s] == Cap() - |chains[s]|)
      ensures ChainOk(next, HeadOf(s), Objs(s), chains[s])
    {
      OpenPages();
    }

    /** All pages but s still have their free lists when an object of s is written. */
    lemma Written(s: int, o: int, x: int)
      requires 8 <= objectSize <= 3976 && Pages() && s in chains && o in Objs(s)
      ensures forall t {:trigger chains[t]} | t in chains && t != s ::
        (t == base || t in slabFree) && ChainOk(next[o := x], HeadOf(t), Objs(t), chains[t])
    {
      PageChain(s);
      forall t {:trigger chains[t]} | t in chains && t != s
        ensures (t == base || t in slabFree) && ChainOk(next[o := x], HeadOf(t), Objs(t), chains[t])
      {
        PageChain(t);
        OtherPage(s, t, o);
        ChainFrame(next, HeadOf(t), Objs(t), chains[t], o, x);
      }
    }

    /** Takes the first free object of slab s. */
    method PopFree(s: int) returns (obj: int)
      requires 8 <= objectSize <= 3976 && Pages() && s in slabFree && s in chains && chains[s] != []
      requires objectSize > 0 && place.Keys <= chains.Keys && Places(s)
      modifies `slabFree, `inUse, `chains
      ensures Pages() && obj == old(chains[s][0]) && obj in Objs(s) && chains == old(chains)[s := old(chains[s])[1..]]
      ensures obj !in chains[s]
      ensures slabFree.Keys == old(slabFree.Keys) && s in inUse && inUse[s] == Cap() - |chains[s]|
      ensures Places(s)
    {
      assert Key(0, place);
      PagesPopped(s);
      obj := slabFree[s];
      slabFree := slabFree[s := next[obj]];
      inUse := inUse[s := inUse[s] + 1];
      chains := chains[s := chains[s][1..]];
    }

    lemma PagesPopped(s: int)
      requires 8 <= objectSize <= 3976 && Pages() && s in slabFree && s in chains && chains[s] != []
      ensures s in inUse && inUse[s] + 1 == Cap() - |chains[s][1..]| && slabFree[s] == chains[s][0]
      ensures slabFree[s] in next
      ensures slabFree[s] in Objs(s) && slabFree[s] !in chains[s][1..]
      ensures PagesIn(next, freelist, slabFree[s := next[slabFree[s]]], inUse[s := inUse[s] + 1],
        chains[s := chains[s][1..]])
    {
      PageChain(s);
      OpenPages();
      ChainPop(next, slabFree[s], Objs(s), chains[s]);
    }

    lemma PagesPushed(s: int, obj: int)
      requires 8 <= objectSize <= 3976 && Pages() && s in slabFree && s in chains && obj in Objs(s) && obj !in chains[s]
      ensures s in inUse && inUse[s] > 0 && inUse[s] == Cap() - |chains[s]|
      ensures PagesIn(next[obj := slabFree[s]], freelist, slabFree[s := obj], inUse[s := inUse[s] - 1],
        chains[s := [obj] + chains[s]])
    {
      PageChain(s);
      Written(s, obj, slabFree[s]);
      ChainPush(next, slabFree[s], Objs(s), chains[s], obj);
      ObjectCount(s);
      ChainSize([obj] + chains[s], Objs(s));
      OpenPages();
      assert ChainOk(next[obj := slabFree[s]], HeadOf(base), Objs(base), chains[base]);
    }

    /** Puts obj back on the free list of slab s. */
    method PushFree(s: int, obj: int)
      requires 8 <= objectSize <= 3976 && Pages() && s in slabFree && s in chains && obj in Objs(s) && obj !in chains[s]
      requires place.Keys <= chains.Keys && Places(s)
      modifies `slabFree, `inUse, `next, `chains
      ensures Pages() && chains == old(chains)[s := [obj] + old(chains[s])]
      ensures slabFree.Keys == old(slabFree.Keys) && s in inUse && inUse[s] == Cap() - |chains[s]|
      ensures Places(s)
    {
      assert Key(0, place);
      PagesPushed(s, obj);
      next := next[obj := slabFree[s]];
      slabFree := slabFree[s := obj];
      inUse := inUse[s := inUse[s] - 1];
      chains := chains[s := [obj] + chains[s]];
    }

    /** list_del() */
    method Unlink(s: int)
      requires Listing() && s in place && place[s] != Nowhere
      requires objectSize > 0 && place.Keys <= chains.Keys && Places(s)
      modifies `links, `lists, `place
      ensures Listing() && place == old(place)[s := Nowhere] && Others(s) == old(Others(s))
      ensures Places(s)
    {
      assert Key(0, place);
      assert Key(0, lists);
      ghost var list := lists.At(place[s]);
      ghost var k :| 0 <= k < |list| && list[k] == s;
      Unlisted(links, base, lists, place, s, k);
      links := Del(links, s);
      lists := lists.With(place[s], Without(list, k));
      place := place[s := Nowhere];
    }

    /** list_add_tail() */
    method Append(s: int, w: Where)
      requires Listing() && s in place && place[s] == Nowhere && w != Nowhere
      requires (w == Free ==> |lists.free| < MIN_AVAIL)
      requires objectSize > 0 && place.Keys <= chains.Keys && Places(s)
      modifies `links, `lists, `place
      ensures Listing() && place == old(place)[s := w] && Others(s) == old(Others(s))
      ensures Places(s)
    {
      assert Key(0, place);
      assert Key(0, lists);
      Relisted(links, base, lists, place, s, w);
      links := AddTail(links, s, Head(base, w));
      lists := lists.With(w, lists.At(w) + [s]);
      place := place[s := w];
    }

    lemma Loosen(s: int)
      requires objectSize > 0 && place.Keys <= chains.Keys && Places(0) && 0 !in place
      ensures Places(s) && (s in place && s != 0 ==> PlaceOk(s))
    {
      assert Key(0, place);
    }

    lemma Settle(s: int)
      requires objectSize > 0 && place.Keys <= chains.Keys && Places(s) && (s in place ==> PlaceOk(s))
      ensures Places(0)
    {
      assert Key(0, place);
    }

    /** list_for_each_entry(), counting */
    method Count(w: Where) returns (n: nat)
      requires Listing() && w != Nowhere
      ensures n == |lists.At(w)|
    {
      assert Key(0, lists);
      ghost var nodes := [Head(base, w)] + lists.At(w);
      assert Ring(links, nodes) && nodes[0] == Head(base, w);
      n := 0;
      Ends(links, nodes, 0);
      var tmp := links.next[Head(base, w)];
      while tmp != Head(base, w)
        invariant n < |nodes| && tmp == nodes[Succ(n, |nodes|)]
        decreases |nodes| - n
      {
        Ends(links, nodes, n + 1);
        n := n + 1;
        tmp := links.next[tmp];
      }
      assert Succ(n, |nodes|) == 0;
    }

    /** kfree() of a slab that is on no list. */
    method Discard(s: int)
      requires 8 <= objectSize <= 3976 && Pages() && Listing() && s in place && place[s] == Nowhere
      requires place.Keys == slabFree.Keys && chains.Keys == slabFree.Keys + {base} && Places(s)
      modifies `slabFree, `inUse, `place, `chains
      ensures Valid() && chains == old(chains) - {s} && s !in chains
    {
      OpenPages();
      assert Key(0, lists) && Key(0, place);
      slabFree, inUse, place, chains := slabFree - {s}, inUse - {s}, place - {s}, chains - {s};
      assert Listed(links, base, lists, place);
    }

    /** The own page of the cache. */
    method PushCache(obj: int)
      requires Valid() && obj in Objs(base) && obj !in chains[base]
      modifies `freelist, `next, `chains
      ensures Valid() && chains == old(chains)[base := [obj] + old(chains[base])]
    {
      OpenPages();
      assert Key(0, place);
      Written(base, obj, freelist);
      ChainPush(next, freelist, Objs(base), chains[base], obj);
      next := next[obj := freelist];
      freelist := obj;
      chains := chains[base := [obj] + chains[base]];
    }

    /** A push onto the free list of a page makes just that object free. */
    lemma LivePushed(chains: map<int, seq<int>>, s: int, obj: int)
      requires objectSize > 0 && s in chains && obj - obj % PGSIZE == s
      ensures forall o {:trigger LiveIn(chains, o)} {:trigger LiveIn(chains[s := [obj] + chains[s]], o)} ::
        LiveIn(chains[s := [obj] + chains[s]], o) <==> LiveIn(chains, o) && o != obj
    {
      var chains' := chains[s := [obj] + chains[s]];
      forall o ensures LiveIn(chains', o) <==> LiveIn(chains, o) && o != obj {
        if o - o % PGSIZE == s {
          assert o in chains'[s] <==> o == obj || o in chains[s];
        }
      }
    }

    /** A slab whose last object is freed goes, and no object with it that is in use. */
    lemma LiveDiscarded(chains: map<int, seq<int>>, s: int, obj: int)
      requires objectSize > 0 && s in chains && obj - obj % PGSIZE == s && forall o | o in Objs(s) ::
        o == obj || o in chains[s]
      ensures forall o {:trigger LiveIn(chains, o)} {:trigger LiveIn(chains - {s}, o)} ::
        LiveIn(chains - {s}, o) <==> LiveIn(chains, o) && o != obj
    {}

    /** The rest of kmem_cache_free(), for an object in a slab. */
    method FreeInSlab(slab: int, obj: int)
      requires Valid() && slab in slabFree && slab in chains && obj in Objs(slab) && obj !in chains[slab]
      modifies this
      ensures Valid()
      ensures if old(Gives(slab))
              then chains == old(chains) - {slab} && forall o | o in Objs(slab) :: o == obj || o in old(chains[slab])
              else chains == old(chains)[slab := [obj] + old(chains[slab])]
    {
      ghost var chain := chains[slab];
      GiveTo(slab, obj);
      if inUse[slab] == 0 {
        Retire(slab);
        assert forall o | o in [obj] + chain :: o == obj || o in chain;
      } else {
        Settle(slab);
      }
    }

    /** The object goes on the free list of its slab, which is full no more. */
    method GiveTo(slab: int, obj: int)
      requires Valid() && slab in slabFree && slab in chains && obj in Objs(slab) && obj !in chains[slab]
      modifies `slabFree, `inUse, `next, `chains, `links, `lists, `place
      ensures Sound(slab) && slabFree.Keys == old(slabFree.Keys)
      ensures chains == old(chains)[slab := [obj] + old(chains)[slab]]
      ensures slab in old(inUse) && slab in inUse && inUse[slab] + 1 == old(inUse)[slab]
      ensures place[slab] != Nowhere && Others(slab) == old(Others(slab)) && (inUse[slab] > 0 ==> PlaceOk(slab))
    {
      PageChain(slab);
      NotZero();
      Loosen(slab);
      ChainSizeOf(slab, obj);
      PushFree(slab, obj);
      if inUse[slab] == Cap() - 1 {
        Unlink(slab);
        Append(slab, Partial);
      }
    }

    /** The part of kmem_cache_free() for a slab that has become empty: kept if few are available. */
    method Retire(slab: int)
      requires 8 <= objectSize <= 3976 && place.Keys == slabFree.Keys && chains.Keys == slabFree.Keys + {base}
      requires Pages() && Listing() && Places(slab) && slab in slabFree && slab in inUse && inUse[slab] == 0
      requires place[slab] != Nowhere
      modifies `links, `lists, `place, `slabFree, `inUse, `chains
      ensures Valid()
      ensures if old(Others(slab)) < MIN_AVAIL then chains == old(chains)
              else chains == old(chains) - {slab} && forall o | o in Objs(slab) :: o in old(chains[slab])
    {
      PageChain(slab);
      Unlink(slab);
      var partial := Count(Partial);
      var free := Count(Free);
      if partial + free >= MIN_AVAIL {
        AllFree(slab);
        Discard(slab);
      } else {
        Append(slab, Free);
        Settle(slab);
      }
    }

    lemma NotZero()
      requires Valid()
      ensures 0 !in place
    {
      OpenPages();
    }

    method KmemCacheFree(obj: int)
      requires Valid() && Live(obj)
      modifies this
      ensures Valid()
      ensures forall o {:trigger Live(o)} :: Live(o) <==> old(Live(o)) && o != obj
      ensures chains.Keys == old(chains.Keys) - if old(Gives(obj - obj % PGSIZE)) then {obj - obj % PGSIZE} else {}
    {
      ghost var chains0 := chains;
      if base <= obj < base + PGSIZE {
        BasePage(obj);
        LivePushed(chains, base, obj);
        PushCache(obj);
      } else {
        var slab := obj - obj % PGSIZE;
        PageChain(slab);
        LivePushed(chains, slab, obj);
        FreeInSlab(slab, obj);
        if slab !in chains {
          LiveDiscarded(chains0, slab, obj);
        }
      }
      assert forall o {:trigger Live(o)} :: Live(o) <==> LiveIn(chains, o);
    }

    lemma BasePage(obj: int)
      requires Valid() && base <= obj < base + PGSIZE
      ensures obj - obj % PGSIZE == base && base !in inUse
    {
      OpenPages();
      PageOf(base, obj);
    }

    lemma ChainSizeAt(s: int)
      requires 8 <= objectSize <= 3976 && Pages() && s in slabFree && s in chains
      ensures |chains[s]| <= Cap()
    {
      PageChain(s);
      ObjectCount(s);
      ChainSize(chains[s], Objs(s));
    }

    /** A page with a live object is not all free. */
    lemma ChainSizeOf(s: int, obj: int)
      requires 8 <= objectSize <= 3976 && Pages() && s in slabFree && s in chains && obj in Objs(s) && obj !in chains[s]
      ensures |chains[s]| < Cap()
    {
      PageChain(s);
      ObjectCount(s);
      ChainSize(chains[s], Objs(s));
    }

    /** A page that is all free has no live object. */
    lemma AllFree(s: int)
      requires 8 <= objectSize <= 3976 && Pages() && s in slabFree && s in chains && s in inUse && inUse[s] == 0
      ensures forall o | o in Objs(s) :: o in chains[s]
    {
      PageChain(s);
      ObjectCount(s);
      ChainSize(chains[s], Objs(s));
    }

    /** The initial free list of a page: n objects from first on, in order. */
    method InitChain(first: int, n: nat) returns (ghost chain: seq<int>)
      requires 8 <= objectSize <= 3976 && n > 0
      modifies `next
      ensures ChainOk(next, first, Objects(first, objectSize, n), chain) && |chain| == n
      ensures forall o {:trigger next[o]} {:trigger o in next} | o !in Objects(first, objectSize, n) ::
        (o in next <==> o in old(next)) && (o in next ==> next[o] == old(next)[o])
    {
      var run := first;
      chain := [first];
      ghost var objs := {first};
      assert objs == Objects(first, objectSize, 1) by {
        assert Objects(first, objectSize, 0) == {};
      }
      var i := 1;
      while i < n
        invariant 1 <= i <= n && |chain| == i && chain[0] == first
        invariant run == chain[i - 1] == Addr(first, objectSize, i - 1)
        invariant objs == Objects(first, objectSize, i) && forall j {:trigger chain[j]} | 0 <= j < i :: chain[j] in objs
        invariant forall j, k | 0 <= j < k < i :: chain[j] < chain[k]
        invariant forall j {:trigger LinkedTo(next, chain, j)} | 0 <= j < i - 1 :: LinkedTo(next, chain, j)
        invariant forall o {:trigger next[o]} {:trigger o in next} | o !in objs ::
          (o in next <==> o in old(next)) && (o in next ==> next[o] == old(next)[o])
      {
        ghost var chain0, next0 := chain, next;
        next := next[run := run + objectSize];
        run := run + objectSize;
        chain := chain + [run];
        objs := objs + {run};
        forall j {:trigger LinkedTo(next, chain, j)} | 0 <= j < i ensures LinkedTo(next, chain, j) {
          assert j < i - 1 ==> LinkedTo(next0, chain0, j) && chain0[j] < chain0[i - 1];
        }
        i := i + 1;
      }
      ghost var next1 := next;
      next := next[run := 0];
      forall j {:trigger chain[j]} {:trigger NextOk(next, chain, j)} | 0 <= j < n
        ensures chain[j] in next && NextOk(next, chain, j)
      {
        assert j < n - 1 ==> LinkedTo(next1, chain, j) && chain[j] < chain[n - 1];
      }
    }

    /** The slab to allocate from: the first partial one, else a free one, else a new one; 0 when
        there is no page for it. */
    method PickSlab() returns (s: int)
      requires Valid()
      modifies `links, `slabFree, `inUse, `next, `lists, `place, `chains
      ensures s == 0 ==> Valid() && chains == old(chains) && forall t | t in old(slabFree) :: old(chains)[t] == []
      ensures s != 0 ==> Sound(s) && s in slabFree && chains[s] != [] && place[s] == Partial
      ensures s in old(chains) ==> chains == old(chains)
      ensures if old(Available()) != [] then s == old(Available())[0] != 0 && s in old(chains) else s !in old(chains)
      ensures s != 0 && s !in old(chains) ==>
        s % PGSIZE == 0 && chains == old(chains)[s := chains[s]]
        && (forall t | t in old(slabFree) :: old(chains)[t] == []) && forall o | o in Objs(s) :: o in chains[s]
    {
      NotZero();
      Lists();
      if links.next[Head(base, Partial)] != Head(base, Partial) {
        s := links.next[Head(base, Partial)];
        Loosen(s);
      } else if links.next[Head(base, Free)] != Head(base, Free) {
        s := links.next[Head(base, Free)];
        Loosen(s);
        RoomFits(s);
        Unlink(s);
        Append(s, Partial);
      } else {
        NothingAvailable();
        s := NewSlab();
        if s != 0 {
          Append(s, Partial);
        }
      }
    }

    /** A page from kalloc(), made into a slab that is on no list yet.  It is none of the cache's. */
    method NewSlab() returns (s: int)
      requires Valid()
      modifies `slabFree, `inUse, `next, `place, `chains
      ensures s == 0 ==> Valid() && chains == old(chains) && slabFree == old(slabFree)
      ensures s != 0 ==>
        8 <= objectSize <= 3976 && place.Keys == slabFree.Keys && chains.Keys == slabFree.Keys + {base} && Pages()
        && Listing() && Places(s)
      ensures s != 0 ==>
        s !in old(chains) && s in slabFree && place[s] == Nowhere && s % PGSIZE == 0
        && chains == old(chains)[s := chains[s]]
      ensures s != 0 ==> chains[s] != [] && forall o | o in Objs(s) :: o in chains[s]
    {
      s := *;
      if s <= 0 || s % PGSIZE != 0 || s == base || s in slabFree {
        return 0;
      }
      NotZero();
      Loosen(s);
      RoomFits(s);
      OpenPages();
      ghost var next0 := next;
      ghost var chain := InitChain(s + SLAB_HEADER, (PGSIZE - SLAB_HEADER) / objectSize);
      PagesAgree(next0, next, s);
      ObjectCount(s);
      ChainSize(chain, Objs(s));
      AddPage(s, s + SLAB_HEADER, chain);
    }

    /** The fields of a fresh slab are set. */
    method AddPage(s: int, first: int, ghost chain: seq<int>)
      requires 8 <= objectSize <= 3976 && s % PGSIZE == 0 && 0 < s != base && s !in slabFree && s !in chains
      requires place.Keys == slabFree.Keys && chains.Keys == slabFree.Keys + {base}
      requires PagesOk() && Listing() && Places(s)
      requires ChainOk(next, first, Objs(s), chain) && |chain| == Cap()
      modifies `slabFree, `inUse, `place, `chains
      ensures place.Keys == slabFree.Keys && chains.Keys == slabFree.Keys + {base} && Pages() && Listing() && Places(s)
      ensures s in slabFree && place == old(place)[s := Nowhere] && chains == old(chains)[s := chain]
    {
      assert Key(0, lists) && Key(0, place);
      PageBeyond(s);
      Unplaced(links, base, lists, place, s);
      PagesAdded(next, freelist, slabFree, inUse, chains, s, first, chain);
      slabFree, inUse, place, chains := slabFree[s := first], inUse[s := 0], place[s := Nowhere], chains[s := chain];
    }

    lemma PagesAdded(next: map<int, int>, freelist: int, slabFree: map<int, int>, inUse: map<int, nat>,
                     chains: map<int, seq<int>>, s: int, first: int, chain: seq<int>)
      requires objectSize > 0 && PagesIn(next, freelist, slabFree, inUse, chains) && s % PGSIZE == 0 && 0 < s != base
      requires s !in slabFree
      requires ChainOk(next, first, Objs(s), chain) && |chain| == Cap()
      ensures PagesIn(next, freelist, slabFree[s := first], inUse[s := 0], chains[s := chain])
    {}

    /** The chains of all pages survive a change of memory that does not touch their objects. */
    lemma PagesAgree(next: map<int, int>, next': map<int, int>, s: int)
      requires 8 <= objectSize <= 3976 && PagesIn(next, freelist, slabFree, inUse, chains) && s % PGSIZE == 0
      requires s !in chains
      requires forall o {:trigger next'[o]} {:trigger o in next'} | o !in Objs(s) && o in next ::
        o in next' && next'[o] == next[o]
      ensures PagesIn(next', freelist, slabFree, inUse, chains)
    {
      forall t | t in chains ensures ChainOk(next', HeadOf(t), Objs(t), chains[t]) {
        forall o | o in Objs(t) ensures o !in Objs(s) {
          OtherPage(t, s, o);
        }
        assert t in slabFree ==> ChainOk(next, slabFree[t], Objs(t), chains[t]);
        ChainAgree(next, next', HeadOf(t), Objs(t), chains[t]);
      }
      assert ChainOk(next', HeadOf(base), Objs(base), chains[base]);
      forall t {:trigger slabFree[t]} | t in slabFree ensures ChainOk(next', slabFree[t], Objs(t), chains[t]) {
        assert t in chains && HeadOf(t) == slabFree[t];
      }
    }

    lemma PageBeyond(s: int)
      requires s % PGSIZE == 0 && base % PGSIZE == 0 && s != base
      ensures s <= base || base + PGSIZE <= s
    {}

    lemma Lists()
      requires Valid()
      ensures Head(base, Partial) in links.next && Head(base, Free) in links.next
      ensures links.next[Head(base, Partial)] == Head(base, Partial) <==> lists.partial == []
      ensures links.next[Head(base, Free)] == Head(base, Free) <==> lists.free == []
      ensures 0 !in chains && place.Keys <= chains.Keys
      ensures lists.partial != [] ==> links.next[Head(base, Partial)] == lists.partial[0]
      ensures lists.free != [] ==> links.next[Head(base, Free)] == lists.free[0]
      ensures lists.partial != [] ==>
        links.next[Head(base, Partial)] in place && place[links.next[Head(base, Partial)]] == Partial
      ensures lists.free != [] ==> links.next[Head(base, Free)] in place && place[links.next[Head(base, Free)]] == Free
    {
      assert Key(0, lists);
      OpenPages();
      var partial, free := [Head(base, Partial)] + lists.partial, [Head(base, Free)] + lists.free;
      assert partial[0] == Head(base, Partial) && free[0] == Head(base, Free);
      Empty(links, partial);
      Empty(links, free);
      assert |partial| > 1 ==> partial[1] == lists.partial[0];
      assert |free| > 1 ==> free[1] == lists.free[0];
    }

    lemma NothingAvailable()
      requires Valid() && lists.partial == [] && lists.free == []
      ensures forall t | t in slabFree :: chains[t] == []
    {
      assert Key(0, lists) && Key(0, place);
      OpenPages();
      forall t | t in slabFree ensures chains[t] == [] {
        assert place[t] == Full && PlaceOk(t);
      }
    }

    /** Takes the first object of the cache's own page. */
    method PopCache() returns (obj: int)
      requires Valid() && freelist != 0
      modifies `freelist, `chains
      ensures Valid() && base in old(chains) && old(chains[base]) != [] && obj == old(chains[base][0]) == old(freelist)
      ensures obj in Objs(base)
      ensures chains == old(chains)[base := old(chains[base])[1..]] && obj !in chains[base] && base % PGSIZE == 0
    {
      OpenPages();
      assert Key(0, place);
      ChainPop(next, freelist, Objs(base), chains[base]);
      obj := freelist;
      freelist := next[freelist];
      chains := chains[base := chains[base][1..]];
    }

    /** A pop from the free list of a page makes just that object live. */
    lemma LivePopped(chains: map<int, seq<int>>, s: int, chain: seq<int>, obj: int)
      requires objectSize > 0 && (s in chains ==> chains[s] == [obj] + chain)
      requires (s !in chains ==> forall o | o in Objs(s) :: o in [obj] + chain)
      requires obj in Objs(s) && obj - obj % PGSIZE == s && obj !in chain
      ensures !LiveIn(chains, obj)
      ensures forall o {:trigger LiveIn(chains, o)} {:trigger LiveIn(chains[s := chain], o)} ::
        LiveIn(chains[s := chain], o) <==> LiveIn(chains, o) || o == obj
    {
      forall o ensures LiveIn(chains[s := chain], o) <==> LiveIn(chains, o) || o == obj {
        if o - o % PGSIZE == s {
          assert o in [obj] + chain <==> o == obj || o in chain;
        }
      }
    }

    /** The rest of kmem_cache_alloc(), when the cache's own page has nothing left. */
    method AllocInSlab() returns (obj: int)
      requires Valid()
      modifies this
      ensures Valid()
      ensures obj == 0 ==>
        chains == old(chains) && forall t | t in old(slabFree) :: t in old(chains) && old(chains)[t] == []
      ensures obj != 0 ==>
        !LiveIn(old(chains), obj) && forall o {:trigger LiveIn(chains, o)} ::
        LiveIn(chains, o) <==> LiveIn(old(chains), o) || o == obj
      ensures if old(Available()) != []
              then obj != 0 && obj - obj % PGSIZE == old(Available())[0] && chains.Keys == old(chains.Keys)
              else obj != 0 ==>
                obj - obj % PGSIZE !in old(chains) && chains.Keys == old(chains.Keys) + {obj - obj % PGSIZE}
    {
      ghost var chains0 := chains;
      var s := PickSlab();
      if s == 0 {
        return 0;
      }
      obj := TakeFrom(s);
      LivePopped(chains0, s, chains[s], obj);
      assert chains == chains0[s := chains[s]];
    }

    method TakeFrom(s: int) returns (obj: int)
      requires Sound(s) && s in slabFree && chains[s] != [] && place[s] == Partial
      modifies `slabFree, `inUse, `chains, `links, `lists, `place
      ensures Valid() && s in chains && chains == old(chains)[s := chains[s]] && old(chains)[s] == [obj] + chains[s]
      ensures obj in Objs(s) && obj !in chains[s] && obj - obj % PGSIZE == s != 0 && obj != 0
    {
      PageChain(s);
      ChainSizeAt(s);
      obj := PopFree(s);
      InPage(s, obj);
      MoveIfFull(s);
    }

    /** The end of kmem_cache_alloc(): a slab without free objects moves to its list. */
    method MoveIfFull(s: int)
      requires 8 <= objectSize <= 3976 && place.Keys == slabFree.Keys && chains.Keys == slabFree.Keys + {base}
      requires Pages() && Listing() && Places(s) && s in slabFree && s in inUse && place[s] == Partial
      requires |chains[s]| < Cap()
      modifies `links, `lists, `place
      ensures Valid()
    {
      PageChain(s);
      if inUse[s] == Cap() {
        Unlink(s);
        Append(s, Full);
      }
      Settle(s);
    }

    method KmemCacheAlloc() returns (obj: int)
      requires Valid()
      modifies this
      ensures Valid()
      ensures obj == 0 ==> forall o {:trigger Live(o)} :: Live(o) <==> old(Live(o))
      ensures obj == 0 ==>
        old(freelist) == 0 && forall t | t in old(slabFree) :: t in old(chains) && old(chains)[t] == []
      ensures obj != 0 ==> !old(Live(obj)) && forall o {:trigger Live(o)} :: Live(o) <==> old(Live(o)) || o == obj
      ensures if old(freelist) != 0 then obj == old(freelist) && chains.Keys == old(chains.Keys)
              else if old(Available()) != [] then obj != 0 && obj - obj % PGSIZE == old(Available())[0]
                && chains.Keys == old(chains.Keys)
              else obj != 0 ==>
                obj - obj % PGSIZE !in old(chains) && chains.Keys == old(chains.Keys) + {obj - obj % PGSIZE}
    {
      ghost var chains0 := chains;
      if freelist != 0 {
        obj := PopCache();
        InPage(base, obj);
        LivePopped(chains0, base, chains[base], obj);
        assert chains == chains0[base := chains[base]];
      } else {
        obj := AllocInSlab();
      }
      assert forall o {:trigger Live(o)} :: Live(o) <==> LiveIn(chains, o);
    }
  }
}
