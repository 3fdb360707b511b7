/** The page allocator and the user page-table operations, in place on physical memory. */
module Vm {
  import opened Basics
  import opened Sv39

  /** How a call ends: normally, for lack of memory, or in a kernel panic. */
  datatype Outcome = Done | NoMemory | Panic

  /** view' is view with the n pages from v, none of them in it, mapped to the frames from ppn. */
  ghost predicate Mapped(view: map<int, Word>, view': map<int, Word>, v: int, n: nat, ppn: int, perm: Flags) {
    && (forall u {:trigger u in view'} {:trigger u in view} | v <= u < v + n ::
          u !in view && u in view' && view'[u] == Pte(ppn + u - v, perm))
    && (forall u {:trigger u in view'} {:trigger u in view} | !(v <= u < v + n) ::
          (u in view' <==> u in view) && (u in view ==> view'[u] == view[u]))
  }

  /** view' is view without the n pages from v, all of them in it. */
  ghost predicate Unmapped(view: map<int, Word>, view': map<int, Word>, v: int, n: nat) {
    && (forall u {:trigger u in view'} {:trigger u in view} | v <= u < v + n :: u in view && u !in view')
    && (forall u {:trigger u in view'} {:trigger u in view} | !(v <= u < v + n) ::
          (u in view' <==> u in view) && (u in view ==> view'[u] == view[u]))
  }

  lemma MappedMore(view: map<int, Word>, view': map<int, Word>, v: int, n: nat, ppn: int, perm: Flags)
    requires Mapped(view, view', v, n, ppn, perm)
    ensures v + n in view <==> v + n in view'
    ensures v + n !in view ==> Mapped(view, view'[v + n := Pte(ppn + n, perm)], v, n + 1, ppn, perm)
  {}

  lemma UnmappedMore(view: map<int, Word>, view': map<int, Word>, v: int, n: nat)
    requires Unmapped(view, view', v, n)
    ensures (v + n in view <==> v + n in view') && (v + n in view ==> view[v + n] == view'[v + n])
    ensures v + n in view ==> Unmapped(view, view' - {v + n}, v, n + 1)
  {}

  /** Unmapping what was mapped restores the map. */
  lemma MapUnmap(view: map<int, Word>, view': map<int, Word>, view'': map<int, Word>, v: int, n: nat, ppn: int,
                 perm: Flags)
    requires Mapped(view, view', v, n, ppn, perm) && Unmapped(view', view'', v, n)
    ensures view'' == view
  {
    forall u ensures u in view'' <==> u in view {
      assert u in view' || u !in view';
    }
    forall u | u in view ensures view''[u] == view[u] {
      assert u in view';
    }
  }

  /** Nothing but the tables of the space at root has changed, and they only by taking free pages. */
  ghost predicate TablesGrew(mem: map<int, Page>, owner: map<int, Owner>, mem': map<int, Page>, owner': map<int, Owner>,
                             root: int) {
    && mem.Keys == owner.Keys == owner'.Keys == mem'.Keys
    && (forall p {:trigger owner'[p]} | p in owner ::
          owner'[p] == owner[p] || (owner[p] == Free && TableOf(owner'[p], root)))
    && (forall p {:trigger mem'[p]} | p in owner && owner[p] != Free && !TableOf(owner[p], root) :: mem'[p] == mem[p])
  }

  lemma GrewTrans(mem: map<int, Page>, owner: map<int, Owner>, mem': map<int, Page>, owner': map<int, Owner>,
                  mem'': map<int, Page>, owner'': map<int, Owner>, root: int)
    requires TablesGrew(mem, owner, mem', owner', root) && TablesGrew(mem', owner', mem'', owner'', root)
    ensures TablesGrew(mem, owner, mem'', owner'', root)
  {}

  /** Page v can be unmapped: it is mapped, as a leaf, and its frame can go back to the pool. */
  ghost predicate CanUnmap(view: map<int, Word>, owner: map<int, Owner>, v: int, doFree: bool) {
    v < MAXVPN && v in view && view[v].flags != NONE.(v := true) && (doFree ==> view[v].ppn in owner)
  }

  ghost predicate FrameIsUsers(view: map<int, Word>, owner: map<int, Owner>, root: int, v: int)
    requires v in view
  {
    view[v].ppn in owner ==> owner[view[v].ppn] == User(root, v)
  }

  /** The user pages at the n page numbers from v have gone to o, and nothing else changed hands. */
  ghost predicate Released(owner: map<int, Owner>, owner': map<int, Owner>, root: int, v: int, n: nat, o: Owner) {
    && owner'.Keys == owner.Keys
    && (forall p {:trigger owner'[p]} {:trigger owner[p]} | p in owner ::
          owner'[p] == if owner[p].User? && owner[p].root == root && v <= owner[p].v < v + n then o else owner[p])
  }

  /** Pages that stay in use, other than tables of root, keep their content. */
  ghost predicate KeptData(mem: map<int, Page>, owner: map<int, Owner>, mem': map<int, Page>, owner': map<int, Owner>,
                           root: int) {
    && mem.Keys == owner.Keys == owner'.Keys == mem'.Keys
    && (forall p {:trigger mem'[p]} | p in owner && owner'[p] == owner[p] && owner[p] != Free && !TableOf(owner[p],
      root) :: mem'[p] == mem[p])
  }

  lemma ReleasedMore(mem: map<int, Page>, owner: map<int, Owner>, mem': map<int, Page>, owner': map<int, Owner>,
                     mem'': map<int, Page>, owner'': map<int, Owner>, root: int, v: int, n: nat, o: Owner)
    requires Released(owner, owner', root, v, n, o) && Released(owner', owner'', root, v + n, 1, o) && !o.User?
    requires KeptData(mem, owner, mem', owner', root) && KeptData(mem', owner', mem'', owner'', root)
    ensures Released(owner, owner'', root, v, n + 1, o) && KeptData(mem, owner, mem'', owner'', root)
  {
    forall p {:trigger owner''[p]} {:trigger mem''[p]} | p in owner && owner''[p] == owner[p]
      ensures owner'[p] == owner[p]
    {}
  }

  /** What a fresh page of user memory is to look like. */
  datatype Want = Want(perm: Flags, page: Page)

  /** Page u is mapped to a frame of its own, with the content and the permissions of w. */
  ghost predicate Backed(view: map<int, Word>, owner: map<int, Owner>, mem: map<int, Page>, root: int, u: int,
                         w: Want) {
    && u in view && view[u].flags == w.perm.(v := true)
    && view[u].ppn in owner && owner[view[u].ppn] == User(root, u)
    && view[u].ppn in mem && mem[view[u].ppn] == w.page
  }

  predicate UserIn(o: Owner, root: int, v: int, n: nat) { o.User? && o.root == root && v <= o.v < v + n }

  /** The map has gained the pages wanted from v on. */
  ghost predicate GrownView(view: map<int, Word>, view': map<int, Word>, owner': map<int, Owner>, mem': map<int, Page>,
                            root: int, v: int, want: seq<Want>) {
    && (forall u {:trigger u in view'} {:trigger u in view} | v <= u < v + |want| :: u !in view && u in view')
    && (forall u {:trigger u in view'} | u in view' && v <= u < v + |want| ::
          Backed(view', owner', mem', root, u, want[u - v]))
    && (forall u {:trigger u in view'} {:trigger u in view} | !(v <= u < v + |want|) ::
          (u in view' <==> u in view) && (u in view ==> view'[u] == view[u]))
  }

  /** Free pages have become user pages, at the n page numbers from v, or tables; nothing else
      changed hands. */
  ghost predicate GrownOwner(owner: map<int, Owner>, owner': map<int, Owner>, root: int, v: int, n: nat) {
    && owner'.Keys == owner.Keys
    && (forall p {:trigger owner'[p]} | p in owner ::
          owner'[p] == owner[p] || (owner[p] == Free && (TableOf(owner'[p], root) || UserIn(owner'[p], root, v, n))))
  }

  ghost predicate Grown(view: map<int, Word>, owner: map<int, Owner>, view': map<int, Word>, owner': map<int, Owner>,
                        mem': map<int, Page>,
                        root: int, v: int, want: seq<Want>) {
    GrownView(view, view', owner', mem', root, v, want) && GrownOwner(owner, owner', root, v, |want|)
  }

  lemma GrownMore(mem: map<int, Page>, view: map<int, Word>, owner: map<int, Owner>,
                  mem': map<int, Page>, view': map<int, Word>, owner': map<int, Owner>,
                  mem'': map<int, Page>, view'': map<int, Word>, owner'': map<int, Owner>,
                  root: int, v: int, want: seq<Want>, w: Want)
    requires Grown(view, owner, view', owner', mem', root, v, want) && KeptData(mem, owner, mem', owner', root)
    requires Grown(view', owner', view'', owner'', mem'', root, v + |want|, [w])
    requires KeptData(mem', owner', mem'', owner'', root)
    ensures Grown(view, owner, view'', owner'', mem'', root, v, want + [w])
    ensures KeptData(mem, owner, mem'', owner'', root)
  {
    GrownMoreView(mem', view, view', owner', mem'', view'', owner'', root, v, want, w, want + [w]);
    forall p {:trigger owner''[p]} {:trigger mem''[p]} | p in owner
      ensures owner''[p] == owner[p]
        || (owner[p] == Free && (TableOf(owner''[p], root) || UserIn(owner''[p], root, v, |want + [w]|)))
      ensures owner''[p] == owner[p] ==> owner'[p] == owner[p]
    {
      OwnerMore(owner[p], owner'[p], owner''[p], root, v, |want|);
    }
  }

  lemma GrownMoreView(mem': map<int, Page>, view: map<int, Word>, view': map<int, Word>, owner': map<int, Owner>,
                      mem'': map<int, Page>, view'': map<int, Word>, owner'': map<int, Owner>,
                      root: int, v: int, want: seq<Want>, w: Want, want': seq<Want>)
    requires GrownView(view, view', owner', mem', root, v, want) && want' == want + [w]
    requires GrownView(view', view'', owner'', mem'', root, v + |want|, [w])
    requires GrownOwner(owner', owner'', root, v + |want|, 1) && KeptData(mem', owner', mem'', owner'', root)
    ensures GrownView(view, view'', owner'', mem'', root, v, want')
  {
    forall u {:trigger u in view''} {:trigger u in view} | v <= u < v + |want'|
      ensures u !in view && u in view'' && Backed(view'', owner'', mem'', root, u, want'[u - v])
    {
      assert (u in view' || u !in view') && (u in view'' || u !in view'');
      if u < v + |want| {
        var p := view'[u].ppn;
        assert owner''[p] == owner'[p] && mem''[p] == mem'[p];
      }
    }
    forall u {:trigger u in view''} {:trigger u in view} | !(v <= u < v + |want'|)
      ensures (u in view'' <==> u in view) && (u in view ==> view''[u] == view[u])
    {
      assert (u in view' || u !in view') && (u in view'' || u !in view'');
    }
  }

  lemma OwnerMore(o: Owner, o': Owner, o'': Owner, root: int, v: int, n: nat)
    requires o' == o || (o == Free && (TableOf(o', root) || UserIn(o', root, v, n)))
    requires o'' == o' || (o' == Free && (TableOf(o'', root) || UserIn(o'', root, v + n, 1)))
    ensures o'' == o || (o == Free && (TableOf(o'', root) || UserIn(o'', root, v, n + 1)))
    ensures o'' == o ==> o' == o
  {}

  lemma OwnerUndone(o: Owner, o': Owner, o'': Owner, root: int, v: int, n: nat)
    requires !UserIn(o, root, v, n)
    requires o' == o || (o == Free && (TableOf(o', root) || UserIn(o', root, v, n)))
    requires o'' == if UserIn(o', root, v, n) then Free else o'
    ensures o'' == o || (o == Free && TableOf(o'', root))
    ensures o != Free ==> o' == o
  {}

  /** Unmapping and freeing the pages that were added leaves only the new tables behind. */
  lemma Undone(mem: map<int, Page>, view: map<int, Word>, owner: map<int, Owner>,
               mem': map<int, Page>, view': map<int, Word>, owner': map<int, Owner>,
               mem'': map<int, Page>, view'': map<int, Word>, owner'': map<int, Owner>,
               root: int, v: int, want: seq<Want>)
    requires Grown(view, owner, view', owner', mem', root, v, want) && KeptData(mem, owner, mem', owner', root)
    requires Unmapped(view', view'', v, |want|) && Released(owner', owner'', root, v, |want|, Free)
    requires KeptData(mem', owner', mem'', owner'', root)
    requires forall p {:trigger owner[p]} | p in owner :: !UserIn(owner[p], root, v, |want|)
    ensures view'' == view && TablesGrew(mem, owner, mem'', owner'', root)
  {
    forall u ensures u in view'' <==> u in view {
      assert u in view' || u !in view';
    }
    forall u | u in view ensures view''[u] == view[u] {
      assert u in view';
    }
    forall p {:trigger owner''[p]} {:trigger mem''[p]} | p in owner
      ensures owner''[p] == owner[p] || (owner[p] == Free && TableOf(owner''[p], root))
      ensures owner[p] != Free && !TableOf(owner[p], root) ==> mem''[p] == mem[p]
    {
      OwnerUndone(owner[p], owner'[p], owner''[p], root, v, |want|);
      assert owner[p] != Free && !TableOf(owner[p], root) ==> mem'[p] == mem[p];
    }
  }

  ghost predicate SameView(spaces: map<int, Space>, spaces': map<int, Space>, root: int) {
    root in spaces && root in spaces' && spaces' == spaces[root := spaces'[root]]
      && spaces'[root].view == spaces[root].view
  }

  lemma PageAddress(v: nat)
    ensures v * PGSIZE / PGSIZE == v && v * PGSIZE % PGSIZE == 0
  {}

  function PgRoundUp(sz: nat): nat { (sz + PGSIZE - 1) / PGSIZE * PGSIZE }

  /** The pages that a memory of sz bytes occupies. */
  function Pages(sz: nat): nat { (sz + PGSIZE - 1) / PGSIZE }

  lemma MorePages(sz: nat, v: nat)
    requires v * PGSIZE < sz
    ensures v < Pages(sz)
  {}

  lemma NoMorePages(sz: nat, v: nat)
    requires sz <= v * PGSIZE
    ensures Pages(sz) <= v
  {}

  lemma PagesGrow(oldsz: nat, newsz: nat)
    requires oldsz <= newsz
    ensures Pages(oldsz) <= Pages(newsz) && PgRoundUp(oldsz) == Pages(oldsz) * PGSIZE
  {}

  // ---------------------------------------------------------------- how many pages tables take

  /** The regions of 512 pages, and those of 512 times 512, in which n pages from v lie.  Each of them takes a
      level-0 table, or a level-1 table. */
  ghost function Regions(v: int, n: int): set<int> { set u | v <= u < v + n :: u / ENTRIES }
  ghost function Spans(v: int, n: int): set<int> { set u | v <= u < v + n :: u / ENTRIES / ENTRIES }

  /** How many tables n pages from v lack. */
  ghost function Tables(sp: Space, v: int, n: int): nat {
    |Regions(v, n) - sp.low.Keys| + |Spans(v, n) - sp.mid.Keys|
  }

  /** The table below a level for page v is there. */
  predicate HasTable(sp: Space, level: int, v: int) {
    if level == 2 then v / ENTRIES / ENTRIES in sp.mid else v / ENTRIES in sp.low
  }

  function Lacks(sp: Space, v: int): nat {
    (if HasTable(sp, 1, v) then 0 else 1) + (if HasTable(sp, 2, v) then 0 else 1)
  }

  /** The tables for page v are there. */
  ghost predicate Tabled(sp: Space, sp': Space, v: int) {
    && sp'.low.Keys == sp.low.Keys + {v / ENTRIES} && sp'.mid.Keys == sp.mid.Keys + {v / ENTRIES / ENTRIES}
  }

  /** A space has gained the tables for n pages from v; with m frames they have made f free pages f'. */
  ghost predicate Paid(sp: Space, sp': Space, f: int, f': int, m: int, v: int, n: int) {
    forall k {:trigger Key(k, sp')} | Key(k, sp') ::
      && f == f' + m + Tables(sp, v, n)
      && sp'.low.Keys == sp.low.Keys + Regions(v, n) && sp'.mid.Keys == sp.mid.Keys + Spans(v, n)
  }

  /** f pages are too few for the tables of n pages from v, and m frames. */
  ghost predicate Short(sp: Space, f: int, m: int, v: int, n: int) {
    forall k {:trigger Key(k, sp)} | Key(k, sp) :: f < m + Tables(sp, v, n)
  }

  lemma ShortIs(sp: Space, f: int, m: int, v: int, n: int)
    requires Short(sp, f, m, v, n)
    ensures f < m + Tables(sp, v, n)
  {
    assert Key(0, sp);
  }

  lemma PaidIs(sp: Space, sp': Space, f: int, f': int, m: int, v: int, n: int)
    requires Paid(sp, sp', f, f', m, v, n)
    ensures f == f' + m + Tables(sp, v, n)
    ensures sp'.low.Keys == sp.low.Keys + Regions(v, n) && sp'.mid.Keys == sp.mid.Keys + Spans(v, n)
  {
    assert Key(0, sp');
  }

  lemma NoRegion(v: int)
    ensures Regions(v, 0) == {} && Spans(v, 0) == {}
  {}

  lemma PaidNone(sp: Space, f: int, v: int)
    ensures Paid(sp, sp, f, f, 0, v, 0)
  {
    NoRegion(v);
  }

  lemma OneMoreRegion(v: int, n: nat)
    ensures Regions(v, n + 1) == Regions(v, n) + {(v + n) / ENTRIES}
    ensures Spans(v, n + 1) == Spans(v, n) + {(v + n) / ENTRIES / ENTRIES}
  {
    forall k | k in Regions(v, n) ensures k in Regions(v, n + 1) {
      var u :| v <= u < v + n && k == u / ENTRIES;
      assert v <= u < v + n + 1;
    }
    forall k | k in Spans(v, n) ensures k in Spans(v, n + 1) {
      var u :| v <= u < v + n && k == u / ENTRIES / ENTRIES;
      assert v <= u < v + n + 1;
    }
    assert v <= v + n < v + n + 1;
  }

  lemma AddedOne(a: set<int>, b: set<int>, x: int)
    ensures |(a + {x}) - b| == |a - b| + if x in a + b then 0 else 1
  {
    if x in b {
      assert (a + {x}) - b == a - b;
    } else if x in a {
      assert a + {x} == a;
    } else {
      assert x !in a - b && x !in a + b && (a + {x}) - b == (a - b) + {x};
      assert |(a - b) + {x}| == |a - b| + 1;
    }
  }

  lemma OneMoreTable(sp: Space, v: int, n: nat)
    ensures Tables(sp, v, n + 1) == Tables(sp, v, n)
      + (if (v + n) / ENTRIES in Regions(v, n) + sp.low.Keys then 0 else 1)
      + (if (v + n) / ENTRIES / ENTRIES in Spans(v, n) + sp.mid.Keys then 0 else 1)
  {
    OneMoreRegion(v, n);
    AddedOne(Regions(v, n), sp.low.Keys, (v + n) / ENTRIES);
    AddedOne(Spans(v, n), sp.mid.Keys, (v + n) / ENTRIES / ENTRIES);
  }

  lemma OneRegion(v: int)
    ensures Regions(v, 1) == {v / ENTRIES} && Spans(v, 1) == {v / ENTRIES / ENTRIES}
  {
    NoRegion(v);
    OneMoreRegion(v, 0);
  }

  lemma OneTable(sp: Space, v: int)
    ensures Tables(sp, v, 1) == Lacks(sp, v)
  {
    OneRegion(v);
    OneLacking(v / ENTRIES, sp.low.Keys);
    OneLacking(v / ENTRIES / ENTRIES, sp.mid.Keys);
  }

  lemma OneLacking(x: int, b: set<int>)
    ensures |{x} - b| == if x in b then 0 else 1
  {
    assert {x} - b == if x in b then {} else {x};
  }

  /** What one page more takes, */
  lemma NextTables(sp: Space, sp': Space, f: int, f': int, m: int, v: int, n: nat)
    requires Paid(sp, sp', f, f', m, v, n)
    ensures Tables(sp, v, n + 1) == f - f' - m + Lacks(sp', v + n)
  {
    PaidIs(sp, sp', f, f', m, v, n);
    OneMoreTable(sp, v, n);
  }

  lemma PaidMore(sp: Space, sp': Space, sp'': Space, f: int, f': int, f'': int, m: int, m': int, v: int, n: nat)
    requires Paid(sp, sp', f, f', m, v, n) && Tabled(sp', sp'', v + n)
    requires f'' + m' == f' + m - Lacks(sp', v + n)
    ensures Paid(sp, sp'', f, f'', m', v, n + 1)
  {
    NextTables(sp, sp', f, f', m, v, n);
    PaidIs(sp, sp', f, f', m, v, n);
    KeysMore(sp, sp', sp'', v, n);
  }

  lemma KeysMore(sp: Space, sp': Space, sp'': Space, v: int, n: nat)
    requires sp'.low.Keys == sp.low.Keys + Regions(v, n) && sp'.mid.Keys == sp.mid.Keys + Spans(v, n)
    requires Tabled(sp', sp'', v + n)
    ensures sp''.low.Keys == sp.low.Keys + Regions(v, n + 1) && sp''.mid.Keys == sp.mid.Keys + Spans(v, n + 1)
  {
    OneMoreRegion(v, n);
    UnionMore(sp.low.Keys, Regions(v, n), {(v + n) / ENTRIES});
    UnionMore(sp.mid.Keys, Spans(v, n), {(v + n) / ENTRIES / ENTRIES});
  }

  lemma UnionMore<T>(a: set<T>, b: set<T>, c: set<T>)
    ensures a + b + c == a + (b + c)
  {}

  /** a page for which there is nothing left, after `done` of n pages, */
  lemma ShortAt(sp: Space, sp': Space, f: int, f': int, m: int, m': int, v: int, done: nat, n: nat)
    requires Paid(sp, sp', f, f', m, v, done) && f' + m < m' + Lacks(sp', v + done) && done < n
    ensures Short(sp, f, m', v, n)
  {
    NextTables(sp, sp', f, f', m, v, done);
    TablesGrow(sp, v, done + 1, n);
  }

  lemma OnePaid(sp: Space, sp': Space, f: int, f': int, m: int, v: int)
    requires Paid(sp, sp', f, f', m, v, 1)
    ensures f == f' + m + Lacks(sp, v) && Tabled(sp, sp', v)
  {
    OneTable(sp, v);
    OneRegion(v);
    PaidIs(sp, sp', f, f', m, v, 1);
  }

  lemma OneShort(sp: Space, f: int, m: int, v: int)
    requires Short(sp, f, m, v, 1)
    ensures f < m + Lacks(sp, v)
  {
    OneTable(sp, v);
    ShortIs(sp, f, m, v, 1);
  }

  /** and more pages take no less. */
  lemma {:induction false} TablesGrow(sp: Space, v: int, n: nat, m: nat)
    requires n <= m
    ensures Tables(sp, v, n) <= Tables(sp, v, m)
    decreases m - n
  {
    if n < m {
      OneMoreTable(sp, v, n);
      TablesGrow(sp, v, n + 1, m);
    }
  }

  /** Page u from v up to e is mapped already, or lies beyond all addresses. */
  ghost predicate Bars(view: map<int, Word>, u: int, v: int, e: int) { v <= u < e && (u in view || u >= MAXVPN) }

  /** f free pages are enough for the pages from v up to e: for their frames, and the tables that they lack. */
  ghost predicate Enough(f: int, sp: Space, v: int, e: int) {
    forall n {:trigger Key(n, sp)} | Key(n, sp) && n == e - v :: n + Tables(sp, v, n) <= f
  }

  lemma EnoughIs(f: int, sp: Space, v: int, n: int, e: int)
    requires n == e - v
    ensures Enough(f, sp, v, e) <==> n + Tables(sp, v, n) <= f
  {
    assert Key(n, sp);
    if n + Tables(sp, v, n) <= f {
      forall m {:trigger Key(m, sp)} | Key(m, sp) && m == e - v ensures m + Tables(sp, v, m) <= f {
        assert m == n;
      }
    }
  }

  lemma NotEnough(f: int, sp: Space, v: int, n: int, e: int)
    requires Short(sp, f, n, v, n) && n == e - v
    ensures !Enough(f, sp, v, e)
  {
    ShortIs(sp, f, n, v, n);
    EnoughIs(f, sp, v, n, e);
  }

  lemma WasEnough(f: int, f': nat, sp: Space, sp': Space, v: int, n: int, e: int)
    requires Paid(sp, sp', f, f', n, v, n) && n == e - v
    ensures Enough(f, sp, v, e)
  {
    PaidIs(sp, sp', f, f', n, v, n);
    EnoughIs(f, sp, v, n, e);
  }

  /** n pages from 0 on lie in so many regions. */
  lemma {:induction false} RegionsFromZero(n: nat)
    ensures |Regions(0, n)| == (n + ENTRIES - 1) / ENTRIES
  {
    if n == 0 {
      assert Regions(0, 0) == {};
    } else {
      RegionsFromZero(n - 1);
      OneMoreRegion(0, n - 1);
      var k := (n - 1) / ENTRIES;
      if (n - 1) % ENTRIES != 0 {
        assert 0 <= n - 2 < n - 1 && (n - 2) / ENTRIES == k;
        assert Regions(0, n) == Regions(0, n - 1);
      } else {
        assert k !in Regions(0, n - 1);
        assert |Regions(0, n - 1) + {k}| == |Regions(0, n - 1)| + 1;
      }
    }
  }

  lemma {:induction false} SpansFromZero(n: nat)
    ensures |Spans(0, n)| == (n + 0x4_0000 - 1) / 0x4_0000
  {
    if n == 0 {
      assert Spans(0, 0) == {};
    } else {
      SpansFromZero(n - 1);
      OneMoreRegion(0, n - 1);
      var i := (n - 1) / ENTRIES / ENTRIES;
      SpanStart(n);
      if (n - 1) % 0x4_0000 != 0 {
        assert i in Spans(0, n - 1) by {
          assert 0 <= n - 2 < n - 1 && (n - 2) / ENTRIES / ENTRIES == i;
        }
        assert Spans(0, n) == Spans(0, n - 1);
      } else {
        assert i !in Spans(0, n - 1);
        assert |Spans(0, n - 1) + {i}| == |Spans(0, n - 1)| + 1;
      }
    }
  }

  lemma Twofold(u: nat)
    ensures u / ENTRIES / ENTRIES == u / 0x4_0000
  {}

  lemma SpanStart(n: nat)
    requires n > 0
    ensures (n - 1) % 0x4_0000 != 0 ==> n > 1 && (n - 2) / ENTRIES / ENTRIES == (n - 1) / ENTRIES / ENTRIES
    ensures (n - 1) % 0x4_0000 == 0 ==>
      forall u {:trigger u / ENTRIES} | 0 <= u < n - 1 :: u / ENTRIES / ENTRIES != (n - 1) / ENTRIES / ENTRIES
  {
    Twofold(n - 1);
    if n > 1 {
      Twofold(n - 2);
    }
    forall u: nat {:trigger u / ENTRIES} | u < n - 1 && (n - 1) % 0x4_0000 == 0
      ensures u / ENTRIES / ENTRIES != (n - 1) / ENTRIES / ENTRIES
    {
      Twofold(u);
    }
  }

  /** Failed growth after the pages wanted: tables only. */
  lemma GrownThenTables(mem: map<int, Page>, view: map<int, Word>, owner: map<int, Owner>,
                        mem': map<int, Page>, view': map<int, Word>, owner': map<int, Owner>,
                        mem'': map<int, Page>, owner'': map<int, Owner>, root: int, v: int, want: seq<Want>)
    requires Grown(view, owner, view', owner', mem', root, v, want) && KeptData(mem, owner, mem', owner', root)
    requires TablesGrew(mem', owner', mem'', owner'', root)
    ensures Grown(view, owner, view', owner'', mem'', root, v, want) && KeptData(mem, owner, mem'', owner'', root)
  {
    StillBacked(view, mem', view', owner', mem'', owner'', root, v, want);
    forall p {:trigger owner''[p]} {:trigger mem''[p]} | p in owner
      ensures owner''[p] == owner[p]
        || (owner[p] == Free && (TableOf(owner''[p], root) || UserIn(owner''[p], root, v, |want|)))
      ensures owner''[p] == owner[p] ==> owner'[p] == owner[p]
    {
      assert owner''[p] == owner'[p] || owner'[p] == Free;
      assert owner'[p] == owner[p] || owner[p] == Free;
    }
  }

  lemma StillBacked(view: map<int, Word>, mem': map<int, Page>, view': map<int, Word>, owner': map<int, Owner>,
                    mem'': map<int, Page>, owner'': map<int, Owner>, root: int, v: int, want: seq<Want>)
    requires GrownView(view, view', owner', mem', root, v, want) && TablesGrew(mem', owner', mem'', owner'', root)
    ensures GrownView(view, view', owner'', mem'', root, v, want)
  {
    forall u {:trigger u in view'} | u in view' && v <= u < v + |want|
      ensures Backed(view', owner'', mem'', root, u, want[u - v])
    {
      var p := view'[u].ppn;
      assert owner''[p] == owner'[p] && mem''[p] == mem'[p];
    }
  }

  /** The pages that were added can be unmapped and freed. */
  lemma GrownCanUnmap(view: map<int, Word>, owner: map<int, Owner>, view': map<int, Word>, owner': map<int, Owner>,
                      mem': map<int, Page>,
                      root: int, v: int, want: seq<Want>)
    requires Grown(view, owner, view', owner', mem', root, v, want) && (|want| > 0 ==> v + |want| <= MAXVPN)
    requires forall i | 0 <= i < |want| :: want[i].perm.(v := true) != NONE.(v := true)
    ensures forall u | v <= u < v + |want| ::
      u in view' && CanUnmap(view', owner', u, true) && FrameIsUsers(view', owner', root, u)
  {
    forall u | v <= u < v + |want|
      ensures u in view' && CanUnmap(view', owner', u, true) && FrameIsUsers(view', owner', root, u)
    {
      assert u in view' || u !in view';
      assert Backed(view', owner', mem', root, u, want[u - v]);
    }
  }

  lemma NoUsersMore(owner: map<int, Owner>, owner': map<int, Owner>, root: int, v: int, n: nat)
    requires GrownOwner(owner, owner', root, v, n)
    requires forall p {:trigger owner[p]} | p in owner :: !UserIn(owner[p], root, v, n)
    requires forall p {:trigger owner'[p]} | p in owner' :: owner'[p] != User(root, v + n)
    ensures forall p {:trigger owner[p]} | p in owner :: !UserIn(owner[p], root, v, n + 1)
  {
    forall p {:trigger owner[p]} | p in owner ensures !UserIn(owner[p], root, v, n + 1) {
      assert owner'[p] == owner[p] || owner[p] == Free;
    }
  }

  /** The pages wanted are those of view, with their permissions and the content they have in mem. */
  ghost predicate IsCopy(view: map<int, Word>, mem: map<int, Page>, want: seq<Want>) {
    forall u {:trigger want[u]} {:trigger view[u]} {:trigger u in view} | 0 <= u < |want| ::
      u in view && view[u].ppn in mem && want[u] == Want(view[u].flags, mem[view[u].ppn])
  }

  lemma CopyMore(view: map<int, Word>, mem: map<int, Page>, want: seq<Want>, w: Want)
    requires IsCopy(view, mem, want) && |want| in view && view[|want|].ppn in mem
    requires w == Want(view[|want|].flags, mem[view[|want|].ppn])
    ensures IsCopy(view, mem, want + [w])
  {
    forall u {:trigger (want + [w])[u]} {:trigger view[u]} {:trigger u in view} | 0 <= u < |want + [w]|
      ensures u in view && view[u].ppn in mem && (want + [w])[u] == Want(view[u].flags, mem[view[u].ppn])
    {
      assert u < |want| ==> (want + [w])[u] == want[u];
    }
  }

  /** Page u of the space at root is a user's own leaf page. */
  ghost predicate OwnPage(view: map<int, Word>, owner: map<int, Owner>, root: int, u: int)
    requires u in view
  {
    view[u].ppn in owner && owner[view[u].ppn] == User(root, u) && view[u].flags.v && view[u].flags != NONE.(v := true)
  }

  predicate IsLeaf(perm: Flags) { perm.(v := true) != NONE.(v := true) }

  /** How far uvmalloc() or uvmcopy() has come: the pages wanted so far are there, in frames that
      were free, none of them was there before, and all of them can be unmapped again.  Behind a
      trigger, for the lemmas below. */
  ghost predicate Growing(m0: map<int, Page>, o0: map<int, Owner>, view0: map<int, Word>, mem: map<int, Page>,
                          owner: map<int, Owner>, view: map<int, Word>,
                          root: int, v: int, want: seq<Want>) {
    forall k {:trigger Key(k, want)} | Key(k, want) ::
      && Grown(view0, o0, view, owner, mem, root, v, want) && KeptData(m0, o0, mem, owner, root)
      && (forall p {:trigger o0[p]} | p in o0 :: !UserIn(o0[p], root, v, |want|))
      && (|want| > 0 ==> v + |want| <= MAXVPN)
      && (forall i | 0 <= i < |want| :: IsLeaf(want[i].perm))
  }

  lemma GrowingStart(m0: map<int, Page>, o0: map<int, Owner>, view0: map<int, Word>, root: int, v: int)
    requires m0.Keys == o0.Keys
    ensures Growing(m0, o0, view0, m0, o0, view0, root, v, [])
  {}

  lemma GrowingStep(m0: map<int, Page>, o0: map<int, Owner>, view0: map<int, Word>, mem: map<int, Page>,
                    owner: map<int, Owner>, view: map<int, Word>,
                    mem': map<int, Page>, owner': map<int, Owner>, view': map<int, Word>, root: int, v: int,
                      want: seq<Want>, w: Want)
    requires Growing(m0, o0, view0, mem, owner, view, root, v, want)
    requires Grown(view, owner, view', owner', mem', root, v + |want|, [w]) && KeptData(mem, owner, mem', owner', root)
    requires v + |want| < MAXVPN && IsLeaf(w.perm)
    requires forall p {:trigger owner[p]} | p in owner :: owner[p] != User(root, v + |want|)
    ensures Growing(m0, o0, view0, mem', owner', view', root, v, want + [w])
  {
    assert Key(0, want);
    GrownMore(m0, view0, o0, mem, view, owner, mem', view', owner', root, v, want, w);
    NoUsersMore(o0, owner, root, v, |want|);
  }

  /** What is known of the page it has come to, and of the pages of others. */
  lemma GrowingAt(m0: map<int, Page>, o0: map<int, Owner>, view0: map<int, Word>, mem: map<int, Page>,
                  owner: map<int, Owner>, view: map<int, Word>,
                  root: int, v: int, want: seq<Want>)
    requires Growing(m0, o0, view0, mem, owner, view, root, v, want)
    ensures v + |want| in view <==> v + |want| in view0
    ensures o0.Keys == owner.Keys == mem.Keys == m0.Keys
    ensures forall p {:trigger owner[p]} | p in o0 && o0[p].User? && o0[p].root != root ::
      owner[p] == o0[p] && mem[p] == m0[p]
  {
    assert Key(0, want);
    assert v + |want| in view || v + |want| !in view;
    forall p {:trigger owner[p]} | p in o0 && o0[p].User? && o0[p].root != root
      ensures owner[p] == o0[p] && mem[p] == m0[p]
    {
      var content := mem[p];
    }
  }

  /** The failure: tables may have grown once more, and the pages that were added can all be
      unmapped and freed, */
  lemma GrowingStuck(m0: map<int, Page>, o0: map<int, Owner>, view0: map<int, Word>, mem: map<int, Page>,
                     owner: map<int, Owner>, view: map<int, Word>,
                     mem': map<int, Page>, owner': map<int, Owner>, root: int, v: int, want: seq<Want>)
    requires Growing(m0, o0, view0, mem, owner, view, root, v, want) && TablesGrew(mem, owner, mem', owner', root)
    ensures Growing(m0, o0, view0, mem', owner', view, root, v, want) && (|want| > 0 ==> v + |want| <= MAXVPN)
    ensures forall u | v <= u < v + |want| ::
      u in view && CanUnmap(view, owner', u, true) && FrameIsUsers(view, owner', root, u)
  {
    assert Key(0, want);
    GrownThenTables(m0, view0, o0, mem, view, owner, mem', owner', root, v, want);
    GrownCanUnmap(view0, o0, view, owner', mem', root, v, want);
  }

  /** ... which leaves only tables behind. */
  lemma GrowingUndone(m0: map<int, Page>, o0: map<int, Owner>, view0: map<int, Word>, mem: map<int, Page>,
                      owner: map<int, Owner>, view: map<int, Word>,
                      mem': map<int, Page>, owner': map<int, Owner>, view': map<int, Word>, root: int, v: int,
                        want: seq<Want>)
    requires Growing(m0, o0, view0, mem, owner, view, root, v, want)
    requires Unmapped(view, view', v, |want|) && Released(owner, owner', root, v, |want|, Free)
    requires KeptData(mem, owner, mem', owner', root)
    ensures view' == view0 && TablesGrew(m0, o0, mem', owner', root)
  {
    assert Key(0, want);
    Undone(m0, view0, o0, mem, view, owner, mem', view', owner', root, v, want);
  }

  lemma GrowingEnd(m0: map<int, Page>, o0: map<int, Owner>, view0: map<int, Word>, mem: map<int, Page>,
                   owner: map<int, Owner>, view: map<int, Word>,
                   root: int, v: int, want: seq<Want>)
    requires Growing(m0, o0, view0, mem, owner, view, root, v, want)
    ensures Grown(view0, o0, view, owner, mem, root, v, want) && KeptData(m0, o0, mem, owner, root)
  {
    assert Key(0, want);
  }

  /** The frames of the new pages were free before. */
  lemma GrowingCount(m0: map<int, Page>, o0: map<int, Owner>, view0: map<int, Word>, mem: map<int, Page>,
                     owner: map<int, Owner>, view: map<int, Word>, root: int, v: int, want: seq<Want>, free0: seq<int>)
    requires Growing(m0, o0, view0, mem, owner, view, root, v, want)
    requires forall p {:trigger o0[p]} | p in o0 && o0[p] == Free :: p in free0
    ensures |want| <= |free0|
  {
    assert Key(0, want);
    assert forall u {:trigger view[u]} | v <= u < v + |want| :: u in view0 || u !in view0;
    var frames := seq(|want|, i requires 0 <= i < |want| => view[v + i].ppn);
    forall i {:trigger frames[i]} | 0 <= i < |frames|
      ensures frames[i] in owner && owner[frames[i]] == User(root, v + i) && frames[i] in free0
    {
      var u := v + i;
      assert u in view && Backed(view, owner, mem, root, u, want[u - v]);
      assert !UserIn(o0[frames[i]], root, v, |want|);
    }
    Pigeonhole(frames, free0);
  }

  /** The loop of mappages() after n pages from v: what is there, and what it has taken. */
  ghost predicate Mapping(spaces0: map<int, Space>, m0: map<int, Page>, o0: map<int, Owner>, f0: int,
                          spaces: map<int, Space>, mem: map<int, Page>, owner: map<int, Owner>, f: int,
                          root: int, v: int, n: nat, ppn: int, perm: Flags) {
    root in spaces0 && root in spaces && forall k {:trigger Key(k, spaces)} | Key(k, spaces) ::
      && spaces == spaces0[root := spaces[root]] && TablesGrew(m0, o0, mem, owner, root)
      && Mapped(spaces0[root].view, spaces[root].view, v, n, ppn, perm) && (n > 0 ==> v + n <= MAXVPN)
      && Paid(spaces0[root], spaces[root], f0, f, 0, v, n)
  }

  lemma MappingIs(spaces0: map<int, Space>, m0: map<int, Page>, o0: map<int, Owner>, f0: int,
                  spaces: map<int, Space>, mem: map<int, Page>, owner: map<int, Owner>, f: int,
                  root: int, v: int, n: nat, ppn: int, perm: Flags)
    requires Mapping(spaces0, m0, o0, f0, spaces, mem, owner, f, root, v, n, ppn, perm)
    ensures spaces == spaces0[root := spaces[root]] && TablesGrew(m0, o0, mem, owner, root)
    ensures Mapped(spaces0[root].view, spaces[root].view, v, n, ppn, perm) && (n > 0 ==> v + n <= MAXVPN)
    ensures Paid(spaces0[root], spaces[root], f0, f, 0, v, n)
  {
    assert Key(0, spaces);
  }

  lemma MappingNext(spaces0: map<int, Space>, m0: map<int, Page>, o0: map<int, Owner>, f0: int,
                    spaces: map<int, Space>, mem: map<int, Page>, owner: map<int, Owner>, f: int,
                    spaces': map<int, Space>, mem': map<int, Page>, owner': map<int, Owner>, f': int,
                    root: int, v: int, n: nat, ppn: int, perm: Flags)
    requires Mapping(spaces0, m0, o0, f0, spaces, mem, owner, f, root, v, n, ppn, perm)
    requires root in spaces' && spaces' == spaces[root := spaces'[root]] && TablesGrew(mem, owner, mem', owner', root)
    requires v + n !in spaces[root].view && v + n < MAXVPN
    requires spaces'[root].view == spaces[root].view[v + n := Pte(ppn + n, perm)]
    requires Tabled(spaces[root], spaces'[root], v + n) && f' == f - Lacks(spaces[root], v + n)
    ensures Mapping(spaces0, m0, o0, f0, spaces', mem', owner', f', root, v, n + 1, ppn, perm)
  {
    MappingIs(spaces0, m0, o0, f0, spaces, mem, owner, f, root, v, n, ppn, perm);
    MappedMore(spaces0[root].view, spaces[root].view, v, n, ppn, perm);
    GrewTrans(m0, o0, mem, owner, mem', owner', root);
    PaidMore(spaces0[root], spaces[root], spaces'[root], f0, f, f', 0, 0, v, n);
  }

  /** The loops of uvmalloc() and uvmcopy() after n pages from v: what is there, and what it has taken. */
  ghost predicate Filling(spaces0: map<int, Space>, m0: map<int, Page>, o0: map<int, Owner>, f0: int,
                          spaces: map<int, Space>, mem: map<int, Page>, owner: map<int, Owner>, f: int,
                          root: int, v: int, want: seq<Want>, n: nat) {
    root in spaces0 && root in spaces && forall k {:trigger Key(k, spaces)} | Key(k, spaces) ::
      && |want| == n && spaces == spaces0[root := spaces[root]]
      && Growing(m0, o0, spaces0[root].view, mem, owner, spaces[root].view, root, v, want)
      && Paid(spaces0[root], spaces[root], f0, f, n, v, n)
  }

  lemma FillingIs(spaces0: map<int, Space>, m0: map<int, Page>, o0: map<int, Owner>, f0: int,
                  spaces: map<int, Space>, mem: map<int, Page>, owner: map<int, Owner>, f: int,
                  root: int, v: int, want: seq<Want>, n: nat)
    requires Filling(spaces0, m0, o0, f0, spaces, mem, owner, f, root, v, want, n)
    ensures |want| == n && spaces == spaces0[root := spaces[root]]
    ensures Growing(m0, o0, spaces0[root].view, mem, owner, spaces[root].view, root, v, want)
    ensures Paid(spaces0[root], spaces[root], f0, f, n, v, n)
  {
    assert Key(0, spaces);
  }

  lemma FillingStart(spaces0: map<int, Space>, m0: map<int, Page>, o0: map<int, Owner>, f0: int, root: int, v: int)
    requires m0.Keys == o0.Keys && root in spaces0
    ensures Filling(spaces0, m0, o0, f0, spaces0, m0, o0, f0, root, v, [], 0)
  {
    GrowingStart(m0, o0, spaces0[root].view, root, v);
    PaidNone(spaces0[root], f0, v);
  }

  lemma FillingNext(spaces0: map<int, Space>, m0: map<int, Page>, o0: map<int, Owner>, f0: int,
                    spaces: map<int, Space>, mem: map<int, Page>, owner: map<int, Owner>, f: int,
                    spaces': map<int, Space>, mem': map<int, Page>, owner': map<int, Owner>, f': int,
                    root: int, v: int, want: seq<Want>, w: Want, n: nat)
    requires Filling(spaces0, m0, o0, f0, spaces, mem, owner, f, root, v, want, n)
    requires root in spaces' && spaces' == spaces[root := spaces'[root]]
    requires KeptData(mem, owner, mem', owner', root) && v + n < MAXVPN && IsLeaf(w.perm)
    requires Grown(spaces[root].view, owner, spaces'[root].view, owner', mem', root, v + n, [w])
    requires forall p {:trigger owner[p]} | p in owner :: owner[p] != User(root, v + n)
    requires Tabled(spaces[root], spaces'[root], v + n) && f' == f - 1 - Lacks(spaces[root], v + n)
    ensures Filling(spaces0, m0, o0, f0, spaces', mem', owner', f', root, v, want + [w], n + 1)
  {
    FillingIs(spaces0, m0, o0, f0, spaces, mem, owner, f, root, v, want, n);
    GrowingStep(m0, o0, spaces0[root].view, mem, owner, spaces[root].view, mem', owner', spaces'[root].view, root, v,
      want, w);
    PaidMore(spaces0[root], spaces[root], spaces'[root], f0, f, f', n, n + 1, v, n);
  }

  /** A page was missing: what is there can be unmapped, and memory is short. */
  lemma FillingStuck(spaces0: map<int, Space>, m0: map<int, Page>, o0: map<int, Owner>, f0: int,
                     spaces: map<int, Space>, mem: map<int, Page>, owner: map<int, Owner>, f: int,
                     view: map<int, Word>, mem': map<int, Page>, owner': map<int, Owner>,
                     root: int, v: int, want: seq<Want>, n: nat, total: nat)
    requires Filling(spaces0, m0, o0, f0, spaces, mem, owner, f, root, v, want, n) && n < total
    requires view == spaces[root].view && TablesGrew(mem, owner, mem', owner', root)
    requires f < 1 + Lacks(spaces[root], v + n)
    ensures |want| == n && Growing(m0, o0, spaces0[root].view, mem', owner', view, root, v, want)
    ensures (|want| > 0 ==> v + |want| <= MAXVPN) && Short(spaces0[root], f0, total, v, total)
    ensures forall u | v <= u < v + |want| ::
      u in view && CanUnmap(view, owner', u, true) && FrameIsUsers(view, owner', root, u)
  {
    FillingIs(spaces0, m0, o0, f0, spaces, mem, owner, f, root, v, want, n);
    GrowingStuck(m0, o0, spaces0[root].view, mem, owner, view, mem', owner', root, v, want);
    ShortAt(spaces0[root], spaces[root], f0, f, n, total, v, n, total);
  }

  /** It has all been undone, but for tables. */
  ghost predicate Restored(spaces0: map<int, Space>, m0: map<int, Page>, o0: map<int, Owner>,
                           spaces: map<int, Space>, mem: map<int, Page>, owner: map<int, Owner>, root: int) {
    && root in spaces0 && root in spaces && spaces == spaces0[root := spaces[root]]
    && spaces[root].view == spaces0[root].view && TablesGrew(m0, o0, mem, owner, root)
  }

  /** freewalk() at a table: the tables below entries with a key less than c have been freed, and
      all else is as it was, but for the entries of the table itself. */
  ghost predicate Felling(was: map<int, Owner>, m0: map<int, Page>, o0: map<int, Owner>, mem: map<int, Page>,
                          owner: map<int, Owner>,
                          root: int, level: int, k: int, page: int, c: int) {
    && was.Keys == o0.Keys == owner.Keys == mem.Keys == m0.Keys
    && (forall p {:trigger owner[p]} | p in owner ::
          owner[p] == if Below(was[p], root, level, k) && Before(was[p], level, c) then Free else o0[p])
    && (forall p {:trigger mem[p]} | p in mem && p != page
        && !(Below(was[p], root, level, k) && Before(was[p], level, c)) :: mem[p] == m0[p])
  }

  /** A table and all tables below it have been freed. */
  ghost predicate Felled(was: map<int, Owner>, m0: map<int, Page>, o0: map<int, Owner>, mem: map<int, Page>,
                         owner: map<int, Owner>,
                         root: int, level: int, k: int) {
    && was.Keys == o0.Keys == owner.Keys == mem.Keys == m0.Keys
    && (forall p {:trigger owner[p]} | p in owner :: owner[p] == if Below(was[p], root, level, k) then Free else o0[p])
    && (forall p {:trigger mem[p]} | p in mem && !Below(was[p], root, level, k) :: mem[p] == m0[p])
  }

  /** The tables of root in was are those of sp. */
  ghost predicate Listed(was: map<int, Owner>, sp: Space, root: int) {
    Nested(sp) && Owns(was, root, sp) && forall p {:trigger was[p]} | p in was && TableOf(was[p], root) ::
      PageOk(map[root := sp], p, was[p])
  }

  lemma FellingStart(was: map<int, Owner>, m0: map<int, Page>, o0: map<int, Owner>, sp: Space, root: int, level: int,
                     k: int, page: int)
    requires was.Keys == o0.Keys == m0.Keys && Listed(was, sp, root) && 0 <= level <= 2
    requires TableAt(sp, root, level, k, page)
    ensures Felling(was, m0, o0, m0, o0, root, level, k, page, k * ENTRIES)
  {
    forall p | p in was ensures !(Below(was[p], root, level, k) && Before(was[p], level, k * ENTRIES)) {
      assert Below(was[p], root, level, k) ==> PageOk(map[root := sp], p, was[p]);
    }
  }

  /** An entry without a table below it. */
  lemma FellingSkip(was: map<int, Owner>, m0: map<int, Page>, o0: map<int, Owner>, mem: map<int, Page>,
                    owner: map<int, Owner>,
                    sp: Space, root: int, level: int, k: int, page: int, i: int)
    requires Felling(was, m0, o0, mem, owner, root, level, k, page, k * ENTRIES + i) && Listed(was, sp, root)
    requires 0 <= level <= 2 && (level == 2 ==> k == 0) && 0 <= i < ENTRIES
    requires (level == 2 ==> k * ENTRIES + i !in sp.mid) && (level == 1 ==> k * ENTRIES + i !in sp.low)
    ensures Felling(was, m0, o0, mem, owner, root, level, k, page, k * ENTRIES + i + 1)
  {
    forall p | p in was
      ensures Below(was[p], root, level, k) && Before(was[p], level, k * ENTRIES + i + 1) ==>
        Before(was[p], level, k * ENTRIES + i)
    {
      assert Below(was[p], root, level, k) ==> PageOk(map[root := sp], p, was[p]);
    }
  }

  /** After the last entry the table itself is freed. */
  lemma FellingEnd(was: map<int, Owner>, m0: map<int, Page>, o0: map<int, Owner>, mem: map<int, Page>,
                   owner: map<int, Owner>, mem': map<int, Page>,
                   sp: Space, root: int, level: int, k: int, page: int)
    requires Felling(was, m0, o0, mem, owner, root, level, k, page, k * ENTRIES + ENTRIES) && Listed(was, sp, root)
    requires 0 <= level <= 2 && TableAt(sp, root, level, k, page) && page in owner
    requires mem'.Keys == mem.Keys && forall p {:trigger mem'[p]} | p in mem && p != page :: mem'[p] == mem[p]
    ensures Felled(was, m0, o0, mem', owner[page := Free], root, level, k)
  {
    assert Below(was[page], root, level, k);
    forall p {:trigger was[p]} | p in was && p != page && Below(was[p], root, level, k)
      ensures Before(was[p], level, k * ENTRIES + ENTRIES)
    {
      assert PageOk(map[root := sp], p, was[p]);
    }
    forall p {:trigger mem'[p]} | p in mem' && !Below(was[p], root, level, k) ensures mem'[p] == mem[p] == m0[p] {}
  }

  /** The tables below an entry not yet reached are still whole. */
  lemma FellingAhead(was: map<int, Owner>, m0: map<int, Page>, o0: map<int, Owner>, mem: map<int, Page>,
                     owner: map<int, Owner>,
                     sp: Space, root: int, level: int, k: int, page: int, i: int)
    requires Felling(was, m0, o0, mem, owner, root, level, k, page, k * ENTRIES + i) && Listed(was, sp, root)
    requires WordsOk(m0, sp, root, level, k)
    requires 1 <= level <= 2 && TableAt(sp, root, level, k, page) && 0 <= i < ENTRIES
    requires forall p {:trigger o0[p]} | p in o0 && Below(was[p], root, level, k) :: o0[p] == Held
    ensures WordsOk(mem, sp, root, level - 1, k * ENTRIES + i)
    ensures forall p {:trigger owner[p]} | p in owner && Below(was[p], root, level - 1, k * ENTRIES + i) ::
      owner[p] == Held
  {
    var c := k * ENTRIES + i;
    forall p | p in was && Below(was[p], root, level - 1, c)
      ensures p != page && Below(was[p], root, level, k) && !Before(was[p], level, c)
    {
      assert PageOk(map[root := sp], p, was[p]);
    }
    forall p {:trigger mem[p]} | p in m0 && Below(was[p], root, level - 1, c) ensures mem[p] == m0[p] {}
    WordsFrame(m0, mem, was, sp, root, level, k, level - 1, c);
    forall p {:trigger owner[p]} | p in owner && Below(was[p], root, level - 1, c) ensures owner[p] == Held {
      assert owner[p] == o0[p];
    }
  }

  lemma FelledMore(was: map<int, Owner>, m0: map<int, Page>, o0: map<int, Owner>, mem: map<int, Page>,
                   owner: map<int, Owner>,
                   mem': map<int, Page>, owner': map<int, Owner>, mem'': map<int, Page>, root: int, level: int, k: int,
                     page: int, i: int)
    requires 1 <= level <= 2 && (level == 2 ==> k == 0) && 0 <= i < ENTRIES
    requires Felling(was, m0, o0, mem, owner, root, level, k, page, k * ENTRIES + i)
    requires Felled(was, mem, owner, mem', owner', root, level - 1, k * ENTRIES + i)
    requires mem''.Keys == mem'.Keys && forall p {:trigger mem''[p]} | p in mem' && p != page :: mem''[p] == mem'[p]
    ensures Felling(was, m0, o0, mem'', owner', root, level, k, page, k * ENTRIES + i + 1)
  {
    var c := k * ENTRIES + i;
    forall p {:trigger owner'[p]} {:trigger mem''[p]} | p in owner'
      ensures owner'[p] == if Below(was[p], root, level, k) && Before(was[p], level, c + 1) then Free else o0[p]
      ensures p != page && !(Below(was[p], root, level, k) && Before(was[p], level, c + 1)) ==> mem''[p] == m0[p]
    {
      OneMore(was[p], root, level, k, i);
      assert owner[p] == owner[p] && mem[p] == mem[p] && mem'[p] == mem'[p];
      assert owner[p] == if Below(was[p], root, level, k) && Before(was[p], level, c) then Free else o0[p];
      assert p != page ==> mem''[p] == mem'[p];
    }
  }

  lemma OneMore(o: Owner, root: int, level: int, k: int, i: int)
    requires 1 <= level <= 2 && (level == 2 ==> k == 0) && 0 <= i < ENTRIES
    ensures var c := k * ENTRIES + i;
            Below(o, root, level, k) && Before(o, level, c + 1) <==>
              (Below(o, root, level, k) && Before(o, level, c)) || Below(o, root, level - 1, c)
  {}

  /** The table page, at this level and key of the tree sp, and all tables below it are whole, and
      in the hands of the kernel.  This and the next predicate stand behind a trigger. */
  ghost predicate Standing(was: map<int, Owner>, mem: map<int, Page>, owner: map<int, Owner>, sp: Space, root: int,
                           level: int, k: int, page: int) {
    forall key {:trigger Key(key, level)} | Key(key, level) ::
      && 0 <= level <= 2 && TableAt(sp, root, level, k, page) && was.Keys == owner.Keys == mem.Keys
      && Listed(was, sp, root) && WordsOk(mem, sp, root, level, k)
      && (forall p {:trigger owner[p]} | p in owner && Below(was[p], root, level, k) :: owner[p] == Held)
      && (forall v | v in sp.view :: Rwx(sp.view[v].flags))
  }

  /** freewalk() has come to entry i of the table. */
  ghost predicate Walking(was: map<int, Owner>, m0: map<int, Page>, o0: map<int, Owner>, mem: map<int, Page>,
                          owner: map<int, Owner>,
                          sp: Space, root: int, level: int, k: int, page: int, i: int) {
    forall key {:trigger Key(key, i)} | Key(key, i) ::
      && Standing(was, m0, o0, sp, root, level, k, page) && 0 <= i <= ENTRIES
      && Felling(was, m0, o0, mem, owner, root, level, k, page, k * ENTRIES + i)
      && page in mem && owner[page] == Held
      && (forall j {:trigger mem[page][j]} | i <= j < ENTRIES :: mem[page][j] == m0[page][j])
      && (forall v | v in sp.view && Under(level, k, v) :: KeyOf(level, v) >= k * ENTRIES + i)
  }

  /** No page is mapped below the table at this level with key k. */
  ghost predicate Bare(sp: Space, level: int, k: int) {
    forall v | v in sp.view :: !Under(level, k, v)
  }

  lemma WalkingStart(was: map<int, Owner>, mem: map<int, Page>, owner: map<int, Owner>, sp: Space, root: int,
                     level: int, k: int, page: int)
    requires Standing(was, mem, owner, sp, root, level, k, page)
    ensures Walking(was, mem, owner, mem, owner, sp, root, level, k, page, 0) && 0 <= level <= 2
  {
    assert Key(0, level);
    FellingStart(was, mem, owner, sp, root, level, k, page);
    EntryRead(mem, was, sp, root, level, k, page, 0);
    forall v | v in sp.view && Under(level, k, v) ensures KeyOf(level, v) >= k * ENTRIES {
      assert v / ENTRIES in sp.low;
    }
  }

  lemma WalkingAt(was: map<int, Owner>, m0: map<int, Page>, o0: map<int, Owner>, mem: map<int, Page>,
                  owner: map<int, Owner>,
                  sp: Space, root: int, level: int, k: int, page: int, i: int)
    requires Walking(was, m0, o0, mem, owner, sp, root, level, k, page, i) && i < ENTRIES
    ensures 0 <= i && page in mem && page in owner && owner[page] == Held
    ensures var pte := mem[page][i];
            && (pte.flags.v && !Rwx(pte.flags) ==> level > 0 && Standing(was, mem, owner, sp, root, level - 1,
              k * ENTRIES + i, pte.ppn))
            && (pte.flags.v && Rwx(pte.flags) ==> !Bare(sp, level, k))
            && (!pte.flags.v ==> Walking(was, m0, o0, mem, owner, sp, root, level, k, page, i + 1))
    ensures level > 0 && !Bare(sp, level - 1, k * ENTRIES + i) ==> !Bare(sp, level, k)
  {
    assert Key(0, i) && Key(0, level);
    var c := k * ENTRIES + i;
    assert forall v | level > 0 && Under(level - 1, c, v) :: Under(level, k, v);
    EntryRead(m0, was, sp, root, level, k, page, i);
    var pte := mem[page][i];
    if pte.flags.v {
      if level > 0 {
        FellingAhead(was, m0, o0, mem, owner, sp, root, level, k, page, i);
      } else {
        assert c in sp.view && Under(level, k, c);
      }
    } else {
      FellingSkip(was, m0, o0, mem, owner, sp, root, level, k, page, i);
      forall v | v in sp.view && Under(level, k, v) ensures KeyOf(level, v) >= c + 1 {
        assert v / ENTRIES in sp.low && v / ENTRIES / ENTRIES in sp.mid;
      }
    }
  }

  lemma WalkingOn(was: map<int, Owner>, m0: map<int, Page>, o0: map<int, Owner>, mem: map<int, Page>,
                  owner: map<int, Owner>,
                  mem': map<int, Page>, owner': map<int, Owner>, sp: Space, root: int, level: int, k: int, page: int,
                    i: int)
    requires Walking(was, m0, o0, mem, owner, sp, root, level, k, page, i) && i < ENTRIES && level > 0
    requires Felled(was, mem, owner, mem', owner', root, level - 1, k * ENTRIES + i)
    requires Bare(sp, level - 1, k * ENTRIES + i)
    ensures 0 <= i && page in mem' && page in owner' && owner'[page] == Held
    ensures Walking(was, m0, o0, Set(mem', page, i, ZERO), owner', sp, root, level, k, page, i + 1)
  {
    assert Key(0, i) && Key(0, level);
    EntryRead(m0, was, sp, root, level, k, page, i);
    var mem'' := Set(mem', page, i, ZERO);
    assert !Below(was[page], root, level - 1, k * ENTRIES + i) by {
      assert PageOk(map[root := sp], page, was[page]);
    }
    assert mem'[page] == mem[page] && owner'[page] == owner[page];
    FelledMore(was, m0, o0, mem, owner, mem', owner', mem'', root, level, k, page, i);
    forall v | v in sp.view && Under(level, k, v) ensures KeyOf(level, v) >= k * ENTRIES + i + 1 {}
  }

  lemma WalkingAtEnd(was: map<int, Owner>, m0: map<int, Page>, o0: map<int, Owner>, mem: map<int, Page>,
                     owner: map<int, Owner>,
                     sp: Space, root: int, level: int, k: int, page: int)
    requires Walking(was, m0, o0, mem, owner, sp, root, level, k, page, ENTRIES)
    ensures page in owner && owner[page] == Held
  {
    assert Key(0, ENTRIES) && Key(0, level);
  }

  lemma WalkingEnd(was: map<int, Owner>, m0: map<int, Page>, o0: map<int, Owner>, mem: map<int, Page>,
                   owner: map<int, Owner>, mem': map<int, Page>,
                   sp: Space, root: int, level: int, k: int, page: int)
    requires Walking(was, m0, o0, mem, owner, sp, root, level, k, page, ENTRIES) && page in owner
    requires mem'.Keys == mem.Keys && forall p {:trigger mem'[p]} | p in mem && p != page :: mem'[p] == mem[p]
    ensures Felled(was, m0, o0, mem', owner[page := Free], root, level, k)
    ensures Bare(sp, level, k)
  {
    assert Key(0, ENTRIES) && Key(0, level);
    FellingEnd(was, m0, o0, mem, owner, mem', sp, root, level, k, page);
    forall v | v in sp.view ensures !Under(level, k, v) {
      assert v / ENTRIES in sp.low && v / ENTRIES / ENTRIES in sp.mid;
    }
  }

  lemma StillRwx(view: map<int, Word>, view': map<int, Word>, n: nat)
    requires Unmapped(view, view', 0, n)
    requires forall v | v in view :: Rwx(view[v].flags)
    ensures forall v | v in view' :: Rwx(view'[v].flags) && v in view && !(0 <= v < n)
  {}

  lemma SomeKey(view: map<int, Word>) returns (v: int)
    requires view != map[]
    ensures v in view
  {
    if forall u :: u !in view {
      assert false;
    }
    v :| v in view;
  }

  lemma StillMapped(view: map<int, Word>, view': map<int, Word>, n: nat)
    requires Unmapped(view, view', 0, n)
    ensures view' != map[] ==> exists v :: v in view && !(0 <= v < n)
    ensures view' == map[] ==> forall v | v in view :: 0 <= v < n
  {
    if view' != map[] {
      var v := SomeKey(view');
      assert v in view;
    } else {
      forall v | v in view ensures 0 <= v < n {
        assert v !in view';
      }
    }
  }

  /** Every page of the space at root has become free, and no other page has changed. */
  ghost predicate SpaceFreed(m0: map<int, Page>, o0: map<int, Owner>, mem: map<int, Page>, owner: map<int, Owner>,
                             root: int) {
    && m0.Keys == o0.Keys == owner.Keys == mem.Keys
    && (forall p {:trigger owner[p]} | p in owner :: owner[p] == if OfSpace(o0[p], root) then Free else o0[p])
    && (forall p {:trigger mem[p]} | p in owner && o0[p] != Free && !OfSpace(o0[p], root) :: mem[p] == m0[p])
  }

  lemma TreeFreed(m1: map<int, Page>, o1: map<int, Owner>, view1: map<int, Word>, o2: map<int, Owner>,
                  mem: map<int, Page>, owner: map<int, Owner>, root: int)
    requires view1 == map[]
    requires forall p {:trigger o1[p]} | p in o1 && o1[p].User? && o1[p].root == root :: o1[p].v in view1
    requires o2.Keys == o1.Keys
    requires forall p {:trigger o2[p]} | p in o2 :: o2[p] == if OfSpace(o1[p], root) then Held else o1[p]
    requires Felled(o1, m1, o2, mem, owner, root, 2, 0)
    ensures SpaceFreed(m1, o1, mem, owner, root)
  {
    forall p {:trigger owner[p]} {:trigger mem[p]} | p in owner
      ensures owner[p] == if OfSpace(o1[p], root) then Free else o1[p]
      ensures !OfSpace(o1[p], root) ==> mem[p] == m1[p]
    {
      assert o2[p] == if OfSpace(o1[p], root) then Held else o1[p];
      assert !(o1[p].User? && o1[p].root == root);
    }
  }

  /** uvmfree() as a whole: user pages freed, then tables. */
  lemma AllFreed(m0: map<int, Page>, o0: map<int, Owner>, m1: map<int, Page>, o1: map<int, Owner>,
                 mem: map<int, Page>, owner: map<int, Owner>, root: int, n: nat)
    requires Released(o0, o1, root, 0, n, Free) && KeptData(m0, o0, m1, o1, root)
    requires SpaceFreed(m1, o1, mem, owner, root)
    ensures SpaceFreed(m0, o0, mem, owner, root)
  {
    forall p {:trigger owner[p]} {:trigger mem[p]} | p in owner
      ensures owner[p] == if OfSpace(o0[p], root) then Free else o0[p]
      ensures o0[p] != Free && !OfSpace(o0[p], root) ==> mem[p] == m0[p]
    {
      assert o1[p] == if o0[p].User? && o0[p].root == root && 0 <= o0[p].v < n then Free else o0[p];
      assert o0[p] != Free && !OfSpace(o0[p], root) ==> m1[p] == m0[p] && mem[p] == m1[p];
    }
  }

  class Kernel {
    var mem: map<int, Page>
    var freelist: int
    const end: int
    const phystop: int
    ghost var free: seq<int>
    ghost var owner: map<int, Owner>
    ghost var spaces: map<int, Space>

    /** The pool is consistent.  The System predicate stands behind a trigger, so that only Open()
        unfolds it. */
    ghost predicate Valid() reads this {
      && 0 < end && (forall p :: p in owner <==> end <= p < phystop) && mem.Keys == owner.Keys
      && (forall k {:trigger Key(k, mem)} | Key(k, mem) :: System(mem, owner, spaces, freelist, free))
    }

    lemma Open()
      requires Valid()
      ensures System(mem, owner, spaces, freelist, free)
    {
      assert Key(0, mem);
    }

    constructor (end: int, phystop: int)
      requires 0 < end <= phystop
      ensures Valid() && this.end == end && this.phystop == phystop && spaces == map[]
      ensures forall p {:trigger owner[p]} | p in owner :: owner[p] == Held
    {
      this.end, this.phystop, freelist := end, phystop, 0;
      mem, owner := Uniform(end, phystop, Filled(ZERO)), Uniform(end, phystop, Held);
      spaces, free := map[], [];
    }

    /** kinit(): every page of the pool is freed. */
    method Freerange(first: int, last: int)
      requires Valid() && first == end && last == phystop && end <= phystop
      requires forall p {:trigger owner[p]} | p in owner :: owner[p] == Held
      modifies `mem, `freelist, `free, `owner
      ensures Valid() && forall p {:trigger owner[p]} | p in owner :: owner[p] == Free
    {
      var p := first;
      while p + 1 <= last
        invariant first <= p <= last && Valid()
        invariant forall q {:trigger owner[q]} | q in owner :: owner[q] == if q < p then Free else Held
      {
        var panicked := Kfree(p);
        p := p + 1;
      }
    }

    /** The hardware translates every address below MAXVA as the map of the space says. */
    lemma Translates(root: int, va: nat)
      requires Valid() && root in spaces && va < MAXVA
      ensures Translate(mem, root, 2, va) ==
        if va / PGSIZE in spaces[root].view && Readable(spaces[root].view[va / PGSIZE])
        then Translation.Leaf(0, spaces[root].view[va / PGSIZE]) else Fault
    {
      Open();
      var sp := spaces[root];
      assert Owns(owner, root, sp);
      TranslateFindsView(mem, root, sp, va);
    }

    /** No page has two uses: a page that is a table, in whichever place of whichever space, is not
        on the free list and in no other place. */
    lemma NoPageTwice(p: int, o: Owner, o': Owner)
      requires Valid() && PageOk(spaces, p, o) && PageOk(spaces, p, o')
      requires (o.Root? || o.Mid? || o.Low?) && (o'.Root? || o'.Mid? || o'.Low?)
      ensures p in owner && p !in free && o == o'
    {
      Open();
      assert Owns(owner, o.root, spaces[o.root]) && Owns(owner, o'.root, spaces[o'.root]);
      assert owner[p] == o && owner[p] == o';
    }

    method Kalloc() returns (p: int)
      requires Valid()
      modifies `mem, `freelist, `free, `owner
      ensures Valid()
      ensures p == 0 ==> mem == old(mem) && owner == old(owner) && forall q | q in owner :: owner[q] != Free
      ensures p == 0 <==> old(|free|) == 0
      ensures |free| == old(|free|) - if p != 0 then 1 else 0
      ensures p != 0 ==>
        p in old(owner) && old(owner[p]) == Free && owner == old(owner)[p := Held]
        && mem == old(mem)[p := Filled(FIVES)]
    {
      Open();
      p := freelist;
      if p != 0 {
        Popped(mem, owner, spaces, freelist, free, Filled(FIVES));
        freelist := mem[p][0].ppn / 4;
        free := free[1..];
        owner := owner[p := Held];
        mem := mem[p := Filled(FIVES)];
      }
    }

    method Kfree(p: int) returns (panicked: bool)
      requires Valid() && (p in owner ==> owner[p] == Held)
      modifies `mem, `freelist, `free, `owner
      ensures Valid() && (panicked <==> p !in owner)
      ensures panicked ==> mem == old(mem) && owner == old(owner)
      ensures |free| == old(|free|) + if panicked then 0 else 1
      ensures !panicked ==>
        owner == old(owner)[p := Free] && mem.Keys == old(mem.Keys) && forall q | q in mem && q != p ::
        mem[q] == old(mem[q])
    {
      Open();
      if p < end || p >= phystop {
        return true;
      }
      Pushed(mem, owner, spaces, freelist, free, p, Filled(ONES)[0 := Pointer(freelist)]);
      mem := mem[p := Filled(ONES)[0 := Pointer(freelist)]];
      freelist := p;
      free := [p] + free;
      owner := owner[p := Free];
      return false;
    }

    /** memset() or memmove() over a page the kernel holds. */
    method Fill(p: int, page: Page)
      requires Valid() && p in owner && owner[p] == Held
      modifies `mem
      ensures Valid() && mem == old(mem)[p := page]
    {
      Open();
      HeldWritten(mem, owner, spaces, freelist, free, p, page);
      mem := mem[p := page];
    }

    /** kalloc() and memset(), as all users of fresh pages here do. */
    method ZeroedPage() returns (p: int)
      requires Valid()
      modifies `mem, `freelist, `free, `owner
      ensures Valid()
      ensures p == 0 ==> mem == old(mem) && owner == old(owner) && forall q | q in owner :: owner[q] != Free
      ensures p == 0 <==> old(|free|) == 0
      ensures |free| == old(|free|) - if p != 0 then 1 else 0
      ensures p != 0 ==>
        p in old(owner) && old(owner[p]) == Free && owner == old(owner)[p := Held] && mem == old(mem)[p := Filled(ZERO)]
    {
      p := Kalloc();
      if p != 0 {
        Fill(p, Filled(ZERO));
      }
    }

    /** The step of walk() that hangs a fresh page below entry i of a table; ghost v says for which
        page of the address space. */
    method AddTable(root: int, level: int, pagetable: int, i: nat, ghost v: int) returns (page: int)
      requires Valid() && root in spaces && 1 <= level <= 2
      requires level == 2 ==> pagetable == root && i == v / ENTRIES / ENTRIES < ENTRIES && i !in spaces[root].mid
      requires level == 1 ==>
        v / ENTRIES / ENTRIES in spaces[root].mid && pagetable == MidPage(spaces[root], v / ENTRIES)
      requires level == 1 ==> i == v / ENTRIES % ENTRIES && v / ENTRIES !in spaces[root].low
      modifies `mem, `freelist, `free, `owner, `spaces
      ensures Valid() && SameView(old(spaces), spaces, root) && TablesGrew(old(mem), old(owner), mem, owner, root)
      ensures page == 0 ==>
        mem == old(mem) && owner == old(owner) && spaces == old(spaces) && forall q | q in owner :: owner[q] != Free
      ensures page != 0 && level == 2 ==>
        v / ENTRIES / ENTRIES in spaces[root].mid && page == MidPage(spaces[root], v / ENTRIES)
      ensures page != 0 && level == 1 ==> v / ENTRIES in spaces[root].low && page == LowPage(spaces[root], v)
      ensures page == 0 <==> old(|free|) == 0
      ensures |free| == old(|free|) - if page != 0 then 1 else 0
      ensures spaces[root].mid.Keys ==
        old(spaces[root].mid.Keys) + if page != 0 && level == 2 then {v / ENTRIES / ENTRIES} else {}
      ensures spaces[root].low.Keys ==
        old(spaces[root].low.Keys) + if page != 0 && level == 1 then {v / ENTRIES} else {}
    {
      page := ZeroedPage();
      if page != 0 {
        if level == 2 {
          AttachMid(root, i, page);
        } else {
          AttachLow(root, pagetable, i, page, v / ENTRIES);
        }
      }
    }

    method AttachMid(root: int, i: nat, page: int)
      requires Valid() && root in spaces && page in owner && owner[page] == Held && mem[page] == Filled(ZERO)
      requires i < ENTRIES && i !in spaces[root].mid
      modifies `mem, `owner, `spaces
      ensures Valid() && spaces == old(spaces)[root := old(spaces[root]).(mid := old(spaces[root].mid)[i := page])]
      ensures owner == old(owner)[page := Mid(root, i)] && root in owner && TableOf(owner[root], root)
      ensures root in old(mem) && mem == Set(old(mem), root, i, Pte(page, NONE))
    {
      Open();
      MidAdded(mem, owner, spaces, freelist, free, root, i, page);
      assert Owns(owner, root, spaces[root]);
      spaces := spaces[root := spaces[root].(mid := spaces[root].mid[i := page])];
      owner := owner[page := Mid(root, i)];
      mem := Set(mem, root, i, Pte(page, NONE));
    }

    method AttachLow(root: int, pagetable: int, i: nat, page: int, ghost k: int)
      requires Valid() && root in spaces && page in owner && owner[page] == Held && mem[page] == Filled(ZERO)
      requires k / ENTRIES in spaces[root].mid && k !in spaces[root].low && pagetable == MidPage(spaces[root], k)
      requires i == k % ENTRIES
      modifies `mem, `owner, `spaces
      ensures Valid() && spaces == old(spaces)[root := old(spaces[root]).(low := old(spaces[root].low)[k := page])]
      ensures owner == old(owner)[page := Low(root, k)] && pagetable in owner && TableOf(owner[pagetable], root)
      ensures pagetable in old(mem) && mem == Set(old(mem), pagetable, i, Pte(page, NONE))
    {
      Open();
      LowAdded(mem, owner, spaces, freelist, free, root, k, page);
      assert Owns(owner, root, spaces[root]);
      spaces := spaces[root := spaces[root].(low := spaces[root].low[k := page])];
      owner := owner[page := Low(root, k)];
      mem := Set(mem, pagetable, i, Pte(page, NONE));
    }

    lemma RootInPool(root: int)
      requires Valid() && root in spaces
      ensures root in owner && owner[root] == Root(root)
    {
      Open();
      assert Owns(owner, root, spaces[root]);
    }

    /** What walk() reads at one level. */
    lemma Looked(root: int, level: int, pagetable: int, va: nat)
      requires Valid() && root in spaces && 1 <= level <= 2 && va < MAXVA
      requires level == 2 ==> pagetable == root
      requires level == 1 ==>
        va / PGSIZE / ENTRIES / ENTRIES in spaces[root].mid && pagetable == MidPage(spaces[root], va / PGSIZE / ENTRIES)
      ensures pagetable in mem
      ensures Px(level, va) == va / PGSIZE / (if level == 2 then ENTRIES * ENTRIES else ENTRIES) % ENTRIES
      ensures var pte := mem[pagetable][Px(level, va)]; var sp := spaces[root]; var v := va / PGSIZE;
              if level == 2 then
                if pte.flags.v then v / ENTRIES / ENTRIES in sp.mid && pte.ppn == MidPage(sp, v / ENTRIES)
                else v / ENTRIES / ENTRIES !in sp.mid && v !in sp.view
              else
                if pte.flags.v then v / ENTRIES in sp.low && pte.ppn == LowPage(sp, v)
                else v / ENTRIES !in sp.low && v !in sp.view
      ensures var pte := mem[pagetable][Px(level, va)]; pte.flags.v ==> pte.ppn in owner
    {
      Open();
      var sp, v := spaces[root], va / PGSIZE;
      Indices(va);
      assert Owns(owner, root, sp);
      assert RootOk(mem, root, sp, v / ENTRIES / ENTRIES) && MidOk(mem, sp, v / ENTRIES);
    }

    /** One level of walk(): the table below, or 0. */
    method NextTable(root: int, level: int, pagetable: int, va: nat, alloc: bool) returns (page: int)
      requires Valid() && root in spaces && 1 <= level <= 2 && va < MAXVA
      requires level == 2 ==> pagetable == root
      requires level == 1 ==>
        va / PGSIZE / ENTRIES / ENTRIES in spaces[root].mid && pagetable == MidPage(spaces[root], va / PGSIZE / ENTRIES)
      modifies `mem, `freelist, `free, `owner, `spaces
      ensures Valid() && SameView(old(spaces), spaces, root) && TablesGrew(old(mem), old(owner), mem, owner, root)
      ensures !alloc ==> mem == old(mem) && owner == old(owner) && spaces == old(spaces) && free == old(free)
      ensures page == 0 <==> !HasTable(old(spaces[root]), level, va / PGSIZE) && (!alloc || old(|free|) == 0)
      ensures |free| == old(|free|) - if page != 0 && !HasTable(old(spaces[root]), level, va / PGSIZE) then 1 else 0
      ensures spaces[root].mid.Keys ==
        old(spaces[root].mid.Keys) + if page != 0 && level == 2 then {va / PGSIZE / ENTRIES / ENTRIES} else {}
      ensures spaces[root].low.Keys ==
        old(spaces[root].low.Keys) + if page != 0 && level == 1 then {va / PGSIZE / ENTRIES} else {}
      ensures page == 0 ==> va / PGSIZE !in spaces[root].view
      ensures page == 0 && alloc ==> forall q | q in owner :: owner[q] != Free
      ensures page != 0 && level == 2 ==>
        va / PGSIZE / ENTRIES / ENTRIES in spaces[root].mid && page == MidPage(spaces[root], va / PGSIZE / ENTRIES)
      ensures page != 0 && level == 1 ==>
        va / PGSIZE / ENTRIES in spaces[root].low && page == LowPage(spaces[root], va / PGSIZE)
    {
      Looked(root, level, pagetable, va);
      PoolKeys();
      var pte := mem[pagetable][Px(level, va)];
      if pte.flags.v {
        page := pte.ppn;
      } else if !alloc {
        page := 0;
      } else {
        page := AddTable(root, level, pagetable, Px(level, va), va / PGSIZE);
      }
    }

    /** The level-0 page and the index of the entry for va; page 0 when there is none. */
    method Walk(root: int, va: nat, alloc: bool) returns (pagetable: int, idx: nat, panicked: bool)
      requires Valid() && root in spaces
      modifies `mem, `freelist, `free, `owner, `spaces
      ensures panicked <==> va >= MAXVA
      ensures Valid() && SameView(old(spaces), spaces, root) && TablesGrew(old(mem), old(owner), mem, owner, root)
      ensures panicked || !alloc ==>
        mem == old(mem) && owner == old(owner) && spaces == old(spaces) && free == old(free)
      ensures !panicked && pagetable != 0 ==>
        var v := va / PGSIZE;
        v / ENTRIES in spaces[root].low && pagetable == LowPage(spaces[root], v) && idx == v % ENTRIES
      ensures !panicked && pagetable == 0 ==> va / PGSIZE !in spaces[root].view
      ensures !panicked && pagetable == 0 && alloc ==> forall q | q in owner :: owner[q] != Free
      ensures !panicked && alloc ==> (pagetable == 0 <==> old(|free|) < Lacks(old(spaces[root]), va / PGSIZE))
      ensures !panicked && alloc && pagetable != 0 ==>
        Tabled(old(spaces[root]), spaces[root], va / PGSIZE)
        && |free| == old(|free|) - Lacks(old(spaces[root]), va / PGSIZE)
    {
      pagetable, idx := root, 0;
      if va >= MAXVA {
        return 0, 0, true;
      }
      ghost var v := va / PGSIZE;
      RootInPool(root);
      PoolKeys();
      var level := 2;
      while level > 0
        invariant 0 <= level <= 2
        invariant Valid() && SameView(old(spaces), spaces, root) && TablesGrew(old(mem), old(owner), mem, owner, root)
        invariant !alloc ==> mem == old(mem) && owner == old(owner) && spaces == old(spaces) && free == old(free)
        invariant pagetable != 0 && (level == 2 ==> pagetable == root)
        invariant spaces[root].mid.Keys ==
          old(spaces[root].mid.Keys) + if level < 2 then {v / ENTRIES / ENTRIES} else {}
        invariant spaces[root].low.Keys == old(spaces[root].low.Keys) + if level < 1 then {v / ENTRIES} else {}
        invariant |free| == old(|free|) - (if level < 2 && !HasTable(old(spaces[root]), 2, v) then 1 else 0)
          - (if level < 1 && !HasTable(old(spaces[root]), 1, v) then 1 else 0)
        invariant level == 1 ==>
          v / ENTRIES / ENTRIES in spaces[root].mid && pagetable == MidPage(spaces[root], v / ENTRIES)
        invariant level == 0 ==> v / ENTRIES in spaces[root].low && pagetable == LowPage(spaces[root], v)
      {
        pagetable := NextTable(root, level, pagetable, va, alloc);
        if pagetable == 0 {
          return 0, 0, false;
        }
        level := level - 1;
      }
      idx := Px(0, va);
      return pagetable, idx, false;
    }

    lemma LowEntry(root: int, v: int)
      requires Valid() && root in spaces && v / ENTRIES in spaces[root].low
      ensures LowPage(spaces[root], v) in mem
      ensures var w := mem[LowPage(spaces[root], v)][v % ENTRIES];
              if v in spaces[root].view then w == spaces[root].view[v] && w.flags.v else !w.flags.v
    {
      Open();
      assert Owns(owner, root, spaces[root]);
      assert LowOk(mem, spaces[root], v);
    }

    /** `*pte = w`, for the entry of page v. */
    method SetEntry(root: int, ghost v: int, pagetable: int, idx: nat, w: Word)
      requires Valid() && root in spaces && v / ENTRIES in spaces[root].low
      requires pagetable == LowPage(spaces[root], v) && idx == v % ENTRIES
      requires forall p {:trigger owner[p]} | p in owner :: owner[p] != User(root, v)
      modifies `mem, `spaces
      ensures Valid() && root in spaces && spaces == old(spaces)[root := spaces[root]]
      ensures TablesGrew(old(mem), owner, mem, owner, root)
      ensures spaces[root].view == if w.flags.v then old(spaces[root].view)[v := w] else old(spaces[root].view) - {v}
      ensures spaces[root].low == old(spaces[root].low) && spaces[root].mid == old(spaces[root].mid)
    {
      Open();
      ghost var sp := spaces[root];
      LowEntry(root, v);
      assert owner[pagetable] == Low(root, v / ENTRIES);
      ghost var view := if w.flags.v then sp.view[v := w] else sp.view - {v};
      LeafSet(mem, owner, spaces, freelist, free, root, v, w, view);
      mem := Set(mem, pagetable, idx, w);
      spaces := spaces[root := sp.(view := view)];
    }

    lemma NotUser(root: int, v: int)
      requires Valid() && root in spaces && v !in spaces[root].view
      ensures forall p {:trigger owner[p]} | p in owner :: owner[p] != User(root, v)
    {
      Open();
      forall p | p in owner ensures owner[p] != User(root, v) {
        assert PageOk(spaces, p, owner[p]);
      }
    }

    /** The body of the loop in mappages(): page v onto frame ppn. */
    method MapPage(root: int, a: nat, p: nat, perm: Flags, ghost v: nat, ghost ppn: nat) returns (r: Outcome)
      requires Valid() && root in spaces && a == v * PGSIZE && ppn == p / PGSIZE
      modifies `mem, `freelist, `free, `owner, `spaces
      ensures Valid() && root in spaces && spaces == old(spaces)[root := spaces[root]]
      ensures TablesGrew(old(mem), old(owner), mem, owner, root)
      ensures r == Panic <==> v in old(spaces[root].view) || v >= MAXVPN
      ensures r == NoMemory ==> forall q | q in owner :: owner[q] != Free
      ensures r == NoMemory ==> old(|free|) < Lacks(old(spaces[root]), v)
      ensures r == Done ==>
        Tabled(old(spaces[root]), spaces[root], v) && |free| == old(|free|) - Lacks(old(spaces[root]), v)
      ensures spaces[root].view ==
        if r == Done then old(spaces[root].view)[v := Pte(ppn, perm)] else old(spaces[root].view)
    {
      var pagetable, idx, panicked := Walk(root, a, true);
      if panicked {
        return Panic;
      }
      if pagetable == 0 {
        return NoMemory;
      }
      LowEntry(root, v);
      if mem[pagetable][idx].flags.v {
        return Panic;
      }
      NotUser(root, v);
      label Walked:
      SetEntry(root, v, pagetable, idx, Pte(p / PGSIZE, perm));
      GrewTrans(old(mem), old(owner), old@Walked(mem), owner, mem, owner, root);
      return Done;
    }

    /** One turn of the loop in mappages(), after `done` of n pages. */
    method MapNext(root: int, a: nat, p: nat, perm: Flags, ghost spaces0: map<int, Space>, ghost m0: map<int, Page>,
                   ghost o0: map<int, Owner>, ghost f0: nat, ghost v: nat, ghost done: nat, ghost n: nat,
                   ghost ppn: nat) returns (r: Outcome)
      requires Valid() && Mapping(spaces0, m0, o0, f0, spaces, mem, owner, |free|, root, v, done, ppn, perm)
      requires a == (v + done) * PGSIZE && ppn + done == p / PGSIZE && done < n
      modifies `mem, `freelist, `free, `owner, `spaces
      ensures Valid() && root in spaces && spaces == spaces0[root := spaces[root]]
      ensures r == Done ==>
        Mapping(spaces0, m0, o0, f0, spaces, mem, owner, |free|, root, v, done + 1, ppn, perm)
      ensures r != Done ==> TablesGrew(m0, o0, mem, owner, root) && (done > 0 ==> v + done <= MAXVPN)
      ensures r != Done ==> Mapped(spaces0[root].view, spaces[root].view, v, done, ppn, perm)
      ensures r == Panic ==> v + done in spaces0[root].view || v + done >= MAXVPN
      ensures r == NoMemory ==> Short(spaces0[root], f0, 0, v, n) && forall q | q in owner :: owner[q] != Free
    {
      ghost var spaces1, m1, o1, f1 := spaces, mem, owner, |free|;
      MappingIs(spaces0, m0, o0, f0, spaces1, m1, o1, f1, root, v, done, ppn, perm);
      r := MapPage(root, a, p, perm, v + done, ppn + done);
      if r == Done {
        MappingNext(spaces0, m0, o0, f0, spaces1, m1, o1, f1, spaces, mem, owner, |free|, root, v, done, ppn, perm);
      } else {
        GrewTrans(m0, o0, m1, o1, mem, owner, root);
        MappedMore(spaces0[root].view, spaces1[root].view, v, done, ppn, perm);
        if r == NoMemory {
          ShortAt(spaces0[root], spaces1[root], f0, f1, 0, 0, v, done, n);
        }
      }
    }

    /** The loop of mappages(), for the n pages from v and the frames from ppn. */
    method MapLoop(root: int, va: nat, last: nat, pa: nat, perm: Flags, ghost v: nat, ghost n: nat, ghost ppn: nat,
                   ghost off: nat)
      returns (r: Outcome, ghost done: nat)
      requires Valid() && root in spaces && va == v * PGSIZE && 0 < n && last == (v + n - 1) * PGSIZE
      requires pa == ppn * PGSIZE + off && off < PGSIZE
      modifies `mem, `freelist, `free, `owner, `spaces
      ensures Valid() && root in spaces && spaces == old(spaces)[root := spaces[root]]
      ensures TablesGrew(old(mem), old(owner), mem, owner, root)
      ensures Mapped(old(spaces[root].view), spaces[root].view, v, done, ppn, perm) && (done > 0 ==> v + done <= MAXVPN)
      ensures if r == Done then done == n else done < n
      ensures r == NoMemory ==> forall q | q in owner :: owner[q] != Free
      ensures r == NoMemory ==> Short(old(spaces[root]), old(|free|), 0, v, n)
      ensures r == Done ==> Paid(old(spaces[root]), spaces[root], old(|free|), |free|, 0, v, n)
      ensures r == Panic ==> v + done in old(spaces[root].view) || v + done >= MAXVPN
    {
      var a, p := va, pa;
      done := 0;
      PoolKeys();
      PaidNone(spaces[root], |free|, v);
      while true
        invariant a == (v + done) * PGSIZE && done < n && p == (ppn + done) * PGSIZE + off && Valid()
        invariant Mapping(old(spaces), old(mem), old(owner), old(|free|), spaces, mem, owner, |free|, root, v, done,
          ppn, perm)
        decreases n - done
      {
        FrameAt(p, ppn + done, off);
        r := MapNext(root, a, p, perm, old(spaces), old(mem), old(owner), old(|free|), v, done, n, ppn);
        if r != Done {
          return r, done;
        }
        done := done + 1;
        if a == last {
          break;
        }
        a := a + PGSIZE;
        p := p + PGSIZE;
      }
      LastPage(v + done - 1, v + n - 1);
      MappingIs(old(spaces), old(mem), old(owner), old(|free|), spaces, mem, owner, |free|, root, v, n, ppn, perm);
      return Done, n;
    }

    lemma FrameAt(p: int, ppn: nat, off: nat)
      requires p == ppn * PGSIZE + off && off < PGSIZE
      ensures ppn == p / PGSIZE
    {}

    lemma LastPage(u: int, w: int)
      requires u * PGSIZE == w * PGSIZE
      ensures u == w
    {}

    /** done is the number of pages mapped: all of them, or those before the failure. */
    method Mappages(root: int, va: nat, size: nat, pa: nat, perm: Flags) returns (r: Outcome, ghost done: nat)
      requires Valid() && root in spaces
      modifies `mem, `freelist, `free, `owner, `spaces
      ensures Valid() && root in spaces && spaces == old(spaces)[root := spaces[root]]
      ensures TablesGrew(old(mem), old(owner), mem, owner, root)
      ensures Mapped(old(spaces[root].view), spaces[root].view, va / PGSIZE, done, pa / PGSIZE, perm)
      ensures done > 0 ==> va / PGSIZE + done <= MAXVPN
      ensures va % PGSIZE != 0 || size % PGSIZE != 0 || size == 0 ==> r == Panic && done == 0
      ensures r == Done ==> done == size / PGSIZE
      ensures r == NoMemory ==> done < size / PGSIZE && forall q | q in owner :: owner[q] != Free
      ensures r == NoMemory ==> Short(old(spaces[root]), old(|free|), 0, va / PGSIZE, size / PGSIZE)
      ensures r == Done ==>
        Paid(old(spaces[root]), spaces[root], old(|free|), |free|, 0, va / PGSIZE, size / PGSIZE)
      ensures r == Panic && va % PGSIZE == 0 && size % PGSIZE == 0 && size != 0 ==>
        done < size / PGSIZE && (va / PGSIZE + done in old(spaces[root].view) || va / PGSIZE + done >= MAXVPN)
    {
      if va % PGSIZE != 0 || size % PGSIZE != 0 || size == 0 {
        return Panic, 0;
      }
      r, done := MapLoop(root, va, va + size - PGSIZE, pa, perm, va / PGSIZE, size / PGSIZE, pa / PGSIZE, pa % PGSIZE);
    }

    /** The page mapped at v leaves the hands of the user. */
    ghost method Reclaim(root: int, v: int)
      requires Valid() && root in spaces && v in spaces[root].view
      modifies `owner
      ensures Valid() && Released(old(owner), owner, root, v, 1, Held)
      ensures spaces[root].view[v].ppn !in old(owner) ==> owner == old(owner)
      ensures forall q | q in old(owner) && old(owner[q]) == User(root, v) :: q == spaces[root].view[v].ppn
    {
      Open();
      forall q | q in owner && owner[q] == User(root, v) ensures q == spaces[root].view[v].ppn {
        assert PageOk(spaces, q, owner[q]);
      }
      var p := spaces[root].view[v].ppn;
      if p in owner && owner[p] == User(root, v) {
        Handed(mem, owner, spaces, freelist, free, p, Held);
        owner := owner[p := Held];
      }
    }

    /** The body of the loop in uvmunmap(). */
    method UnmapPage(root: int, a: nat, doFree: bool, ghost v: nat) returns (panicked: bool)
      requires Valid() && root in spaces && a == v * PGSIZE
      requires doFree && v in spaces[root].view && spaces[root].view[v].ppn in owner ==>
        owner[spaces[root].view[v].ppn] == User(root, v)
      modifies `mem, `freelist, `free, `owner, `spaces
      ensures Valid() && root in spaces && spaces == old(spaces)[root := spaces[root]]
      ensures KeptData(old(mem), old(owner), mem, owner, root)
      ensures panicked <==> !CanUnmap(old(spaces[root].view), old(owner), v, doFree)
      ensures panicked ==> spaces == old(spaces) && owner == old(owner) && mem == old(mem)
      ensures !panicked ==>
        spaces[root].view == old(spaces[root].view) - {v}
        && Released(old(owner), owner, root, v, 1, if doFree then Free else Held)
    {
      var pagetable, idx;
      pagetable, idx, panicked := Walk(root, a, false);
      if panicked || pagetable == 0 {
        return true;
      }
      LowEntry(root, v);
      var pte := mem[pagetable][idx];
      if !pte.flags.v || pte.flags == NONE.(v := true) {
        return true;
      }
      Reclaim(root, v);
      if doFree {
        panicked := Kfree(pte.ppn);
        if panicked {
          return;
        }
      }
      SetEntry(root, v, pagetable, idx, ZERO);
      return false;
    }

    /** The pages to be freed, where they are in the pool, are the user's. */
    ghost predicate Freeable(root: int, v: int, n: nat)
      requires root in spaces
      reads this
    {
      forall u | v <= u < v + n && u in spaces[root].view :: FrameIsUsers(spaces[root].view, owner, root, u)
    }

    /** done is the number of pages unmapped before the end or the panic. */
    method Uvmunmap(root: int, va: nat, npages: nat, doFree: bool) returns (panicked: bool, ghost done: nat)
      requires Valid() && root in spaces
      requires doFree ==> Freeable(root, va / PGSIZE, npages)
      modifies `mem, `freelist, `free, `owner, `spaces
      ensures Valid() && root in spaces && spaces == old(spaces)[root := spaces[root]]
      ensures panicked ==>
        va % PGSIZE != 0 || (done < npages && !CanUnmap(old(spaces[root].view), old(owner), va / PGSIZE + done, doFree))
      ensures !panicked ==> va % PGSIZE == 0 && done == npages
      ensures forall u {:trigger CanUnmap(old(spaces[root].view), old(owner), u, doFree)} |
        va / PGSIZE <= u < va / PGSIZE + done :: CanUnmap(old(spaces[root].view), old(owner), u, doFree)
      ensures Unmapped(old(spaces[root].view), spaces[root].view, va / PGSIZE, done)
      ensures Released(old(owner), owner, root, va / PGSIZE, done, if doFree then Free else Held)
      ensures KeptData(old(mem), old(owner), mem, owner, root)
    {
      done := 0;
      if va % PGSIZE != 0 {
        return true, 0;
      }
      ghost var view, m0, o0, v, o := spaces[root].view, mem, owner, va / PGSIZE, if doFree then Free else Held;
      var a := va;
      while a < va + npages * PGSIZE
        invariant a == (v + done) * PGSIZE && done <= npages
        invariant Valid() && root in spaces && spaces == old(spaces)[root := spaces[root]]
        invariant Unmapped(view, spaces[root].view, v, done) && Released(o0, owner, root, v, done, o)
        invariant KeptData(m0, o0, mem, owner, root)
        invariant forall u {:trigger CanUnmap(view, o0, u, doFree)} | v <= u < v + done :: CanUnmap(view, o0, u, doFree)
        decreases npages - done
      {
        UnmappedMore(view, spaces[root].view, v, done);
        assert doFree && v + done in view ==> FrameIsUsers(view, o0, root, v + done);
        ghost var m1, o1 := mem, owner;
        panicked := UnmapPage(root, a, doFree, v + done);
        if panicked {
          return true, done;
        }
        ReleasedMore(m0, o0, m1, o1, mem, owner, root, v, done, o);
        done := done + 1;
        a := a + PGSIZE;
      }
      return false, done;
    }

    /** kalloc(), fill, mappages() of one page, as uvmalloc() and uvmcopy() do, with the kfree() on
        failure. */
    method MapFresh(root: int, a: nat, page: Page, perm: Flags, ghost v: nat) returns (r: Outcome)
      requires Valid() && root in spaces && a == v * PGSIZE
      modifies `mem, `freelist, `free, `owner, `spaces
      ensures Valid() && root in spaces && spaces == old(spaces)[root := spaces[root]]
      ensures KeptData(old(mem), old(owner), mem, owner, root)
      ensures r == Panic ==> v in old(spaces[root].view) || v >= MAXVPN
      ensures r == Done ==>
        v < MAXVPN && forall p {:trigger old(owner)[p]} | p in old(owner) :: old(owner)[p] != User(root, v)
      ensures r == NoMemory ==>
        spaces[root].view == old(spaces[root].view) && TablesGrew(old(mem), old(owner), mem, owner, root)
      ensures r == Done ==>
        Grown(old(spaces[root].view), old(owner), spaces[root].view, owner, mem, root, v, [Want(perm, page)])
      ensures r == NoMemory ==> old(|free|) < 1 + Lacks(old(spaces[root]), v)
      ensures r == Done ==>
        Tabled(old(spaces[root]), spaces[root], v) && |free| == old(|free|) - 1 - Lacks(old(spaces[root]), v)
    {
      ghost var m0, o0, view := mem, owner, spaces[root].view;
      if v !in view {
        NotUser(root, v);
      }
      var p := Kalloc();
      if p == 0 {
        return NoMemory;
      }
      Fill(p, page);
      r := MapHeld(root, a, p, page, perm, v, m0, o0, view);
    }

    /** mappages() of one page. */
    method MapOne(root: int, a: nat, p: int, perm: Flags, ghost v: nat) returns (r: Outcome, ghost done: nat)
      requires Valid() && root in spaces && a == v * PGSIZE && p in owner
      modifies `mem, `freelist, `free, `owner, `spaces
      ensures Valid() && root in spaces && spaces == old(spaces)[root := spaces[root]]
      ensures TablesGrew(old(mem), old(owner), mem, owner, root)
      ensures Mapped(old(spaces[root].view), spaces[root].view, v, done, p, perm) && done == if r == Done then 1 else 0
      ensures r == Done ==> v < MAXVPN
      ensures r == Panic ==> v in old(spaces[root].view) || v >= MAXVPN
      ensures r == NoMemory ==> old(|free|) < Lacks(old(spaces[root]), v)
      ensures r == Done ==>
        Tabled(old(spaces[root]), spaces[root], v) && |free| == old(|free|) - Lacks(old(spaces[root]), v)
    {
      PageAddress(v);
      assert p in owner && 0 < end <= p;
      PageAddress(p);
      ghost var sp0, f0 := spaces[root], |free|;
      r, done := Mappages(root, a, PGSIZE, p * PGSIZE, perm);
      if r == NoMemory {
        OneShort(sp0, f0, 0, v);
      } else if r == Done {
        OnePaid(sp0, spaces[root], f0, |free|, 0, v);
      }
    }

    /** ... from mappages() on. */
    method MapHeld(root: int, a: nat, p: int, page: Page, perm: Flags, ghost v: nat,
                   ghost m0: map<int, Page>, ghost o0: map<int, Owner>, ghost view: map<int, Word>) returns (r: Outcome)
      requires Valid() && root in spaces && a == v * PGSIZE && view == spaces[root].view
      requires p in o0 && o0[p] == Free && owner == o0[p := Held] && m0.Keys == o0.Keys && mem == m0[p := page]
      requires v !in view ==> forall q {:trigger o0[q]} | q in o0 :: o0[q] != User(root, v)
      modifies `mem, `freelist, `free, `owner, `spaces
      ensures Valid() && root in spaces && spaces == old(spaces)[root := spaces[root]]
      ensures KeptData(m0, o0, mem, owner, root)
      ensures r == Panic ==> v in view || v >= MAXVPN
      ensures r == Done ==> v < MAXVPN && forall q {:trigger o0[q]} | q in o0 :: o0[q] != User(root, v)
      ensures r == NoMemory ==> spaces[root].view == view && TablesGrew(m0, o0, mem, owner, root)
      ensures r == Done ==> Grown(view, o0, spaces[root].view, owner, mem, root, v, [Want(perm, page)])
      ensures r == NoMemory ==> old(|free|) < Lacks(old(spaces[root]), v)
      ensures r == Done ==>
        Tabled(old(spaces[root]), spaces[root], v) && |free| == old(|free|) - Lacks(old(spaces[root]), v)
    {
      ghost var m1, o1 := mem, owner;
      ghost var done;
      r, done := MapOne(root, a, p, perm, v);
      ghost var m2, o2 := mem, owner;
      assert owner[p] == Held && mem[p] == page;
      if r == NoMemory {
        MappedNone(view, spaces[root].view, v, p, perm);
        var failed := Kfree(p);
        Handled(m0, o0, m1, o1, m2, o2, mem, owner, root, p, Free);
      } else if r == Done {
        MapFreshDone(view, spaces[root].view, v, p, perm);
        Adopt(root, v, p);
        Handled(m0, o0, m1, o1, m2, o2, mem, owner, root, p, User(root, v));
        GrownOnce(view, o0, spaces[root].view, owner, mem, root, v, p, Want(perm, page));
      } else {
        Handled(m0, o0, m1, o1, m2, o2, mem, owner, root, p, Held);
      }
    }

    lemma GrownOnce(view: map<int, Word>, owner: map<int, Owner>, view': map<int, Word>, owner': map<int, Owner>,
                    mem': map<int, Page>,
                    root: int, v: int, p: int, w: Want)
      requires v !in view && view' == view[v := Pte(p, w.perm)] && owner'.Keys == owner.Keys == mem'.Keys
      requires p in owner && owner[p] == Free && owner'[p] == User(root, v) && mem'[p] == w.page
      requires forall q {:trigger owner'[q]} | q in owner && q != p ::
        owner'[q] == owner[q] || (owner[q] == Free && TableOf(owner'[q], root))
      ensures Grown(view, owner, view', owner', mem', root, v, [w])
    {}

    /** Page p is taken from the pool, tables grow, and p goes to o. */
    lemma Handled(mem: map<int, Page>, owner: map<int, Owner>, mem1: map<int, Page>, owner1: map<int, Owner>,
                  mem2: map<int, Page>, owner2: map<int, Owner>, mem3: map<int, Page>, owner3: map<int, Owner>,
                    root: int, p: int, o: Owner)
      requires mem.Keys == owner.Keys && p in owner && owner[p] == Free && owner1 == owner[p := Held]
      requires mem1.Keys == mem.Keys && forall q {:trigger mem1[q]} | q in mem && q != p :: mem1[q] == mem[q]
      requires TablesGrew(mem1, owner1, mem2, owner2, root) && owner3 == owner2[p := o]
      requires mem3.Keys == mem2.Keys && forall q {:trigger mem3[q]} | q in mem2 && q != p :: mem3[q] == mem2[q]
      ensures KeptData(mem, owner, mem3, owner3, root)
      ensures o == Free ==> TablesGrew(mem, owner, mem3, owner3, root)
      ensures forall q {:trigger owner3[q]} | q in owner && q != p ::
        owner3[q] == owner[q] || (owner[q] == Free && TableOf(owner3[q], root))
    {
      forall q {:trigger owner3[q]} | q in owner && q != p
        ensures owner3[q] == owner[q] || (owner[q] == Free && TableOf(owner3[q], root))
      {
        assert owner2[q] == owner1[q] || owner1[q] == Free;
      }
      forall q {:trigger mem3[q]} | q in owner && q != p && owner3[q] == owner[q] && owner[q] != Free
        && !TableOf(owner[q], root)
        ensures mem3[q] == mem[q]
      {
        assert mem2[q] == mem1[q];
      }
    }

    lemma MappedNone(view: map<int, Word>, view': map<int, Word>, v: int, p: int, perm: Flags)
      requires Mapped(view, view', v, 0, p, perm)
      ensures view' == view
    {
      forall u ensures (u in view' <==> u in view) && (u in view ==> view'[u] == view[u]) {}
    }

    lemma MapFreshDone(view: map<int, Word>, view': map<int, Word>, v: int, p: int, perm: Flags)
      requires Mapped(view, view', v, 1, p, perm)
      ensures v !in view && view' == view[v := Pte(p, perm)]
    {
      assert v in view' || v !in view';
      forall u ensures (u in view' <==> u in view || u == v) && (u in view && u != v ==> view'[u] == view[u]) {}
    }

    /** A page the kernel held is now the user's, at v. */
    ghost method Adopt(root: int, v: int, p: int)
      requires Valid() && root in spaces && v in spaces[root].view && spaces[root].view[v].ppn == p && p in owner
      requires owner[p] == Held
      modifies `owner
      ensures Valid() && owner == old(owner)[p := User(root, v)]
    {
      Open();
      Handed(mem, owner, spaces, freelist, free, p, User(root, v));
      owner := owner[p := User(root, v)];
    }

    /** Returns the new size, as the source does. */
    method Uvmdealloc(root: int, oldsz: nat, newsz: nat) returns (sz: nat, panicked: bool)
      requires Valid() && root in spaces && (newsz < oldsz ==> oldsz <= MAXVA)
      requires newsz < oldsz ==> Freeable(root, Pages(newsz), Pages(oldsz) - Pages(newsz))
      modifies `mem, `freelist, `free, `owner, `spaces
      ensures Valid() && root in spaces && spaces == old(spaces)[root := spaces[root]]
      ensures newsz >= oldsz ==>
        sz == oldsz && !panicked && mem == old(mem) && owner == old(owner) && spaces == old(spaces)
      ensures newsz < oldsz && !panicked ==>
        var n := Pages(oldsz) - Pages(newsz);
        && sz == newsz && Unmapped(old(spaces[root].view), spaces[root].view, Pages(newsz), n)
        && Released(old(owner), owner, root, Pages(newsz), n, Free) && KeptData(old(mem), old(owner), mem, owner, root)
      ensures panicked ==>
        exists u :: Pages(newsz) <= u < Pages(oldsz) && !CanUnmap(old(spaces[root].view), old(owner), u, true)
    {
      if newsz >= oldsz {
        return oldsz, false;
      }
      ghost var view := spaces[root].view;
      if PgRoundUp(newsz) < PgRoundUp(oldsz) {
        var npages := (PgRoundUp(oldsz) - PgRoundUp(newsz)) / PGSIZE;
        ghost var done;
        panicked, done := Uvmunmap(root, PgRoundUp(newsz), npages, true);
      } else {
        assert Pages(newsz) == Pages(oldsz);
        panicked := false;
      }
      return newsz, panicked;
    }

    /** The pages and permissions that uvmalloc() adds. */
    ghost function Zeroed(n: nat, xperm: Flags): (want: seq<Want>)
      ensures |want| == n && forall i | 0 <= i < n :: want[i] == Want(xperm.(r := true, u := true), Filled(ZERO))
    {
      seq(n, _ => Want(xperm.(r := true, u := true), Filled(ZERO)))
    }

    /** One turn of the loop in uvmalloc(), with its error path. */
    method AllocOne(root: int, a: nat, perm: Flags, start: nat, ghost spaces0: map<int, Space>,
                    ghost m0: map<int, Page>, ghost o0: map<int, Owner>, ghost free0: seq<int>,
                    ghost v: nat, ghost n: nat, ghost total: nat, ghost want: seq<Want>) returns (r: Outcome)
      requires Valid() && Filling(spaces0, m0, o0, |free0|, spaces, mem, owner, |free|, root, v, want, n)
      requires a == (v + n) * PGSIZE && start == v * PGSIZE && n < total && IsLeaf(perm)
      requires forall p {:trigger o0[p]} | p in o0 && o0[p] == Free :: p in free0
      modifies `mem, `freelist, `free, `owner, `spaces
      ensures Valid() && root in spaces && spaces == spaces0[root := spaces[root]]
      ensures r == Done ==>
        Filling(spaces0, m0, o0, |free0|, spaces, mem, owner, |free|, root, v, want + [Want(perm, Filled(ZERO))], n + 1)
      ensures r == NoMemory ==>
        Restored(spaces0, m0, o0, spaces, mem, owner, root) && Short(spaces0[root], |free0|, total, v, total)
      ensures r == Panic ==> (v + n in spaces0[root].view || v + n >= MAXVPN) && n <= |free0|
    {
      ghost var spaces1, m1, o1, view1, f1 := spaces, mem, owner, spaces[root].view, |free|;
      FillingIs(spaces0, m0, o0, |free0|, spaces1, m1, o1, f1, root, v, want, n);
      GrowingAt(m0, o0, spaces0[root].view, m1, o1, view1, root, v, want);
      GrowingCount(m0, o0, spaces0[root].view, m1, o1, view1, root, v, want, free0);
      r := MapFresh(root, a, Filled(ZERO), perm, v + n);
      if r == NoMemory {
        FillingStuck(spaces0, m0, o0, |free0|, spaces1, m1, o1, f1, view1, mem, owner, root, v, want, n, total);
        UndoAlloc(root, m0, o0, spaces0[root].view, v, want, a, start);
      } else if r == Done {
        FillingNext(spaces0, m0, o0, |free0|, spaces1, m1, o1, f1, spaces, mem, owner, |free|, root, v, want,
          Want(perm, Filled(ZERO)), n);
      }
    }

    /** The error path of uvmalloc(). */
    method UndoAlloc(root: int, ghost m0: map<int, Page>, ghost o0: map<int, Owner>, ghost view0: map<int, Word>,
                     ghost v: nat, ghost want: seq<Want>, a: nat, start: nat)
      requires Valid() && root in spaces && start == v * PGSIZE && a == (v + |want|) * PGSIZE
      requires Growing(m0, o0, view0, mem, owner, spaces[root].view, root, v, want)
      requires (|want| > 0 ==> v + |want| <= MAXVPN)
      requires forall u | v <= u < v + |want| ::
        u in spaces[root].view && CanUnmap(spaces[root].view, owner, u, true)
        && FrameIsUsers(spaces[root].view, owner, root, u)
      modifies `mem, `freelist, `free, `owner, `spaces
      ensures Valid() && root in spaces && spaces == old(spaces)[root := spaces[root]]
      ensures spaces[root].view == view0 && TablesGrew(m0, o0, mem, owner, root)
    {
      ghost var m1, o1, view1 := mem, owner, spaces[root].view;
      PageCount(v);
      PageCount(v + |want|);
      var sz, panicked := Uvmdealloc(root, a, start);
      if |want| == 0 {
        NothingUnmapped(m1, o1, view1, root, v);
      }
      GrowingUndone(m0, o0, view0, m1, o1, view1, mem, owner, spaces[root].view, root, v, want);
    }

    lemma PageCount(v: nat)
      ensures Pages(v * PGSIZE) == v
    {}

    lemma NothingUnmapped(mem: map<int, Page>, owner: map<int, Owner>, view: map<int, Word>, root: int, v: int)
      requires mem.Keys == owner.Keys
      ensures Unmapped(view, view, v, 0) && Released(owner, owner, root, v, 0, Free)
      ensures KeptData(mem, owner, mem, owner, root)
    {}

    method Uvmalloc(root: int, oldsz: nat, newsz: nat, xperm: Flags) returns (sz: nat, panicked: bool)
      requires Valid() && root in spaces
      modifies `mem, `freelist, `free, `owner, `spaces
      ensures Valid() && root in spaces && spaces == old(spaces)[root := spaces[root]]
      ensures newsz < oldsz ==>
        sz == oldsz && !panicked && mem == old(mem) && owner == old(owner) && spaces == old(spaces)
      ensures newsz >= oldsz && !panicked ==> sz == newsz || sz == 0
      ensures newsz >= oldsz && !panicked && (sz > 0 || newsz == 0) ==>
        var n := Pages(newsz) - Pages(oldsz);
        && KeptData(old(mem), old(owner), mem, owner, root)
        && Grown(old(spaces[root].view), old(owner), spaces[root].view, owner, mem, root, Pages(oldsz),
             Zeroed(n, xperm))
      ensures newsz >= oldsz && !panicked && sz == 0 && newsz > 0 ==>
        Restored(old(spaces), old(mem), old(owner), spaces, mem, owner, root)
      ensures newsz >= oldsz && newsz > 0 && !panicked ==>
        (sz != 0 <==> Enough(old(|free|), old(spaces[root]), Pages(oldsz), Pages(newsz)))
      ensures panicked ==>
        exists u :: Bars(old(spaces[root].view), u, Pages(oldsz), Pages(newsz)) && u - Pages(oldsz) <= old(|free|)
    {
      if newsz < oldsz {
        return oldsz, false;
      }
      FreeListed();
      ghost var v, n, total := Pages(oldsz), 0, Pages(newsz) - Pages(oldsz);
      ghost var want: seq<Want> := [];
      FillingStart(spaces, mem, owner, |free|, root, v);
      PagesGrow(oldsz, newsz);
      var start := PgRoundUp(oldsz);
      var a := start;
      while a < newsz
        invariant a == (v + n) * PGSIZE && want == Zeroed(n, xperm) && v + n <= Pages(newsz)
        invariant Valid() && root in spaces
        invariant Filling(old(spaces), old(mem), old(owner), old(|free|), spaces, mem, owner, |free|, root, v, want, n)
        decreases newsz - a
      {
        MorePages(newsz, v + n);
        var r := AllocOne(root, a, xperm.(r := true, u := true), start, old(spaces), old(mem), old(owner), old(free), v,
          n, total, want);
        if r == Panic {
          assert Bars(old(spaces[root].view), v + n, Pages(oldsz), Pages(newsz));
          return 0, true;
        }
        if r == NoMemory {
          NotEnough(old(|free|), old(spaces)[root], v, total, Pages(newsz));
          return 0, false;
        }
        want := want + [Want(xperm.(r := true, u := true), Filled(ZERO))];
        n := n + 1;
        a := a + PGSIZE;
      }
      NoMorePages(newsz, v + n);
      assert n == total;
      FillingIs(old(spaces), old(mem), old(owner), old(|free|), spaces, mem, owner, |free|, root, v, want, n);
      WasEnough(old(|free|), |free|, old(spaces)[root], spaces[root], v, n, Pages(newsz));
      GrowingEnd(old(mem), old(owner), old(spaces)[root].view, mem, owner, spaces[root].view, root, v, want);
      return newsz, false;
    }

    lemma FreeListed()
      requires Valid()
      ensures forall p {:trigger owner[p]} | p in owner && owner[p] == Free :: p in free
      ensures forall j {:trigger free[j]} | 0 <= j < |free| :: free[j] in owner && owner[free[j]] == Free
      ensures forall j, l | 0 <= j < l < |free| :: free[j] != free[l]
    {
      Open();
    }

    /** A page that is a user's is mapped where it is said to be. */
    lemma UserFrame(f: int)
      requires Valid() && f in owner && owner[f].User?
      ensures owner[f].root in spaces && owner[f].v in spaces[owner[f].root].view
      ensures spaces[owner[f].root].view[owner[f].v].ppn == f
    {
      Open();
      assert PageOk(spaces, f, owner[f]);
    }

    lemma PoolKeys()
      requires Valid()
      ensures mem.Keys == owner.Keys && 0 !in owner
    {
      Open();
    }

    /** A page belongs to a space only if there is that space. */
    lemma NoSpaceNoPages()
      requires Valid()
      ensures forall p, r {:trigger OfSpace(owner[p], r)} | p in owner && r !in spaces :: !OfSpace(owner[p], r)
    {
      Open();
      forall p, r {:trigger OfSpace(owner[p], r)} | p in owner && r !in spaces ensures !OfSpace(owner[p], r) {
        assert PageOk(spaces, p, owner[p]);
      }
    }

    /** A user writes to a page of its own. */
    method StoreUser(f: int, page: Page)
      requires Valid() && f in owner && owner[f].User?
      modifies `mem
      ensures Valid() && mem == old(mem)[f := page]
    {
      Open();
      HeldWritten(mem, owner, spaces, freelist, free, f, page);
      mem := mem[f := page];
    }

    /** What a mapped page of a space looks like in its table. */
    method ReadEntry(root: int, a: nat, ghost v: nat) returns (pte: Word, missing: bool)
      requires Valid() && root in spaces && a == v * PGSIZE
      modifies `mem, `freelist, `free, `owner, `spaces
      ensures Valid() && mem == old(mem) && owner == old(owner) && spaces == old(spaces) && free == old(free)
      ensures missing <==> v >= MAXVPN || v !in spaces[root].view
      ensures !missing ==> pte == spaces[root].view[v]
    {
      var pagetable, idx, panicked := Walk(root, a, false);
      if panicked || pagetable == 0 {
        return ZERO, true;
      }
      LowEntry(root, v);
      pte := mem[pagetable][idx];
      missing := !pte.flags.v;
    }

    /** want is what the child has been given. */
    method Uvmcopy(parent: int, child: int, sz: nat) returns (r: Outcome, ghost want: seq<Want>)
      requires Valid() && parent in spaces && child in spaces && parent != child
      requires forall u | 0 <= u < Pages(sz) && u in spaces[parent].view ::
        OwnPage(spaces[parent].view, owner, parent, u)
      modifies `mem, `freelist, `free, `owner, `spaces
      ensures Valid() && child in spaces && spaces == old(spaces)[child := spaces[child]]
      ensures r == Done ==>
        && |want| == Pages(sz) && IsCopy(spaces[parent].view, old(mem), want)
        && KeptData(old(mem), old(owner), mem, owner, child)
        && Grown(old(spaces[child].view), old(owner), spaces[child].view, owner, mem, child, 0, want)
        && Paid(old(spaces[child]), spaces[child], old(|free|), |free|, Pages(sz), 0, Pages(sz))
      ensures r == NoMemory ==>
        && Restored(old(spaces), old(mem), old(owner), spaces, mem, owner, child)
        && Short(old(spaces[child]), old(|free|), Pages(sz), 0, Pages(sz))
      ensures r == Panic ==>
        exists u :: 0 <= u < Pages(sz) && (u !in spaces[parent].view || u in old(spaces[child].view) || u >= MAXVPN)
    {
      ghost var n, total := 0, Pages(sz);
      want := [];
      PoolKeys();
      FillingStart(spaces, mem, owner, |free|, child, 0);
      var i := 0;
      while i < sz
        invariant Valid() && child in spaces && spaces == old(spaces)[child := spaces[child]]
        invariant i == n * PGSIZE && n <= total && IsCopy(spaces[parent].view, old(mem), want)
        invariant Filling(old(spaces), old(mem), old(owner), old(|free|), spaces, mem, owner, |free|, child, 0, want, n)
        decreases sz - i
      {
        MorePages(sz, n);
        r, want := CopyOne(parent, child, i, old(spaces), old(mem), old(owner), old(|free|), n, total, want);
        if r != Done {
          return;
        }
        n := n + 1;
        i := i + PGSIZE;
      }
      NoMorePages(sz, n);
      assert n == total;
      FillingIs(old(spaces), old(mem), old(owner), old(|free|), spaces, mem, owner, |free|, child, 0, want, n);
      GrowingEnd(old(mem), old(owner), old(spaces)[child].view, mem, owner, spaces[child].view, child, 0, want);
      return Done, want;
    }

    /** One turn of the loop in uvmcopy(), with its error path. */
    method CopyOne(parent: int, child: int, i: nat, ghost spaces0: map<int, Space>, ghost m0: map<int, Page>,
                   ghost o0: map<int, Owner>, ghost f0: int, ghost n: nat, ghost total: nat, ghost want: seq<Want>)
      returns (r: Outcome, ghost want': seq<Want>)
      requires Valid() && parent in spaces && parent != child && i == n * PGSIZE && n < total
      requires Filling(spaces0, m0, o0, f0, spaces, mem, owner, |free|, child, 0, want, n)
      requires IsCopy(spaces[parent].view, m0, want)
      requires n in spaces[parent].view ==> OwnPage(spaces[parent].view, o0, parent, n)
      modifies `mem, `freelist, `free, `owner, `spaces
      ensures Valid() && child in spaces && spaces == old(spaces)[child := spaces[child]]
      ensures r == Done ==> IsCopy(spaces[parent].view, m0, want')
      ensures r == Done ==> Filling(spaces0, m0, o0, f0, spaces, mem, owner, |free|, child, 0, want', n + 1)
      ensures r == NoMemory ==>
        Restored(spaces0, m0, o0, spaces, mem, owner, child) && Short(spaces0[child], f0, total, 0, total)
      ensures r == Panic ==> n !in spaces[parent].view || n in spaces0[child].view || n >= MAXVPN
    {
      want' := want;
      FillingIs(spaces0, m0, o0, f0, spaces, mem, owner, |free|, child, 0, want, n);
      GrowingAt(m0, o0, spaces0[child].view, mem, owner, spaces[child].view, child, 0, want);
      var pte, missing := ReadEntry(parent, i, n);
      if missing {
        return Panic, want;
      }
      assert OwnPage(spaces[parent].view, o0, parent, n);
      var pa := pte.ppn;
      assert owner[pa] == o0[pa];
      r := FillOne(child, i, mem[pa], pte.flags, spaces0, m0, o0, f0, n, total, want);
      if r == Done {
        want' := want + [Want(pte.flags, m0[pa])];
        CopyMore(spaces[parent].view, m0, want, Want(pte.flags, m0[pa]));
      }
    }

    /** kalloc(), memmove() and mappages() there, and the error path. */
    method FillOne(child: int, i: nat, page: Page, perm: Flags, ghost spaces0: map<int, Space>,
                   ghost m0: map<int, Page>, ghost o0: map<int, Owner>, ghost f0: int, ghost n: nat, ghost total: nat,
                   ghost want: seq<Want>) returns (r: Outcome)
      requires Valid() && i == n * PGSIZE && n < total && IsLeaf(perm)
      requires Filling(spaces0, m0, o0, f0, spaces, mem, owner, |free|, child, 0, want, n)
      modifies `mem, `freelist, `free, `owner, `spaces
      ensures Valid() && child in spaces && spaces == old(spaces)[child := spaces[child]]
      ensures r == Done ==>
        Filling(spaces0, m0, o0, f0, spaces, mem, owner, |free|, child, 0, want + [Want(perm, page)], n + 1)
      ensures r == NoMemory ==>
        Restored(spaces0, m0, o0, spaces, mem, owner, child) && Short(spaces0[child], f0, total, 0, total)
      ensures r == Panic ==> n in spaces0[child].view || n >= MAXVPN
    {
      ghost var spaces1, m1, o1, view1, f1 := spaces, mem, owner, spaces[child].view, |free|;
      FillingIs(spaces0, m0, o0, f0, spaces1, m1, o1, f1, child, 0, want, n);
      GrowingAt(m0, o0, spaces0[child].view, m1, o1, view1, child, 0, want);
      r := MapFresh(child, i, page, perm, n);
      if r == NoMemory {
        FillingStuck(spaces0, m0, o0, f0, spaces1, m1, o1, f1, view1, mem, owner, child, 0, want, n, total);
        UndoCopy(child, m0, o0, spaces0[child].view, want, i);
      } else if r == Done {
        FillingNext(spaces0, m0, o0, f0, spaces1, m1, o1, f1, spaces, mem, owner, |free|, child, 0, want,
          Want(perm, page), n);
      }
    }

    /** The error path of uvmcopy(). */
    method UndoCopy(child: int, ghost m0: map<int, Page>, ghost o0: map<int, Owner>, ghost view0: map<int, Word>,
                    ghost want: seq<Want>, i: nat)
      requires Valid() && child in spaces && i == |want| * PGSIZE
      requires Growing(m0, o0, view0, mem, owner, spaces[child].view, child, 0, want)
      requires forall u | 0 <= u < |want| ::
        u in spaces[child].view && CanUnmap(spaces[child].view, owner, u, true)
        && FrameIsUsers(spaces[child].view, owner, child, u)
      modifies `mem, `freelist, `free, `owner, `spaces
      ensures Valid() && child in spaces && spaces == old(spaces)[child := spaces[child]]
      ensures spaces[child].view == view0 && TablesGrew(m0, o0, mem, owner, child)
    {
      ghost var m1, o1, view1 := mem, owner, spaces[child].view;
      PageAddress(|want|);
      ghost var done;
      var panicked;
      panicked, done := Uvmunmap(child, 0, i / PGSIZE, true);
      GrowingUndone(m0, o0, view0, m1, o1, view1, mem, owner, spaces[child].view, child, 0, want);
    }

    /** was says what the pages were when the tree was whole; its tables are in the kernel's hands
        now.  level and k say which table of the tree page is. */
    method Freewalk(page: int, ghost sp: Space, ghost was: map<int, Owner>, ghost root: int, ghost level: int,
                    ghost k: int) returns (panicked: bool)
      requires Valid() && Standing(was, mem, owner, sp, root, level, k, page)
      modifies `mem, `freelist, `free, `owner
      ensures Valid()
      ensures panicked <==> !Bare(sp, level, k)
      ensures !panicked ==> Felled(was, old(mem), old(owner), mem, owner, root, level, k)
      decreases level
    {
      ghost var m0, o0 := mem, owner;
      WalkingStart(was, m0, o0, sp, root, level, k, page);
      var i := 0;
      while i < ENTRIES
        invariant 0 <= i <= ENTRIES && Valid()
        invariant Walking(was, m0, o0, mem, owner, sp, root, level, k, page, i)
      {
        WalkingAt(was, m0, o0, mem, owner, sp, root, level, k, page, i);
        var pte := mem[page][i];
        if pte.flags.v && !Rwx(pte.flags) {
          ghost var m1, o1 := mem, owner;
          panicked := Freewalk(pte.ppn, sp, was, root, level - 1, k * ENTRIES + i);
          if panicked {
            return;
          }
          ghost var m2 := mem;
          WalkingOn(was, m0, o0, m1, o1, mem, owner, sp, root, level, k, page, i);
          Clear(page, i);
          assert mem == Set(m2, page, i, ZERO);
        } else if pte.flags.v {
          return true;
        }
        i := i + 1;
      }
      WalkingAtEnd(was, m0, o0, mem, owner, sp, root, level, k, page);
      ghost var m3, o3 := mem, owner;
      panicked := Kfree(page);
      WalkingEnd(was, m0, o0, m3, o3, mem, sp, root, level, k, page);
    }

    /** `pagetable[i] = 0`, in a table the kernel holds. */
    method Clear(page: int, i: nat)
      requires Valid() && page in owner && owner[page] == Held && i < ENTRIES
      modifies `mem
      ensures Valid() && mem == Set(old(mem), page, i, ZERO)
    {
      Open();
      HeldWritten(mem, owner, spaces, freelist, free, page, mem[page][i := ZERO]);
      mem := Set(mem, page, i, ZERO);
    }

    method Uvmcreate() returns (root: int)
      requires Valid()
      modifies `mem, `freelist, `free, `owner, `spaces
      ensures Valid()
      ensures root == 0 ==>
        mem == old(mem) && owner == old(owner) && spaces == old(spaces) && forall q | q in owner :: owner[q] != Free
      ensures root != 0 ==> root in old(owner) && old(owner[root]) == Free && root !in old(spaces)
      ensures root != 0 ==> owner == old(owner)[root := Root(root)] && spaces == old(spaces)[root := EMPTY]
      ensures root != 0 ==> mem == old(mem)[root := Filled(ZERO)]
      ensures root == 0 <==> old(|free|) == 0
      ensures |free| == old(|free|) - if root != 0 then 1 else 0
    {
      root := ZeroedPage();
      if root != 0 {
        Open();
        Created(mem, owner, spaces, freelist, free, root);
        owner := owner[root := Root(root)];
        spaces := spaces[root := EMPTY];
      }
    }

    /** The space at root is given up: the kernel holds its pages, and its tables are still whole. */
    ghost method Drop(root: int)
      requires Valid() && root in spaces && forall v | v in spaces[root].view :: Rwx(spaces[root].view[v].flags)
      modifies `owner, `spaces
      ensures Valid() && spaces == old(spaces) - {root} && owner.Keys == old(owner.Keys)
      ensures forall p {:trigger owner[p]} | p in owner ::
        owner[p] == if OfSpace(old(owner)[p], root) then Held else old(owner)[p]
      ensures Standing(old(owner), mem, owner, old(spaces[root]), root, 2, 0, root)
    {
      Open();
      var was, sp := owner, spaces[root];
      var owner' := map p | p in owner :: if OfSpace(owner[p], root) then Held else owner[p];
      Dropped(mem, owner, spaces, freelist, free, root, owner');
      assert Tree(mem, root, sp) && Owns(was, root, sp);
      forall p {:trigger was[p]} | p in was && TableOf(was[p], root) ensures PageOk(map[root := sp], p, was[p]) {
        assert PageOk(spaces, p, was[p]);
      }
      owner, spaces := owner', spaces - {root};
    }

    /** freewalk() of a whole tree, as uvmfree() calls it. */
    method FreeTree(root: int) returns (panicked: bool)
      requires Valid() && root in spaces && forall v | v in spaces[root].view :: Rwx(spaces[root].view[v].flags)
      modifies `mem, `freelist, `free, `owner, `spaces
      ensures Valid() && spaces == old(spaces) - {root}
      ensures panicked <==> old(spaces[root].view) != map[]
      ensures !panicked ==> SpaceFreed(old(mem), old(owner), mem, owner, root)
    {
      ghost var m1, o1, sp1 := mem, owner, spaces[root];
      RootInPool(root);
      UsersAreMapped(root);
      Drop(root);
      ghost var o2 := owner;
      panicked := Freewalk(root, sp1, o1, root, 2, 0);
      AllBare(sp1);
      if !panicked {
        TreeFreed(m1, o1, sp1.view, o2, mem, owner, root);
      }
    }

    lemma AllBare(sp: Space)
      ensures Bare(sp, 2, 0) <==> sp.view == map[]
    {
      if sp.view != map[] {
        var v := SomeKey(sp.view);
        assert Under(2, 0, v);
      }
    }

    method Uvmfree(root: int, sz: nat) returns (panicked: bool)
      requires Valid() && root in spaces && Freeable(root, 0, Pages(sz))
      requires forall v | v in spaces[root].view :: Rwx(spaces[root].view[v].flags)
      modifies `mem, `freelist, `free, `owner, `spaces
      ensures panicked ==> (
        || (exists u :: 0 <= u < Pages(sz) && !CanUnmap(old(spaces[root].view), old(owner), u, true))
        || (exists v :: v in old(spaces[root].view) && !(0 <= v < Pages(sz))))
      ensures !panicked ==>
        forall u {:trigger CanUnmap(old(spaces[root].view), old(owner), u, true)} | 0 <= u < Pages(sz) ::
        CanUnmap(old(spaces[root].view), old(owner), u, true)
      ensures !panicked ==> forall v | v in old(spaces[root].view) :: 0 <= v < Pages(sz)
      ensures Valid()
      ensures !panicked ==> spaces == old(spaces) - {root} && SpaceFreed(old(mem), old(owner), mem, owner, root)
    {
      ghost var view0, m0, o0, n := spaces[root].view, mem, owner, Pages(sz);
      if sz > 0 {
        ghost var done;
        PageAddress(Pages(sz));
        panicked, done := Uvmunmap(root, 0, PgRoundUp(sz) / PGSIZE, true);
        if panicked {
          return;
        }
      } else {
        NothingUnmapped(m0, o0, view0, root, 0);
      }
      ghost var m1, o1, view1 := mem, owner, spaces[root].view;
      assert Unmapped(view0, view1, 0, n) && Released(o0, o1, root, 0, n, Free) && KeptData(m0, o0, m1, o1, root);
      StillRwx(view0, view1, n);
      StillMapped(view0, view1, n);
      panicked := FreeTree(root);
      if !panicked {
        AllFreed(m0, o0, m1, o1, mem, owner, root, n);
      }
    }

    lemma UsersAreMapped(root: int)
      requires Valid() && root in spaces
      ensures forall p {:trigger owner[p]} | p in owner && owner[p].User? && owner[p].root == root ::
        owner[p].v in spaces[root].view
    {
      Open();
      forall p {:trigger owner[p]} | p in owner && owner[p].User? && owner[p].root == root
        ensures owner[p].v in spaces[root].view
      {
        assert PageOk(spaces, p, owner[p]);
      }
    }
  }
}
