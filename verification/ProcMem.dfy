/** The user memory of processes, as proc.c builds it on the page tables: every page below the size of a
    process is a leaf in a frame of its own, in every state and after every failure. */
module ProcMem {
  import opened Basics
  import opened Sv39
  import opened Vm

  const TRAMPOLINE := MAXVPN - 1
  const TRAPFRAME := MAXVPN - 2
  /** The pages from KERNBASE to PHYSTOP, of which the pool is a part. */
  const RAM := 128 * 1024 * 1024 / PGSIZE
  const RX := NONE.(r := true, x := true)
  const RW := NONE.(r := true, w := true)
  const W := NONE.(w := true)
  /** The pages that a process gains are for it to read and to write, and not to execute. */
  const RWU := Flags(true, true, true, false, true, 0)

  /** The regions of the two pages at the top. */
  const TOPLOW := TRAMPOLINE / ENTRIES
  const TOPMID := TRAMPOLINE / ENTRIES / ENTRIES

  /** The tables of a new process: those for the two pages at the top. */
  ghost predicate Topped(sp: Space) { sp.low.Keys == {TOPLOW} && sp.mid.Keys == {TOPMID} }

  /** How many pages fork() needs for a process of n pages: the trapframe, the root table, the two tables for
      the pages at the top, the n frames, and the other tables for n pages. */
  ghost function ForkPages(n: nat): nat {
    4 + n + |Regions(0, n) - {TOPLOW}| + |Spans(0, n) - {TOPMID}|
  }

  /** Within the memory there is, that is one table for 512 pages, and one above them. */
  lemma ForkPagesIs(n: nat)
    requires n <= RAM
    ensures ForkPages(n) == 4 + n + (n + ENTRIES - 1) / ENTRIES + (if n > 0 then 1 else 0)
  {
    RegionsFromZero(n);
    SpansFromZero(n);
    assert TOPLOW !in Regions(0, n) && TOPMID !in Spans(0, n);
    assert Regions(0, n) - {TOPLOW} == Regions(0, n) && Spans(0, n) - {TOPMID} == Spans(0, n);
  }

  /** f free pages are enough for fork() of a process of n pages.  Behind a trigger. */
  ghost predicate CanFork(f: int, n: nat) { forall k {:trigger Key(k, n)} | Key(k, n) :: ForkPages(n) <= f }

  lemma CanForkIs(f: int, n: nat)
    ensures CanFork(f, n) <==> ForkPages(n) <= f
  {
    assert Key(0, n);
  }

  lemma CannotCopy(f: int, sp: Space, n: nat)
    requires Short(sp, f, n, 0, n) && Topped(sp)
    ensures !CanFork(f + 4, n)
  {
    CanForkIs(f + 4, n);
    ShortIs(sp, f, n, 0, n);
  }

  lemma HasCopied(f: int, f': nat, sp: Space, sp': Space, n: nat)
    requires Paid(sp, sp', f, f', n, 0, n) && Topped(sp)
    ensures CanFork(f + 4, n)
  {
    CanForkIs(f + 4, n);
    PaidIs(sp, sp', f, f', n, 0, n);
  }

  lemma TooFewToFork(f: int, n: nat)
    requires f < 4
    ensures !CanFork(f, n)
  {
    CanForkIs(f, n);
  }

  lemma TopsPaid(sp1: Space, sp2: Space, f0: int, f1: int, f2: int)
    requires Paid(EMPTY, sp1, f0, f1, 0, TRAMPOLINE, 1) && Paid(sp1, sp2, f1, f2, 0, TRAPFRAME, 1)
    ensures Topped(sp2) && f2 == f0 - 2
  {
    OnePaid(EMPTY, sp1, f0, f1, 0, TRAMPOLINE);
    OnePaid(sp1, sp2, f1, f2, 0, TRAPFRAME);
    assert TRAPFRAME / ENTRIES == TOPLOW;
    assert sp1.low.Keys == {TOPLOW} && sp1.mid.Keys == {TOPMID};
  }

  lemma FirstTopShort(f0: int)
    requires Short(EMPTY, f0, 0, TRAMPOLINE, 1)
    ensures f0 < 2
  {
    OneShort(EMPTY, f0, 0, TRAMPOLINE);
  }

  lemma SecondTopShort(sp1: Space, f0: int, f1: int)
    requires Paid(EMPTY, sp1, f0, f1, 0, TRAMPOLINE, 1) && Short(sp1, f1, 0, TRAPFRAME, 1)
    ensures f0 < 2
  {
    OnePaid(EMPTY, sp1, f0, f1, 0, TRAMPOLINE);
    OneShort(sp1, f1, 0, TRAPFRAME);
    assert TRAPFRAME / ENTRIES == TOPLOW;
    assert sp1.low.Keys == {TOPLOW} && sp1.mid.Keys == {TOPMID};
  }

  /** p->sz, and the page number of p->trapframe. */
  datatype Proc = Proc(size: nat, trapframe: int)

  /** The space of a process: its pages below the size, in frames of its own, and the two pages of the
      kernel at the top; and its trapframe. */
  ghost predicate Mine(view: map<int, Word>, owner: map<int, Owner>, root: int, p: Proc, trampoline: int) {
    MineView(view, owner, root, p, trampoline) && p.trapframe in owner && owner[p.trapframe] == Held
  }

  ghost predicate MineView(view: map<int, Word>, owner: map<int, Owner>, root: int, p: Proc, trampoline: int) {
    && Pages(p.size) <= TRAPFRAME
    && (forall u {:trigger u in view} :: u in view <==> 0 <= u < Pages(p.size) || u == TRAPFRAME || u == TRAMPOLINE)
    && (forall u {:trigger view[u]} {:trigger u in view} | u in view :: PageIs(view, owner, root, p, trampoline, u))
  }

  ghost predicate PageIs(view: map<int, Word>, owner: map<int, Owner>, root: int, p: Proc, trampoline: int, u: int)
    requires u in view
  {
    Rwx(view[u].flags) &&
      if u == TRAMPOLINE then view[u] == Pte(trampoline, RX)
      else if u == TRAPFRAME then view[u] == Pte(p.trapframe, RW)
      else OwnPage(view, owner, root, u)
  }

  /** Pages have passed between the pool and the space at root; no other page has changed hands, or its
      content. */
  ghost predicate Only(mem: map<int, Page>, owner: map<int, Owner>, mem': map<int, Page>, owner': map<int, Owner>,
                       root: int) {
    && mem.Keys == owner.Keys == owner'.Keys == mem'.Keys
    && (forall p {:trigger owner'[p]} | p in owner ::
          owner'[p] == owner[p] || (Loose(owner[p], root) && Loose(owner'[p], root)))
    && (forall p {:trigger mem'[p]} | p in mem && !Loose(owner[p], root) :: mem'[p] == mem[p])
  }

  predicate Loose(o: Owner, root: int) { o == Free || OfSpace(o, root) }

  lemma OnlyTrans(mem: map<int, Page>, owner: map<int, Owner>, mem': map<int, Page>, owner': map<int, Owner>,
                  mem'': map<int, Page>, owner'': map<int, Owner>, root: int)
    requires Only(mem, owner, mem', owner', root) && Only(mem', owner', mem'', owner'', root)
    ensures Only(mem, owner, mem'', owner'', root)
  {
    forall p {:trigger owner''[p]} {:trigger mem''[p]} | p in owner
      ensures owner''[p] == owner[p] || (Loose(owner[p], root) && Loose(owner''[p], root))
      ensures !Loose(owner[p], root) ==> mem''[p] == mem[p]
    {
      assert owner'[p] == owner[p] || (Loose(owner[p], root) && Loose(owner'[p], root));
      assert !Loose(owner[p], root) ==> mem'[p] == mem[p];
    }
  }

  lemma OnlyTables(mem: map<int, Page>, owner: map<int, Owner>, mem': map<int, Page>, owner': map<int, Owner>,
                   root: int)
    requires TablesGrew(mem, owner, mem', owner', root)
    ensures Only(mem, owner, mem', owner', root)
  {}

  lemma OnlyGrown(mem: map<int, Page>, owner: map<int, Owner>, mem': map<int, Page>, owner': map<int, Owner>, root: int,
                  v: int, n: nat)
    requires GrownOwner(owner, owner', root, v, n) && KeptData(mem, owner, mem', owner', root)
    ensures Only(mem, owner, mem', owner', root)
  {
    forall p {:trigger mem'[p]} | p in mem && !Loose(owner[p], root) ensures mem'[p] == mem[p] {
      assert owner'[p] == owner[p];
    }
  }

  lemma OnlyReleased(mem: map<int, Page>, owner: map<int, Owner>, mem': map<int, Page>, owner': map<int, Owner>,
                     root: int, v: int, n: nat, o: Owner)
    requires Released(owner, owner', root, v, n, o) && KeptData(mem, owner, mem', owner', root)
    requires o == Free || forall p {:trigger owner[p]} | p in owner :: !UserIn(owner[p], root, v, n)
    ensures Only(mem, owner, mem', owner', root)
  {
    forall p {:trigger owner'[p]} {:trigger mem'[p]} | p in owner
      ensures owner'[p] == owner[p] || (Loose(owner[p], root) && Loose(owner'[p], root))
      ensures !Loose(owner[p], root) ==> mem'[p] == mem[p]
    {
      assert UserIn(owner[p], root, v, n) || owner'[p] == owner[p];
    }
  }

  lemma OnlyFreed(mem: map<int, Page>, owner: map<int, Owner>, mem': map<int, Page>, owner': map<int, Owner>, root: int)
    requires SpaceFreed(mem, owner, mem', owner', root)
    ensures Only(mem, owner, mem', owner', root)
  {}

  /** The space of another process is untouched. */
  lemma OthersMine(view: map<int, Word>, mem: map<int, Page>, owner: map<int, Owner>, mem': map<int, Page>,
                   owner': map<int, Owner>,
                   root: int, r: int, p: Proc, trampoline: int)
    requires Only(mem, owner, mem', owner', root) && r != root && Mine(view, owner, r, p, trampoline)
    ensures Mine(view, owner', r, p, trampoline)
    ensures forall u {:trigger PageAt(mem', view, u)} | 0 <= u < Pages(p.size) ::
      PageAt(mem', view, u) == PageAt(mem, view, u)
  {
    forall u {:trigger view[u]} {:trigger u in view} | u in view ensures PageIs(view, owner', r, p, trampoline, u) {
      assert PageIs(view, owner, r, p, trampoline, u);
      var f := view[u].ppn;
      assert f in owner ==> owner'[f] == owner[f] || Loose(owner[f], root);
    }
    assert owner'[p.trapframe] == owner[p.trapframe];
    forall u {:trigger PageAt(mem', view, u)} | 0 <= u < Pages(p.size)
      ensures PageAt(mem', view, u) == PageAt(mem, view, u)
    {
      assert u in view && PageIs(view, owner, r, p, trampoline, u);
      assert mem'[view[u].ppn] == mem[view[u].ppn];
    }
  }

  function Usable(w: Want): Want { w.(perm := w.perm.(v := true)) }

  /** What a process sees at page u, and what it may do there. */
  ghost function PageAt(mem: map<int, Page>, view: map<int, Word>, u: int): Want {
    if u in view && view[u].ppn in mem then Want(view[u].flags, mem[view[u].ppn]) else Want(NONE, Filled(ZERO))
  }

  /** No frame is in two places: not of one process, not of two, and it is neither free nor a table. */
  lemma FrameOnce(view: map<int, Word>, view': map<int, Word>, owner: map<int, Owner>, r: int, p: Proc, r': int,
                  p': Proc,
                  trampoline: int, u: int, u': int)
    requires Mine(view, owner, r, p, trampoline) && Mine(view', owner, r', p', trampoline)
    requires 0 <= u < Pages(p.size) && 0 <= u' < Pages(p'.size)
    ensures u in view && u' in view' && view[u].ppn in owner && owner[view[u].ppn] == User(r, u)
    ensures view[u].ppn == view'[u'].ppn ==> r == r' && u == u'
  {
    assert u in view && u' in view';
    assert PageIs(view, owner, r, p, trampoline, u) && PageIs(view', owner, r', p', trampoline, u');
  }

  /** The frames of a process, in the order of its pages. */
  lemma Frames(view: map<int, Word>, owner: map<int, Owner>, root: int, p: Proc, trampoline: int)
    returns (frames: seq<int>)
    requires Mine(view, owner, root, p, trampoline)
    ensures |frames| == Pages(p.size)
    ensures forall u {:trigger frames[u]} | 0 <= u < |frames| :: frames[u] in owner && owner[frames[u]] == User(root, u)
  {
    forall u | 0 <= u < Pages(p.size) ensures u in view {}
    frames := seq(Pages(p.size), u requires 0 <= u < Pages(p.size) => view[u].ppn);
    forall u {:trigger frames[u]} | 0 <= u < |frames|
      ensures frames[u] in owner && owner[frames[u]] == User(root, u)
    {
      FrameOnce(view, view, owner, root, p, root, p, trampoline, u, u);
    }
  }

  /** Every process has its space and its trapframe to itself. */
  ghost predicate AllMine(spaces: map<int, Space>, owner: map<int, Owner>, procs: map<int, Proc>, trampoline: int) {
    && (forall r {:trigger procs[r]} {:trigger r in procs} | r in procs ::
          r in spaces && Mine(spaces[r].view, owner, r, procs[r], trampoline))
    && (forall r, r' {:trigger procs[r], procs[r']} | r in procs && r' in procs && r != r' ::
          procs[r].trapframe != procs[r'].trapframe)
    && trampoline !in owner && 0 !in procs
  }

  /** What the other processes see is what they saw. */
  ghost predicate OthersSee(mem: map<int, Page>, spaces: map<int, Space>, mem': map<int, Page>,
                            spaces': map<int, Space>,
                            procs: map<int, Proc>, root: int) {
    forall r {:trigger procs[r]} {:trigger r in procs} | r in procs && r != root ::
      && r in spaces && r in spaces' && spaces'[r] == spaces[r]
      && forall u {:trigger PageAt(mem', spaces[r].view, u)} | 0 <= u < Pages(procs[r].size) ::
           PageAt(mem', spaces[r].view, u) == PageAt(mem, spaces[r].view, u)
  }

  /** What the process at root sees below page n is what it saw. */
  ghost predicate Sees(mem: map<int, Page>, spaces: map<int, Space>, mem': map<int, Page>, spaces': map<int, Space>,
                       root: int, n: int) {
    && root in spaces && root in spaces'
    && forall u {:trigger PageAt(mem', spaces'[root].view, u)} | 0 <= u < n ::
         PageAt(mem', spaces'[root].view, u) == PageAt(mem, spaces[root].view, u)
  }

  /** An operation on one space leaves all processes but that one as they were. */
  lemma OthersKept(spaces: map<int, Space>, mem: map<int, Page>, owner: map<int, Owner>, spaces': map<int, Space>,
                   mem': map<int, Page>,
                   owner': map<int, Owner>, procs: map<int, Proc>, trampoline: int, root: int)
    requires AllMine(spaces, owner, procs, trampoline) && Only(mem, owner, mem', owner', root)
    requires forall r {:trigger r in procs} | r in procs && r != root :: r in spaces' && spaces'[r] == spaces[r]
    ensures AllMine(spaces', owner', procs - {root}, trampoline)
    ensures OthersSee(mem, spaces, mem', spaces', procs, root)
  {
    forall r {:trigger r in procs} {:trigger procs[r]} | r in procs && r != root
      ensures Mine(spaces'[r].view, owner', r, procs[r], trampoline)
      ensures forall u {:trigger PageAt(mem', spaces[r].view, u)} | 0 <= u < Pages(procs[r].size) ::
        PageAt(mem', spaces[r].view, u) == PageAt(mem, spaces[r].view, u)
    {
      OthersMine(spaces[r].view, mem, owner, mem', owner', root, r, procs[r], trampoline);
    }
  }

  /** A process joins the others. */
  lemma Joined(spaces: map<int, Space>, owner: map<int, Owner>, procs: map<int, Proc>, trampoline: int, root: int,
               p: Proc)
    requires AllMine(spaces, owner, procs - {root}, trampoline) && root in spaces && root != 0
    requires Mine(spaces[root].view, owner, root, p, trampoline)
    requires forall r {:trigger r in procs} | r in procs && r != root :: procs[r].trapframe != p.trapframe
    ensures AllMine(spaces, owner, procs[root := p], trampoline)
  {
    var rest := procs - {root};
    forall r {:trigger procs[root := p][r]} | r in procs && r != root
      ensures r in spaces && Mine(spaces[r].view, owner, r, procs[r], trampoline)
    {
      assert r in rest && rest[r] == procs[r];
    }
    forall r, r' | r in procs && r' in procs && r != root && r' != root && r != r'
      ensures procs[r].trapframe != procs[r'].trapframe
    {
      assert rest[r] == procs[r] && rest[r'] == procs[r'];
    }
  }

  /** A space without user pages, after proc_pagetable() has mapped the two pages of the kernel. */
  lemma FreshMine(view1: map<int, Word>, view2: map<int, Word>, owner: map<int, Owner>, root: int, tf: int,
                  trampoline: int)
    requires Mapped(map[], view1, TRAMPOLINE, 1, trampoline, RX) && Mapped(view1, view2, TRAPFRAME, 1, tf, RW)
    requires tf in owner && owner[tf] == Held
    ensures Mine(view2, owner, root, Proc(0, tf), trampoline)
  {
    forall u {:trigger u in view2} ensures u in view2 <==> u == TRAPFRAME || u == TRAMPOLINE {
      assert u in view1 || u !in view1;
    }
    assert TRAMPOLINE in view1 && TRAPFRAME in view2;
  }

  /** A process after growth. */
  lemma GrownMine(mem: map<int, Page>, view: map<int, Word>, owner: map<int, Owner>, mem': map<int, Page>,
                  view': map<int, Word>,
                  owner': map<int, Owner>, root: int, p: Proc, size: nat, trampoline: int, want: seq<Want>)
    requires Mine(view, owner, root, p, trampoline) && p.size <= size && Pages(size) <= TRAPFRAME
    requires Grown(view, owner, view', owner', mem', root, Pages(p.size), want)
    requires KeptData(mem, owner, mem', owner', root)
    requires |want| == Pages(size) - Pages(p.size) && forall i | 0 <= i < |want| :: Rwx(want[i].perm)
    ensures Mine(view', owner', root, p.(size := size), trampoline)
    ensures forall u {:trigger PageAt(mem', view', u)} | 0 <= u < Pages(size) ::
      PageAt(mem', view', u) == if u < Pages(p.size) then PageAt(mem, view, u) else Usable(want[u - Pages(p.size)])
  {
    var p' := p.(size := size);
    forall u {:trigger u in view'}
      ensures u in view' <==> 0 <= u < Pages(size) || u == TRAPFRAME || u == TRAMPOLINE
    {
      assert u in view || u !in view;
    }
    forall u {:trigger view'[u]} {:trigger u in view'} | u in view'
      ensures PageIs(view', owner', root, p', trampoline, u)
    {
      if Pages(p.size) <= u < Pages(size) {
        assert Backed(view', owner', mem', root, u, want[u - Pages(p.size)]);
      } else {
        assert u in view && view'[u] == view[u] && PageIs(view, owner, root, p, trampoline, u);
        var f := view[u].ppn;
        assert f in owner ==> owner'[f] == owner[f] || owner[f] == Free;
      }
    }
    forall u {:trigger PageAt(mem', view', u)} | 0 <= u < Pages(size)
      ensures PageAt(mem', view', u) ==
        if u < Pages(p.size) then PageAt(mem, view, u) else Usable(want[u - Pages(p.size)])
    {
      assert u in view' && PageIs(view', owner', root, p', trampoline, u);
      if u >= Pages(p.size) {
        assert Backed(view', owner', mem', root, u, want[u - Pages(p.size)]);
      } else {
        assert u in view && PageIs(view, owner, root, p, trampoline, u);
        var f := view[u].ppn;
        assert owner'[f] == owner[f] && mem'[f] == mem[f];
      }
    }
    assert owner'[p.trapframe] == owner[p.trapframe];
  }

  /** A process whose tables may have grown, and nothing else. */
  lemma SameMine(mem: map<int, Page>, view: map<int, Word>, owner: map<int, Owner>, mem': map<int, Page>,
                 owner': map<int, Owner>,
                 root: int, p: Proc, trampoline: int)
    requires Mine(view, owner, root, p, trampoline) && TablesGrew(mem, owner, mem', owner', root)
    ensures Mine(view, owner', root, p, trampoline)
    ensures forall u {:trigger PageAt(mem', view, u)} | 0 <= u < Pages(p.size) ::
      PageAt(mem', view, u) == PageAt(mem, view, u)
  {
    forall u {:trigger view[u]} {:trigger u in view} | u in view ensures PageIs(view, owner', root, p, trampoline, u) {
      assert PageIs(view, owner, root, p, trampoline, u);
      var f := view[u].ppn;
      assert f in owner ==> owner'[f] == owner[f] || owner[f] == Free;
    }
    forall u {:trigger PageAt(mem', view, u)} | 0 <= u < Pages(p.size)
      ensures PageAt(mem', view, u) == PageAt(mem, view, u)
    {
      assert u in view && PageIs(view, owner, root, p, trampoline, u);
      var f := view[u].ppn;
      assert owner'[f] == owner[f] && mem'[f] == mem[f];
    }
    assert owner'[p.trapframe] == owner[p.trapframe];
  }

  /** A process after shrinking. */
  lemma ShrunkMine(mem: map<int, Page>, view: map<int, Word>, owner: map<int, Owner>, mem': map<int, Page>,
                   view': map<int, Word>, owner': map<int, Owner>,
                   root: int, p: Proc, size: nat, trampoline: int)
    requires Mine(view, owner, root, p, trampoline) && size <= p.size && Pages(size) <= Pages(p.size)
    requires Unmapped(view, view', Pages(size), Pages(p.size) - Pages(size)) && KeptData(mem, owner, mem', owner', root)
    requires Released(owner, owner', root, Pages(size), Pages(p.size) - Pages(size), Free)
    ensures Mine(view', owner', root, p.(size := size), trampoline)
    ensures forall u {:trigger PageAt(mem', view', u)} | 0 <= u < Pages(size) ::
      PageAt(mem', view', u) == PageAt(mem, view, u)
  {
    forall u {:trigger u in view'} ensures u in view' <==> 0 <= u < Pages(size) || u == TRAPFRAME || u == TRAMPOLINE {
      assert u in view || u !in view;
    }
    forall u {:trigger view'[u]} {:trigger u in view'} | u in view'
      ensures PageIs(view', owner', root, p.(size := size), trampoline, u)
    {
      assert u in view && view'[u] == view[u] && PageIs(view, owner, root, p, trampoline, u);
      var f := view[u].ppn;
      assert f in owner ==> owner'[f] == owner[f] || UserIn(owner[f], root, Pages(size), Pages(p.size) - Pages(size));
    }
    forall u {:trigger PageAt(mem', view', u)} | 0 <= u < Pages(size)
      ensures PageAt(mem', view', u) == PageAt(mem, view, u)
    {
      assert u in view' && u in view && view'[u] == view[u] && PageIs(view, owner, root, p, trampoline, u);
      var f := view[u].ppn;
      assert owner'[f] == owner[f] && mem'[f] == mem[f];
    }
    assert owner'[p.trapframe] == owner[p.trapframe];
  }

  /** What uvmunmap() asks for when it frees pages of a process. */
  lemma MineCanUnmap(view: map<int, Word>, owner: map<int, Owner>, root: int, p: Proc, trampoline: int, u: int)
    requires Mine(view, owner, root, p, trampoline) && 0 <= u < Pages(p.size)
    ensures u in view && OwnPage(view, owner, root, u) && CanUnmap(view, owner, u, true)
    ensures FrameIsUsers(view, owner, root, u)
  {
    assert u in view && PageIs(view, owner, root, p, trampoline, u);
  }

  /** A page that the kernel takes from the pool is nobody's. */
  lemma Taken(spaces: map<int, Space>, mem: map<int, Page>, owner: map<int, Owner>, procs: map<int, Proc>,
              trampoline: int, p: int, page: Page)
    requires AllMine(spaces, owner, procs, trampoline) && p in owner && owner[p] == Free && p in mem
    ensures AllMine(spaces, owner[p := Held], procs, trampoline)
    ensures OthersSee(mem, spaces, mem[p := page], spaces, procs, 0)
    ensures forall r {:trigger procs[r]} | r in procs :: procs[r].trapframe != p
  {
    forall r {:trigger procs[r]} {:trigger r in procs} | r in procs
      ensures Mine(spaces[r].view, owner[p := Held], r, procs[r], trampoline)
      ensures forall u {:trigger PageAt(mem[p := page], spaces[r].view, u)} | 0 <= u < Pages(procs[r].size) ::
        PageAt(mem[p := page], spaces[r].view, u) == PageAt(mem, spaces[r].view, u)
    {
      MineElsewhere(spaces[r].view, owner, owner[p := Held], mem, mem[p := page], r, procs[r], trampoline, p);
    }
  }

  /** A change to a page that is neither a process's own nor its trapframe. */
  lemma MineElsewhere(view: map<int, Word>, owner: map<int, Owner>, owner': map<int, Owner>, mem: map<int, Page>,
                      mem': map<int, Page>,
                      root: int, q: Proc, trampoline: int, p: int)
    requires MineView(view, owner, root, q, trampoline) && owner'.Keys == owner.Keys && mem'.Keys == mem.Keys
    requires p in owner ==> !(owner[p].User? && owner[p].root == root)
    requires forall f {:trigger owner'[f]} {:trigger owner[f]} | f in owner && f != p :: owner'[f] == owner[f]
    requires forall f {:trigger mem'[f]} | f in mem && f != p :: mem'[f] == mem[f]
    ensures MineView(view, owner', root, q, trampoline)
    ensures forall u {:trigger PageAt(mem', view, u)} | 0 <= u < Pages(q.size) ::
      PageAt(mem', view, u) == PageAt(mem, view, u)
  {
    forall u {:trigger view[u]} {:trigger u in view} | u in view ensures PageIs(view, owner', root, q, trampoline, u) {
      assert PageIs(view, owner, root, q, trampoline, u);
    }
    forall u {:trigger PageAt(mem', view, u)} | 0 <= u < Pages(q.size)
      ensures PageAt(mem', view, u) == PageAt(mem, view, u)
    {
      assert u in view && PageIs(view, owner, root, q, trampoline, u);
    }
  }

  /** A trapframe that is given back, with its process gone from the table. */
  lemma GivenBack(spaces: map<int, Space>, mem: map<int, Page>, owner: map<int, Owner>, mem': map<int, Page>,
                  procs: map<int, Proc>, trampoline: int, p: int)
    requires AllMine(spaces, owner, procs, trampoline) && p in owner && owner[p] == Held
    requires forall r {:trigger procs[r]} | r in procs :: procs[r].trapframe != p
    requires mem'.Keys == mem.Keys && forall f {:trigger mem'[f]} | f in mem && f != p :: mem'[f] == mem[f]
    ensures AllMine(spaces, owner[p := Free], procs, trampoline)
    ensures OthersSee(mem, spaces, mem', spaces, procs, 0)
  {
    forall r {:trigger procs[r]} {:trigger r in procs} | r in procs
      ensures Mine(spaces[r].view, owner[p := Free], r, procs[r], trampoline)
      ensures forall u {:trigger PageAt(mem', spaces[r].view, u)} | 0 <= u < Pages(procs[r].size) ::
        PageAt(mem', spaces[r].view, u) == PageAt(mem, spaces[r].view, u)
    {
      MineElsewhere(spaces[r].view, owner, owner[p := Free], mem, mem', r, procs[r], trampoline, p);
    }
  }

  /** Everything is as it was, but perhaps for the content of free pages. */
  ghost predicate Unspent(mem: map<int, Page>, owner: map<int, Owner>, mem': map<int, Page>, owner': map<int, Owner>) {
    owner' == owner && mem'.Keys == mem.Keys && forall p {:trigger mem'[p]} | p in mem && p in owner
      && owner[p] != Free :: mem'[p] == mem[p]
  }

  /** Pages that went into a new space and came back. */
  lemma CameBack(mem: map<int, Page>, owner: map<int, Owner>, mem1: map<int, Page>, owner1: map<int, Owner>,
                 mem2: map<int, Page>, owner2: map<int, Owner>, root: int)
    requires Only(mem, owner, mem1, owner1, root) && SpaceFreed(mem1, owner1, mem2, owner2, root)
    requires forall p {:trigger owner[p]} | p in owner :: !OfSpace(owner[p], root)
    ensures Unspent(mem, owner, mem2, owner2)
  {
    forall p {:trigger owner2[p]} {:trigger mem2[p]} | p in owner
      ensures owner2[p] == owner[p] && (owner[p] != Free ==> mem2[p] == mem[p])
    {
      assert owner1[p] == owner[p] || (Loose(owner[p], root) && Loose(owner1[p], root));
      assert owner[p] != Free ==> mem1[p] == mem[p] && mem2[p] == mem1[p];
    }
    assert owner2 == owner;
  }

  datatype Use = Table(o: Owner) | Frame(root: int, page: int) | Trap(root: int) | Listed(position: int)

  /** What freeing one space leaves of the others. */
  lemma OthersFreed(spaces: map<int, Space>, mem: map<int, Page>, owner: map<int, Owner>, spaces': map<int, Space>,
                    mem': map<int, Page>, owner': map<int, Owner>, procs: map<int, Proc>, trampoline: int, root: int)
    requires AllMine(spaces, owner, procs, trampoline) && SpaceFreed(mem, owner, mem', owner', root) && root !in procs
    requires spaces' == spaces - {root}
    ensures AllMine(spaces', owner', procs, trampoline) && OthersSee(mem, spaces, mem', spaces', procs, root)
  {
    OnlyFreed(mem, owner, mem', owner', root);
    OthersKept(spaces, mem, owner, spaces', mem', owner', procs, trampoline, root);
    assert procs - {root} == procs;
  }

  class Memory {
    const k: Kernel
    /** The page of the trampoline code, in the text of the kernel. */
    const trampoline: int
    var procs: map<int, Proc>

    ghost predicate Valid() reads this, k {
      k.Valid() && 0 <= trampoline && forall key {:trigger Key(key, procs)} | Key(key, procs) ::
        AllMine(k.spaces, k.owner, procs, trampoline)
    }

    lemma Open()
      requires Valid()
      ensures AllMine(k.spaces, k.owner, procs, trampoline)
    {
      assert Key(0, procs);
    }

    constructor (k: Kernel, trampoline: nat)
      requires k.Valid() && trampoline !in k.owner
      ensures Valid() && this.k == k && this.trampoline == trampoline && procs == map[]
    {
      this.k, this.trampoline, procs := k, trampoline, map[];
    }

    /** uvmfree() of a space of which nothing is mapped but pages of its own. */
    method FreeSpace(root: int, size: nat)
      requires k.Valid() && root in k.spaces
      requires forall u {:trigger u in k.spaces[root].view} :: u in k.spaces[root].view <==> 0 <= u < Pages(size)
      requires forall u {:trigger k.spaces[root].view[u]} | u in k.spaces[root].view ::
        u < MAXVPN && OwnPage(k.spaces[root].view, k.owner, root, u) && Rwx(k.spaces[root].view[u].flags)
      modifies k
      ensures k.Valid() && k.spaces == old(k.spaces) - {root}
      ensures SpaceFreed(old(k.mem), old(k.owner), k.mem, k.owner, root)
    {
      ghost var view := k.spaces[root].view;
      forall u | 0 <= u < Pages(size) ensures u in view && CanUnmap(view, k.owner, u, true) {
        assert u in view && OwnPage(view, k.owner, root, u);
      }
      var panicked := k.Uvmfree(root, size);
    }

    /** uvmunmap() of one of the two pages at the top, which frees nothing. */
    method UnmapTop(root: int, v: nat)
      requires k.Valid() && root in k.spaces && v < MAXVPN && v in k.spaces[root].view
      requires Rwx(k.spaces[root].view[v].flags)
      requires forall p {:trigger k.owner[p]} | p in k.owner :: k.owner[p] != User(root, v)
      modifies k
      ensures k.Valid() && root in k.spaces && k.spaces == old(k.spaces)[root := k.spaces[root]]
      ensures Unmapped(old(k.spaces[root].view), k.spaces[root].view, v, 1) && k.owner == old(k.owner)
      ensures KeptData(old(k.mem), old(k.owner), k.mem, k.owner, root)
    {
      PageAddress(v);
      ghost var done;
      var panicked;
      panicked, done := k.Uvmunmap(root, v * PGSIZE, 1, false);
      forall p {:trigger k.owner[p]} | p in k.owner ensures k.owner[p] == old(k.owner)[p] {
        assert old(k.owner)[p] != User(root, v);
      }
      assert k.owner == old(k.owner);
    }

    /** proc_freepagetable() */
    method FreePagetable(root: int, size: nat, ghost tf: int)
      requires k.Valid() && root in k.spaces && MineView(k.spaces[root].view, k.owner, root, Proc(size, tf), trampoline)
      requires NoTopUser(k.owner, root)
      modifies k
      ensures k.Valid() && k.spaces == old(k.spaces) - {root}
      ensures SpaceFreed(old(k.mem), old(k.owner), k.mem, k.owner, root)
    {
      ghost var p, view, m0, o0 := Proc(size, tf), k.spaces[root].view, k.mem, k.owner;
      assert TRAMPOLINE in view && TRAPFRAME in view;
      assert PageIs(view, o0, root, p, trampoline, TRAMPOLINE) && PageIs(view, o0, root, p, trampoline, TRAPFRAME);
      UnmapTop(root, TRAMPOLINE);
      ghost var view1, m1 := k.spaces[root].view, k.mem;
      assert TRAPFRAME in view1;
      UnmapTop(root, TRAPFRAME);
      ghost var m2 := k.mem;
      BareMine(view, view1, k.spaces[root].view, o0, root, p, trampoline);
      FreeSpace(root, size);
      FreedAfter(m0, m1, m2, o0, k.mem, k.owner, root);
    }

    /** One page at the top of a space, in proc_pagetable(). */
    method MapTop(root: int, v: nat, ppn: nat, perm: Flags) returns (ok: bool)
      requires k.Valid() && root in k.spaces && v < MAXVPN && v !in k.spaces[root].view
      modifies k
      ensures k.Valid() && root in k.spaces && k.spaces == old(k.spaces)[root := k.spaces[root]]
      ensures TablesGrew(old(k.mem), old(k.owner), k.mem, k.owner, root)
      ensures if ok then Mapped(old(k.spaces[root].view), k.spaces[root].view, v, 1, ppn, perm)
              else k.spaces[root].view == old(k.spaces[root].view)
      ensures if ok then Paid(old(k.spaces[root]), k.spaces[root], old(|k.free|), |k.free|, 0, v, 1)
              else Short(old(k.spaces[root]), old(|k.free|), 0, v, 1)
    {
      PageAddress(v);
      PageAddress(ppn);
      ghost var done;
      var r;
      r, done := k.Mappages(root, v * PGSIZE, PGSIZE, ppn * PGSIZE, perm);
      assert r != Panic;
      ok := r == Done;
      if !ok {
        k.MappedNone(old(k.spaces[root].view), k.spaces[root].view, v, ppn, perm);
      }
    }

    /** `uvmfree(pagetable, 0)`, for a space that has been begun since the pool was as in o0. */
    method Abandon(root: int, ghost m0: map<int, Page>, ghost o0: map<int, Owner>, ghost spaces0: map<int, Space>)
      requires k.Valid() && root in k.spaces && k.spaces[root].view == map[]
      requires root !in spaces0 && k.spaces == spaces0[root := k.spaces[root]]
      requires Only(m0, o0, k.mem, k.owner, root) && forall p {:trigger o0[p]} | p in o0 :: !OfSpace(o0[p], root)
      modifies k
      ensures k.Valid() && k.spaces == spaces0 && Unspent(m0, o0, k.mem, k.owner)
    {
      ghost var m1, o1 := k.mem, k.owner;
      FreeSpace(root, 0);
      CameBack(m0, o0, m1, o1, k.mem, k.owner, root);
      assert k.spaces == spaces0;
    }

    /** `uvmunmap(pagetable, TRAMPOLINE, 1, 0)`, when the second page could not be mapped. */
    method UndoTop(root: int, ghost m0: map<int, Page>, ghost o0: map<int, Owner>)
      requires k.Valid() && root in k.spaces && Mapped(map[], k.spaces[root].view, TRAMPOLINE, 1, trampoline, RX)
      requires Only(m0, o0, k.mem, k.owner, root) && trampoline !in k.owner
      modifies k
      ensures k.Valid() && root in k.spaces && k.spaces == old(k.spaces)[root := k.spaces[root]]
      ensures k.spaces[root].view == map[]
      ensures Only(m0, o0, k.mem, k.owner, root)
    {
      ghost var view1, m1, o1 := k.spaces[root].view, k.mem, k.owner;
      assert TRAMPOLINE in view1;
      forall p {:trigger k.owner[p]} | p in k.owner ensures k.owner[p] != User(root, TRAMPOLINE) {
        if k.owner[p].User? {
          k.UserFrame(p);
        }
      }
      UnmapTop(root, TRAMPOLINE);
      MapUnmap(map[], view1, k.spaces[root].view, TRAMPOLINE, 1, trampoline, RX);
      OnlyKept(m1, o1, k.mem, root);
      OnlyTrans(m0, o0, m1, o1, k.mem, k.owner, root);
    }

    /** uvmcreate(), for a space that nobody has a page of yet. */
    method BeginSpace() returns (root: int)
      requires k.Valid()
      modifies k
      ensures k.Valid()
      ensures root == 0 ==> k.spaces == old(k.spaces) && Unspent(old(k.mem), old(k.owner), k.mem, k.owner)
      ensures root != 0 ==> root !in old(k.spaces) && k.spaces == old(k.spaces)[root := EMPTY]
      ensures root != 0 ==> Only(old(k.mem), old(k.owner), k.mem, k.owner, root)
      ensures root != 0 ==> forall p {:trigger old(k.owner)[p]} | p in old(k.owner) :: !OfSpace(old(k.owner)[p], root)
      ensures root == 0 <==> old(|k.free|) == 0
      ensures |k.free| == old(|k.free|) - if root != 0 then 1 else 0
    {
      ghost var m0, o0 := k.mem, k.owner;
      k.NoSpaceNoPages();
      root := k.Uvmcreate();
      if root != 0 {
        Began(m0, o0, k.mem, k.owner, root);
        forall p {:trigger o0[p]} | p in o0 ensures !OfSpace(o0[p], root) {}
      }
    }

    /** The two pages at the top of a new space. */
    method MapTops(root: int, tf: nat, ghost m0: map<int, Page>, ghost o0: map<int, Owner>) returns (ok: bool)
      requires k.Valid() && root in k.spaces && k.spaces[root] == EMPTY && 0 <= trampoline
      requires trampoline !in k.owner
      requires tf in k.owner && k.owner[tf] == Held && Only(m0, o0, k.mem, k.owner, root)
      modifies k
      ensures k.Valid() && root in k.spaces && k.spaces == old(k.spaces)[root := k.spaces[root]]
      ensures Only(m0, o0, k.mem, k.owner, root)
      ensures if ok then Mine(k.spaces[root].view, k.owner, root, Proc(0, tf), trampoline)
              else k.spaces[root].view == map[]
      ensures if ok then Topped(k.spaces[root]) && |k.free| == old(|k.free|) - 2 else old(|k.free|) < 2
    {
      ghost var m1, o1, f1 := k.mem, k.owner, |k.free|;
      ok := MapTop(root, TRAMPOLINE, trampoline, RX);
      ghost var m2, o2, view1, sp2, f2 := k.mem, k.owner, k.spaces[root].view, k.spaces[root], |k.free|;
      OnlyTables(m1, o1, m2, o2, root);
      OnlyTrans(m0, o0, m1, o1, m2, o2, root);
      if !ok {
        FirstTopShort(f1);
        return;
      }
      ok := MapTop(root, TRAPFRAME, tf, RW);
      OnlyTables(m2, o2, k.mem, k.owner, root);
      OnlyTrans(m0, o0, m2, o2, k.mem, k.owner, root);
      if ok {
        TopsPaid(sp2, k.spaces[root], f1, f2, |k.free|);
        FreshMine(view1, k.spaces[root].view, k.owner, root, tf, trampoline);
      } else {
        SecondTopShort(sp2, f1, f2);
        UndoTop(root, m0, o0);
      }
    }

    /** proc_pagetable(), for a trapframe that the kernel holds. */
    method ProcPagetable(tf: nat) returns (root: int)
      requires k.Valid() && tf in k.owner && k.owner[tf] == Held && 0 <= trampoline && trampoline !in k.owner
      modifies k
      ensures k.Valid()
      ensures root == 0 ==> k.spaces == old(k.spaces) && Unspent(old(k.mem), old(k.owner), k.mem, k.owner)
      ensures root != 0 ==>
        root !in old(k.spaces) && root in k.spaces && k.spaces == old(k.spaces)[root := k.spaces[root]]
      ensures root != 0 ==> Mine(k.spaces[root].view, k.owner, root, Proc(0, tf), trampoline)
      ensures root != 0 ==> Only(old(k.mem), old(k.owner), k.mem, k.owner, root)
      ensures root != 0 ==> forall p {:trigger old(k.owner)[p]} | p in old(k.owner) :: !OfSpace(old(k.owner)[p], root)
      ensures root == 0 <==> old(|k.free|) < 3
      ensures root != 0 ==> Topped(k.spaces[root]) && |k.free| == old(|k.free|) - 3
    {
      ghost var m0, o0, spaces0 := k.mem, k.owner, k.spaces;
      root := BeginSpace();
      if root == 0 {
        return;
      }
      var ok := MapTops(root, tf, m0, o0);
      if !ok {
        Abandon(root, m0, o0, spaces0);
        return 0;
      }
    }

    /** The memory of a new process, from allocproc(): its trapframe, and a space without user pages; or 0,
        with every page back. */
    method Allocproc() returns (root: int)
      requires Valid()
      modifies this`procs, k
      ensures Valid()
      ensures root == 0 ==>
        procs == old(procs) && k.spaces == old(k.spaces) && Unspent(old(k.mem), old(k.owner), k.mem, k.owner)
      ensures root != 0 ==>
        root !in old(procs) && root in procs && procs == old(procs)[root := procs[root]] && procs[root].size == 0
      ensures root != 0 ==>
        root !in old(k.spaces) && root in k.spaces && k.spaces == old(k.spaces)[root := k.spaces[root]]
      ensures root != 0 ==> Gained(old(k.mem), old(k.owner), k.mem, k.owner, root, procs[root].trapframe)
      ensures OthersSee(old(k.mem), old(k.spaces), k.mem, k.spaces, old(procs), root)
      ensures root == 0 <==> old(|k.free|) < 4
      ensures root != 0 ==> Topped(k.spaces[root]) && |k.free| == old(|k.free|) - 4
    {
      Open();
      ghost var m0, o0, spaces0 := k.mem, k.owner, k.spaces;
      k.PoolKeys();
      var tf := k.Kalloc();
      if tf == 0 {
        SeesAll(m0, o0, k.mem, spaces0, procs, trampoline);
        return 0;
      }
      Taken(spaces0, m0, o0, procs, trampoline, tf, k.mem[tf]);
      k.PoolKeys();
      ghost var m1, o1 := k.mem, k.owner;
      root := ProcPagetable(tf);
      if root == 0 {
        ghost var m2 := k.mem;
        var panicked := k.Kfree(tf);
        NothingSpent(m0, o0, m1, o1, m2, k.mem, k.owner, tf);
        SeesAll(m0, o0, k.mem, spaces0, procs, trampoline);
        return 0;
      }
      GainedFirst(m0, o0, m1, o1, k.mem, k.owner, root, tf, m1[tf]);
      OthersKept(spaces0, m1, o1, k.spaces, k.mem, k.owner, procs, trampoline, root);
      Joined(k.spaces, k.owner, procs, trampoline, root, Proc(0, tf));
      SeeTrans(m0, spaces0, m1, spaces0, k.mem, k.spaces, procs, root, 0);
      procs := procs[root := Proc(0, tf)];
    }

    /** The memory of a process in freeproc(): all its pages go back to the pool, and no others. */
    method Freeproc(root: int)
      requires Valid() && root in procs
      modifies this`procs, k
      ensures Valid() && procs == old(procs) - {root} && k.spaces == old(k.spaces) - {root}
      ensures Gone(old(k.mem), old(k.owner), k.mem, k.owner, root, old(procs)[root].trapframe)
      ensures OthersSee(old(k.mem), old(k.spaces), k.mem, k.spaces, old(procs), root)
    {
      Open();
      var p := procs[root];
      ghost var m0, o0, spaces0 := k.mem, k.owner, k.spaces;
      assert Mine(spaces0[root].view, o0, root, p, trampoline);
      k.PoolKeys();
      NoTop(root);
      var panicked := k.Kfree(p.trapframe);
      ghost var m1, o1 := k.mem, k.owner;
      MineElsewhere(spaces0[root].view, o0, o1, m0, m1, root, p, trampoline, p.trapframe);
      GivenBack(spaces0, m0, o0, m1, procs - {root}, trampoline, p.trapframe);
      FreePagetable(root, p.size, p.trapframe);
      OthersFreed(spaces0, m1, o1, k.spaces, k.mem, k.owner, procs - {root}, trampoline, root);
      SeeTrans(m0, spaces0, m1, spaces0, k.mem, k.spaces, procs - {root}, root, 0);
      GoneIs(m0, o0, m1, k.mem, k.owner, root, p.trapframe);
      procs := procs - {root};
    }

    /** The pages of a process and the free pages lie side by side in the pool. */
    lemma SizeBound(root: int)
      requires Valid() && root in procs
      ensures Pages(procs[root].size) + |k.free| <= k.phystop - k.end
    {
      Open();
      k.FreeListed();
      var frames := Frames(k.spaces[root].view, k.owner, root, procs[root], trampoline);
      SideBySide(frames, k.free, k.end, k.phystop);
    }

    /** What uvmalloc() can run into, if it has that many pages to get there. */
    lemma RunsIntoTop(root: int, u: int)
      requires Valid() && root in procs && root in k.spaces && u >= Pages(procs[root].size)
      requires (u in k.spaces[root].view || u >= MAXVPN) && u - Pages(procs[root].size) <= |k.free|
      ensures TRAPFRAME <= u && TRAPFRAME <= k.phystop - k.end
    {
      Open();
      SizeBound(root);
      assert Mine(k.spaces[root].view, k.owner, root, procs[root], trampoline);
    }

    /** uvmalloc() up to the new size. */
    method AllocTo(root: int, newsz: nat) returns (sz: nat, panicked: bool)
      requires Valid() && root in procs && root in k.spaces && newsz >= procs[root].size
      modifies k
      ensures k.Valid() && root in k.spaces && k.spaces == old(k.spaces)[root := k.spaces[root]]
      ensures panicked ==> Pages(newsz) > TRAPFRAME && k.phystop - k.end >= TRAPFRAME
      ensures !panicked ==> KeptData(old(k.mem), old(k.owner), k.mem, k.owner, root)
      ensures !panicked && sz != 0 ==> sz == newsz
      ensures !panicked && sz != 0 ==>
        Grown(old(k.spaces[root].view), old(k.owner), k.spaces[root].view, k.owner, k.mem, root,
          Pages(procs[root].size), k.Zeroed(Pages(newsz) - Pages(procs[root].size), W))
      ensures !panicked && sz == 0 && newsz > 0 ==>
        k.spaces[root].view == old(k.spaces[root].view)
        && TablesGrew(old(k.mem), old(k.owner), k.mem, k.owner, root)
      ensures !panicked && newsz > 0 ==>
        (sz != 0 <==> Enough(old(|k.free|), old(k.spaces[root]), Pages(procs[root].size), Pages(newsz)))
    {
      ghost var old0, view := Pages(procs[root].size), k.spaces[root].view;
      PagesGrow(procs[root].size, newsz);
      forall u {:trigger Bars(view, u, old0, Pages(newsz))} |
        Bars(view, u, old0, Pages(newsz)) && u - old0 <= |k.free|
        ensures TRAPFRAME <= u && TRAPFRAME <= k.phystop - k.end
      {
        RunsIntoTop(root, u);
      }
      sz, panicked := k.Uvmalloc(root, procs[root].size, newsz, W);
    }

    method GrowBy(root: int, n: nat) returns (r: int, panicked: bool)
      requires Valid() && root in procs && 0 < n
      modifies this`procs, k
      ensures panicked ==> Pages(old(procs)[root].size + n) > TRAPFRAME && k.phystop - k.end >= TRAPFRAME
      ensures !panicked ==> Valid() && (r == 0 || r == -1) && root in procs && procs == old(procs)[root := procs[root]]
      ensures !panicked ==> procs[root].size == old(procs)[root].size + if r == 0 then n else 0
      ensures !panicked ==> root in k.spaces && OthersSee(old(k.mem), old(k.spaces), k.mem, k.spaces, old(procs), root)
      ensures !panicked ==> Sees(old(k.mem), old(k.spaces), k.mem, k.spaces, root, Pages(old(procs)[root].size))
      ensures !panicked ==> forall u {:trigger PageAt(k.mem, k.spaces[root].view, u)} |
        Pages(old(procs)[root].size) <= u < Pages(procs[root].size) ::
          PageAt(k.mem, k.spaces[root].view, u) == Want(RWU, Filled(ZERO))
      ensures root in old(k.spaces)
      ensures !panicked ==>
        (r == 0 <==> Enough(old(|k.free|), old(k.spaces)[root], Pages(old(procs)[root].size),
          Pages(old(procs)[root].size + n)))
    {
      Open();
      var p := procs[root];
      ghost var m0, o0, spaces0 := k.mem, k.owner, k.spaces;
      PagesGrow(p.size, p.size + n);
      var sz;
      sz, panicked := AllocTo(root, p.size + n);
      if panicked {
        return 0, true;
      }
      if sz == 0 {
        StayedAt(root, p, m0, o0, spaces0);
        r := -1;
      } else {
        GrownAt(root, p, n, m0, o0, spaces0);
        procs := procs[root := p.(size := sz)];
        r := 0;
      }
    }

    lemma StayedAt(root: int, p: Proc, m0: map<int, Page>, o0: map<int, Owner>, spaces0: map<int, Space>)
      requires AllMine(spaces0, o0, procs, trampoline) && root in procs && p == procs[root] && root in spaces0
      requires root in k.spaces
      requires k.spaces == spaces0[root := k.spaces[root]] && k.spaces[root].view == spaces0[root].view
      requires TablesGrew(m0, o0, k.mem, k.owner, root)
      ensures AllMine(k.spaces, k.owner, procs, trampoline) && OthersSee(m0, spaces0, k.mem, k.spaces, procs, root)
      ensures Sees(m0, spaces0, k.mem, k.spaces, root, Pages(p.size))
    {
      OnlyTables(m0, o0, k.mem, k.owner, root);
      SameMine(m0, spaces0[root].view, o0, k.mem, k.owner, root, p, trampoline);
      Rejoin(root, p, m0, o0, spaces0);
      assert procs[root := p] == procs;
    }

    lemma GrownAt(root: int, p: Proc, n: nat, m0: map<int, Page>, o0: map<int, Owner>, spaces0: map<int, Space>)
      requires AllMine(spaces0, o0, procs, trampoline) && root in procs && p == procs[root] && root in spaces0
      requires root in k.spaces
      requires k.spaces == spaces0[root := k.spaces[root]] && KeptData(m0, o0, k.mem, k.owner, root)
      requires Pages(p.size) <= Pages(p.size + n)
      requires Grown(spaces0[root].view, o0, k.spaces[root].view, k.owner, k.mem, root, Pages(p.size),
        k.Zeroed(Pages(p.size + n) - Pages(p.size), W))
      ensures AllMine(k.spaces, k.owner, procs[root := p.(size := p.size + n)], trampoline)
      ensures OthersSee(m0, spaces0, k.mem, k.spaces, procs, root)
      ensures Sees(m0, spaces0, k.mem, k.spaces, root, Pages(p.size))
      ensures forall u {:trigger PageAt(k.mem, k.spaces[root].view, u)} | Pages(p.size) <= u < Pages(p.size + n) ::
        PageAt(k.mem, k.spaces[root].view, u) == Want(RWU, Filled(ZERO))
    {
      var view, view' := spaces0[root].view, k.spaces[root].view;
      assert Mine(view, o0, root, p, trampoline);
      var want := k.Zeroed(Pages(p.size + n) - Pages(p.size), W);
      assert TRAPFRAME in view;
      NotBeyond(view, view', k.owner, k.mem, root, p, trampoline, want);
      OnlyGrown(m0, o0, k.mem, k.owner, root, Pages(p.size), |want|);
      GrownMine(m0, view, o0, k.mem, view', k.owner, root, p, p.size + n, trampoline, want);
      Rejoin(root, p.(size := p.size + n), m0, o0, spaces0);
    }

    method ShrinkBy(root: int, n: int)
      requires Valid() && root in procs && -0x8000_0000 <= n < 0
      modifies this`procs, k
      ensures Valid() && root in procs && procs == old(procs)[root := procs[root]]
      ensures procs[root].size ==
        if old(procs)[root].size + n < 0 then old(procs)[root].size else old(procs)[root].size + n
      ensures root in k.spaces && OthersSee(old(k.mem), old(k.spaces), k.mem, k.spaces, old(procs), root)
      ensures Sees(old(k.mem), old(k.spaces), k.mem, k.spaces, root, Pages(procs[root].size))
    {
      Open();
      var p := procs[root];
      ghost var m0, o0, spaces0, view := k.mem, k.owner, k.spaces, k.spaces[root].view;
      assert Mine(view, o0, root, p, trampoline);
      var newsz := if p.size + n < 0 then p.size + n + 0x1_0000_0000_0000_0000 else p.size + n;
      SizeFits(p.size);
      if newsz < p.size {
        PagesGrow(newsz, p.size);
        forall u | 0 <= u < Pages(p.size)
          ensures u in view && OwnPage(view, o0, root, u) && CanUnmap(view, o0, u, true)
          ensures FrameIsUsers(view, o0, root, u)
        {
          MineCanUnmap(view, o0, root, p, trampoline, u);
        }
      }
      var sz, panicked := k.Uvmdealloc(root, p.size, newsz);
      if newsz < p.size {
        OnlyReleased(m0, o0, k.mem, k.owner, root, Pages(newsz), Pages(p.size) - Pages(newsz), Free);
        ShrunkMine(m0, view, o0, k.mem, k.spaces[root].view, k.owner, root, p, newsz, trampoline);
        Rejoin(root, p.(size := newsz), m0, o0, spaces0);
      }
      procs := procs[root := p.(size := sz)];
    }

    /** The memory of fork(): the child sees what its parent sees, in frames of its own; or 0, with every page
        back where it was.  It asks nothing of the parent but to be a process. */
    method Fork(parent: int) returns (child: int)
      requires Valid() && parent in procs
      modifies this`procs, k
      ensures Valid()
      ensures child == 0 ==>
        procs == old(procs) && k.spaces == old(k.spaces) && Unspent(old(k.mem), old(k.owner), k.mem, k.owner)
      ensures child != 0 ==> child !in old(procs) && child in procs && procs == old(procs)[child := procs[child]]
      ensures child != 0 ==> procs[child].size == old(procs)[parent].size
      ensures child != 0 ==>
        child !in old(k.spaces) && child in k.spaces && k.spaces == old(k.spaces)[child := k.spaces[child]]
      ensures child != 0 ==> Gained(old(k.mem), old(k.owner), k.mem, k.owner, child, procs[child].trapframe)
      ensures child != 0 ==> parent in k.spaces && forall u {:trigger PageAt(k.mem, k.spaces[child].view, u)} |
        0 <= u < Pages(procs[child].size) ::
          PageAt(k.mem, k.spaces[child].view, u) == PageAt(k.mem, k.spaces[parent].view, u)
      ensures OthersSee(old(k.mem), old(k.spaces), k.mem, k.spaces, old(procs), 0)
      ensures child != 0 <==> CanFork(old(|k.free|), Pages(old(procs)[parent].size))
    {
      ghost var m0, o0, spaces0, procs0, f0 := k.mem, k.owner, k.spaces, procs, |k.free|;
      NoRootZero();
      child := Allocproc();
      if child == 0 {
        TooFewToFork(f0, Pages(procs[parent].size));
        return;
      }
      ghost var m1, o1, spaces1, procs1 := k.mem, k.owner, k.spaces, procs;
      SeeFewer(m0, spaces0, m1, spaces1, procs0, procs0, child);
      assert |k.free| + 4 == f0;
      var ok := CopyTo(parent, child);
      SeeFewer(m1, spaces1, k.mem, k.spaces, procs0, procs, child);
      SeeTrans(m0, spaces0, m1, spaces1, k.mem, k.spaces, procs0, 0, 0);
      if ok {
        GainedOnly(m0, o0, m1, o1, k.mem, k.owner, child, procs[child].trapframe);
        SeesCopy(m1, spaces1, k.mem, k.spaces, procs, parent, child);
      } else {
        Undo(child, m0, o0, spaces0, procs0, m1, o1);
        child := 0;
      }
    }

    /** The error path of fork(). */
    method Undo(child: int, ghost m0: map<int, Page>, ghost o0: map<int, Owner>, ghost spaces0: map<int, Space>,
                ghost procs0: map<int, Proc>,
                ghost m1: map<int, Page>, ghost o1: map<int, Owner>)
      requires Valid() && child !in procs0 && child in procs && procs == procs0[child := procs[child]]
      requires child !in spaces0 && child in k.spaces && k.spaces == spaces0[child := k.spaces[child]]
      requires Gained(m0, o0, m1, o1, child, procs[child].trapframe) && Only(m1, o1, k.mem, k.owner, child)
      requires OthersSee(m0, spaces0, k.mem, k.spaces, procs0, 0)
      modifies this`procs, k
      ensures Valid() && procs == procs0 && k.spaces == spaces0 && Unspent(m0, o0, k.mem, k.owner)
      ensures OthersSee(m0, spaces0, k.mem, k.spaces, procs0, 0)
    {
      ghost var m2, o2, spaces2, procs2 := k.mem, k.owner, k.spaces, procs;
      GainedOnly(m0, o0, m1, o1, m2, o2, child, procs[child].trapframe);
      Freeproc(child);
      GainedGone(m0, o0, m2, o2, k.mem, k.owner, child, procs2[child].trapframe);
      SeeFewer(m2, spaces2, k.mem, k.spaces, procs0, procs2, child);
      SeeTrans(m0, spaces0, m2, spaces2, k.mem, k.spaces, procs0, 0, 0);
      assert procs == procs0;
      assert k.spaces == spaces0;
    }

    /** A child that is freed again gives back every page that the fork took, and no other. */
    method ForkThenFree(parent: int)
      requires Valid() && parent in procs
      modifies this`procs, k
      ensures Valid() && procs == old(procs) && k.spaces == old(k.spaces)
      ensures Unspent(old(k.mem), old(k.owner), k.mem, k.owner)
    {
      ghost var m0, o0, spaces0, procs0 := k.mem, k.owner, k.spaces, procs;
      var child := Fork(parent);
      if child != 0 {
        ghost var m1, o1, tf := k.mem, k.owner, procs[child].trapframe;
        Freeproc(child);
        GainedGone(m0, o0, m1, o1, k.mem, k.owner, child, tf);
        assert procs == procs0;
        assert k.spaces == spaces0;
      }
    }

    /** Page p is put to a use: as a table of some space, as the frame of a page below the size of some
        process, as some process's trapframe, or as an element of the free list. */
    ghost predicate UsedAs(p: int, use: Use)
      reads this, k
    {
      match use
      case Table(o) => (o.Root? || o.Mid? || o.Low?) && PageOk(k.spaces, p, o)
      case Frame(r, u) =>
        && r in procs && r in k.spaces && 0 <= u < Pages(procs[r].size)
        && u in k.spaces[r].view && k.spaces[r].view[u].ppn == p
      case Trap(r) => r in procs && procs[r].trapframe == p
      case Listed(j) => 0 <= j < |k.free| && k.free[j] == p
    }

    /** No page has two uses. */
    lemma NoPageTwice(p: int, use: Use, use': Use)
      requires Valid() && UsedAs(p, use) && UsedAs(p, use')
      ensures p in k.owner && use == use'
    {
      UseOwns(p, use);
      UseOwns(p, use');
      Open();
      k.Open();
      if use.Table? && use'.Table? {
        k.NoPageTwice(p, use.o, use'.o);
      }
    }

    /** What a use makes of the owner of a page. */
    lemma UseOwns(p: int, use: Use)
      requires Valid() && UsedAs(p, use)
      ensures p in k.owner && k.owner[p] == match use
        case Table(o) => o
        case Frame(r, u) => User(r, u)
        case Trap(_) => Held
        case Listed(_) => Free
    {
      Open();
      k.Open();
      match use
      case Table(o) => assert Owns(k.owner, o.root, k.spaces[o.root]);
      case Frame(r, u) => MineCanUnmap(k.spaces[r].view, k.owner, r, procs[r], trampoline, u);
      case Trap(r) => assert Mine(k.spaces[r].view, k.owner, r, procs[r], trampoline);
      case Listed(j) =>
    }

    /** Every page has a use, but for what the kernel holds, or has in a space that is no process's. */
    lemma EveryPageUsed(p: int) returns (use: Use)
      requires Valid() && p in k.owner && k.owner[p] != Held && (k.owner[p].User? ==> k.owner[p].root in procs)
      ensures UsedAs(p, use)
    {
      k.Open();
      var o := k.owner[p];
      assert PageOk(k.spaces, p, o);
      match o
      case Free =>
        var j :| 0 <= j < |k.free| && k.free[j] == p;
        use := Listed(j);
      case User(r, v) =>
        NoTop(r);
        Open();
        assert v in k.spaces[r].view && v != TRAPFRAME && v != TRAMPOLINE;
        use := Frame(r, v);
      case _ => use := Table(o);
    }

    lemma NoRootZero()
      requires Valid()
      ensures 0 !in procs
    {
      Open();
    }

    /** uvmcopy() of all of the parent into the new child; its size is set if that succeeds. */
    method CopyTo(parent: int, child: int) returns (ok: bool)
      requires Valid() && parent in procs && child in procs && parent != child && procs[child].size == 0
      requires child in k.spaces && Topped(k.spaces[child])
      modifies this`procs, k
      ensures Valid() && child in k.spaces && k.spaces == old(k.spaces)[child := k.spaces[child]]
      ensures Only(old(k.mem), old(k.owner), k.mem, k.owner, child)
      ensures !ok ==> procs == old(procs)
      ensures ok ==> procs == old(procs)[child := old(procs)[child].(size := old(procs)[parent].size)]
      ensures ok ==> parent in k.spaces && forall u {:trigger PageAt(k.mem, k.spaces[child].view, u)} |
        0 <= u < Pages(old(procs)[parent].size) ::
          PageAt(k.mem, k.spaces[child].view, u) == PageAt(old(k.mem), k.spaces[parent].view, u)
      ensures OthersSee(old(k.mem), old(k.spaces), k.mem, k.spaces, procs, child)
      ensures ok <==> CanFork(old(|k.free|) + 4, Pages(old(procs)[parent].size))
    {
      Open();
      var p, q := procs[parent], procs[child];
      ghost var m0, o0, spaces0, view, view0 := k.mem, k.owner, k.spaces, k.spaces[parent].view, k.spaces[child].view;
      assert Mine(view, o0, parent, p, trampoline) && Mine(view0, o0, child, q, trampoline);
      forall u | 0 <= u < Pages(p.size) && u in view ensures OwnPage(view, o0, parent, u) {
        MineCanUnmap(view, o0, parent, p, trampoline, u);
      }
      ghost var want;
      var r;
      ghost var sp, f := k.spaces[child], |k.free|;
      r, want := k.Uvmcopy(parent, child, p.size);
      CopyDoesNotPanic(view, view0, o0, parent, p, child, q, trampoline);
      if r == NoMemory {
        CannotCopy(f, sp, Pages(p.size));
        NotCopiedAt(child, m0, o0, spaces0);
        return false;
      }
      HasCopied(f, |k.free|, sp, k.spaces[child], Pages(p.size));
      CopiedAt(parent, child, m0, o0, spaces0, want);
      procs := procs[child := q.(size := p.size)];
      ok := true;
    }

    lemma NotCopiedAt(child: int, m0: map<int, Page>, o0: map<int, Owner>, spaces0: map<int, Space>)
      requires AllMine(spaces0, o0, procs, trampoline) && child in procs
      requires Restored(spaces0, m0, o0, k.spaces, k.mem, k.owner, child)
      ensures AllMine(k.spaces, k.owner, procs, trampoline) && Only(m0, o0, k.mem, k.owner, child)
      ensures OthersSee(m0, spaces0, k.mem, k.spaces, procs, child)
    {
      OnlyTables(m0, o0, k.mem, k.owner, child);
      SameMine(m0, spaces0[child].view, o0, k.mem, k.owner, child, procs[child], trampoline);
      Rejoin(child, procs[child], m0, o0, spaces0);
      assert procs[child := procs[child]] == procs;
    }

    lemma CopiedAt(parent: int, child: int, m0: map<int, Page>, o0: map<int, Owner>, spaces0: map<int, Space>,
                   want: seq<Want>)
      requires AllMine(spaces0, o0, procs, trampoline) && child in procs && parent in procs && parent != child
      requires procs[child].size == 0 && child in spaces0 && child in k.spaces && parent in spaces0
      requires k.spaces == spaces0[child := k.spaces[child]] && KeptData(m0, o0, k.mem, k.owner, child)
      requires |want| == Pages(procs[parent].size) && IsCopy(spaces0[parent].view, m0, want)
      requires Grown(spaces0[child].view, o0, k.spaces[child].view, k.owner, k.mem, child, 0, want)
      ensures var p := procs[parent];
              AllMine(k.spaces, k.owner, procs[child := procs[child].(size := p.size)], trampoline)
      ensures Only(m0, o0, k.mem, k.owner, child) && OthersSee(m0, spaces0, k.mem, k.spaces, procs, child)
      ensures forall u {:trigger PageAt(k.mem, k.spaces[child].view, u)} | 0 <= u < Pages(procs[parent].size) ::
        PageAt(k.mem, k.spaces[child].view, u) == PageAt(m0, spaces0[parent].view, u)
    {
      var p, q := procs[parent], procs[child];
      assert Mine(spaces0[parent].view, o0, parent, p, trampoline);
      assert Mine(spaces0[child].view, o0, child, q, trampoline);
      OnlyGrown(m0, o0, k.mem, k.owner, child, 0, |want|);
      CopiedRwx(spaces0[parent].view, m0, o0, parent, p, trampoline, want);
      GrownMine(m0, spaces0[child].view, o0, k.mem, k.spaces[child].view, k.owner, child, q, p.size, trampoline, want);
      Rejoin(child, q.(size := p.size), m0, o0, spaces0);
    }

    /** A process writes to one of its pages: nobody else sees it. */
    method Store(root: int, u: nat, page: Page)
      requires Valid() && root in procs && u < Pages(procs[root].size)
      modifies k
      ensures Valid() && k.spaces == old(k.spaces) && k.owner == old(k.owner) && root in k.spaces
      ensures forall v {:trigger PageAt(k.mem, k.spaces[root].view, v)} | 0 <= v < Pages(procs[root].size) ::
        PageAt(k.mem, k.spaces[root].view, v) == PageAt(old(k.mem), k.spaces[root].view, v).(page :=
          if v == u then page else PageAt(old(k.mem), k.spaces[root].view, v).page)
      ensures OthersSee(old(k.mem), old(k.spaces), k.mem, k.spaces, procs, root)
    {
      Open();
      k.PoolKeys();
      var p := procs[root];
      ghost var m0, view := k.mem, k.spaces[root].view;
      MineCanUnmap(view, k.owner, root, p, trampoline, u);
      assert u in view && Pages(p.size) <= TRAPFRAME;
      var pte, missing := k.ReadEntry(root, u * PGSIZE, u);
      var f := pte.ppn;
      k.StoreUser(f, page);
      forall v: nat {:trigger PageAt(k.mem, view, v)} | v < Pages(p.size)
        ensures PageAt(k.mem, view, v) ==
          PageAt(m0, view, v).(page := if v == u then page else PageAt(m0, view, v).page)
      {
        FrameOnce(view, view, k.owner, root, p, root, p, trampoline, u, v);
      }
      OnlyStored(m0, k.owner, k.mem, f, root);
      OthersKept(k.spaces, m0, k.owner, k.spaces, k.mem, k.owner, procs, trampoline, root);
    }

    /** The one process that an operation was on joins the others again. */
    lemma Rejoin(root: int, p: Proc, m0: map<int, Page>, o0: map<int, Owner>, spaces0: map<int, Space>)
      requires AllMine(spaces0, o0, procs, trampoline) && Only(m0, o0, k.mem, k.owner, root) && root in procs
      requires root in k.spaces
      requires k.spaces == spaces0[root := k.spaces[root]] && Mine(k.spaces[root].view, k.owner, root, p, trampoline)
      requires p.trapframe == procs[root].trapframe
      ensures AllMine(k.spaces, k.owner, procs[root := p], trampoline)
      ensures OthersSee(m0, spaces0, k.mem, k.spaces, procs, root)
    {
      OthersKept(spaces0, m0, o0, k.spaces, k.mem, k.owner, procs, trampoline, root);
      Joined(k.spaces, k.owner, procs, trampoline, root, p);
    }

    /** growproc(): -1 for lack of memory, with the process as it was.  Below 0 the sum wraps around.  It
        would run into the pages at the top only with more memory than there is. */
    method Growproc(root: int, n: int) returns (r: int, panicked: bool)
      requires Valid() && root in procs && -0x8000_0000 <= n < 0x8000_0000
      modifies this`procs, k
      ensures k.phystop - k.end <= RAM ==> !panicked
      ensures panicked ==>
        n > 0 && Pages(old(procs)[root].size + n) > TRAPFRAME && k.phystop - k.end >= TRAPFRAME
      ensures !panicked ==> Valid() && (r == 0 || r == -1) && (n <= 0 ==> r == 0)
      ensures !panicked ==> root in procs && procs == old(procs)[root := procs[root]]
      ensures !panicked ==>
        procs[root].size == if r == -1
        || old(procs)[root].size + n < 0 then old(procs)[root].size else old(procs)[root].size + n
      ensures !panicked ==> root in k.spaces && OthersSee(old(k.mem), old(k.spaces), k.mem, k.spaces, old(procs), root)
      ensures !panicked ==>
        Sees(old(k.mem), old(k.spaces), k.mem, k.spaces, root,
          if n > 0 then Pages(old(procs)[root].size) else Pages(procs[root].size))
      ensures !panicked && n > 0 ==> forall u {:trigger PageAt(k.mem, k.spaces[root].view, u)} |
        Pages(old(procs)[root].size) <= u < Pages(procs[root].size) ::
          PageAt(k.mem, k.spaces[root].view, u) == Want(RWU, Filled(ZERO))
      ensures root in old(k.spaces)
      ensures !panicked && n > 0 ==>
        (r == 0 <==> Enough(old(|k.free|), old(k.spaces)[root], Pages(old(procs)[root].size),
          Pages(old(procs)[root].size + n)))
    {
      SeesItself(root);
      if n > 0 {
        r, panicked := GrowBy(root, n);
      } else {
        Shrink(root, n);
        r, panicked := 0, false;
      }
    }

    /** ... where it does not grow. */
    method Shrink(root: int, n: int)
      requires Valid() && root in procs && -0x8000_0000 <= n <= 0
      modifies this`procs, k
      ensures Valid() && root in procs && procs == old(procs)[root := procs[root]]
      ensures procs[root].size ==
        if old(procs)[root].size + n < 0 then old(procs)[root].size else old(procs)[root].size + n
      ensures root in k.spaces && OthersSee(old(k.mem), old(k.spaces), k.mem, k.spaces, old(procs), root)
      ensures Sees(old(k.mem), old(k.spaces), k.mem, k.spaces, root, Pages(procs[root].size))
    {
      SeesItself(root);
      if n < 0 {
        ShrinkBy(root, n);
      }
    }

    lemma SeesItself(root: int)
      requires Valid() && root in procs
      ensures root in k.spaces && OthersSee(k.mem, k.spaces, k.mem, k.spaces, procs, root)
      ensures Sees(k.mem, k.spaces, k.mem, k.spaces, root, Pages(procs[root].size))
    {
      Open();
    }

    lemma NoTop(root: int)
      requires Valid() && root in procs
      ensures NoTopUser(k.owner, root)
    {
      Open();
      var view := k.spaces[root].view;
      assert Mine(view, k.owner, root, procs[root], trampoline) && TRAMPOLINE in view && TRAPFRAME in view;
      assert PageIs(view, k.owner, root, procs[root], trampoline, TRAMPOLINE);
      assert PageIs(view, k.owner, root, procs[root], trampoline, TRAPFRAME);
      forall f {:trigger k.owner[f]} | f in k.owner
        ensures k.owner[f] != User(root, TRAMPOLINE) && k.owner[f] != User(root, TRAPFRAME)
      {
        if k.owner[f].User? {
          k.UserFrame(f);
        }
      }
    }
  }

  /** Pages that could be added did not run into the two pages at the top. */
  lemma NotBeyond(view: map<int, Word>, view': map<int, Word>, owner': map<int, Owner>, mem': map<int, Page>, root: int,
                  p: Proc, trampoline: int, want: seq<Want>)
    requires GrownView(view, view', owner', mem', root, Pages(p.size), want)
    requires Pages(p.size) <= TRAPFRAME && TRAPFRAME in view
    ensures Pages(p.size) + |want| <= TRAPFRAME
  {}

  lemma SizeFits(size: nat)
    requires Pages(size) <= TRAPFRAME
    ensures size <= MAXVA
  {}

  lemma OnlyStored(mem: map<int, Page>, owner: map<int, Owner>, mem': map<int, Page>, f: int, root: int)
    requires mem.Keys == owner.Keys && f in owner && owner[f].User? && owner[f].root == root && f in mem'
    requires mem' == mem[f := mem'[f]]
    ensures Only(mem, owner, mem', owner, root)
  {}

  lemma CopyDoesNotPanic(view: map<int, Word>, view0: map<int, Word>, owner: map<int, Owner>, parent: int, p: Proc,
                         child: int, q: Proc, trampoline: int)
    requires Mine(view, owner, parent, p, trampoline) && Mine(view0, owner, child, q, trampoline) && q.size == 0
    ensures !exists u :: 0 <= u < Pages(p.size) && (u !in view || u in view0 || u >= MAXVPN)
  {}

  lemma CopiedRwx(view: map<int, Word>, mem: map<int, Page>, owner: map<int, Owner>, root: int, p: Proc,
                  trampoline: int, want: seq<Want>)
    requires MineView(view, owner, root, p, trampoline) && IsCopy(view, mem, want) && |want| == Pages(p.size)
    ensures forall i | 0 <= i < |want| :: Rwx(want[i].perm) && want[i] == PageAt(mem, view, i) == Usable(want[i])
  {
    forall i | 0 <= i < |want| ensures Rwx(want[i].perm) && want[i] == PageAt(mem, view, i) == Usable(want[i]) {
      assert i in view && PageIs(view, owner, root, p, trampoline, i);
    }
  }

  lemma SeesAll(mem: map<int, Page>, owner: map<int, Owner>, mem': map<int, Page>, spaces: map<int, Space>,
                procs: map<int, Proc>, trampoline: int)
    requires AllMine(spaces, owner, procs, trampoline) && Unspent(mem, owner, mem', owner) && mem.Keys == owner.Keys
    ensures OthersSee(mem, spaces, mem', spaces, procs, 0)
  {
    forall r {:trigger procs[r]} {:trigger r in procs} | r in procs
      ensures forall u {:trigger PageAt(mem', spaces[r].view, u)} | 0 <= u < Pages(procs[r].size) ::
        PageAt(mem', spaces[r].view, u) == PageAt(mem, spaces[r].view, u)
    {
      forall u {:trigger PageAt(mem', spaces[r].view, u)} | 0 <= u < Pages(procs[r].size)
        ensures PageAt(mem', spaces[r].view, u) == PageAt(mem, spaces[r].view, u)
      {
        var view := spaces[r].view;
        assert u in view && PageIs(view, owner, r, procs[r], trampoline, u);
        assert mem'[view[u].ppn] == mem[view[u].ppn];
      }
    }
  }

  lemma NothingSpent(m0: map<int, Page>, o0: map<int, Owner>, m1: map<int, Page>, o1: map<int, Owner>,
                     m2: map<int, Page>,
                     mem: map<int, Page>, owner: map<int, Owner>, tf: int)
    requires tf in o0 && o0[tf] == Free && o1 == o0[tf := Held] && m0.Keys == o0.Keys && m1.Keys == m0.Keys
    requires forall p {:trigger m1[p]} | p in m0 && p != tf :: m1[p] == m0[p]
    requires Unspent(m1, o1, m2, o1) && mem.Keys == m2.Keys
    requires forall p {:trigger mem[p]} | p in mem && p != tf :: mem[p] == m2[p]
    requires owner == o1[tf := Free]
    ensures Unspent(m0, o0, mem, owner)
  {
    assert owner == o0;
    forall p {:trigger mem[p]} | p in m0 && p in o0 && o0[p] != Free ensures mem[p] == m0[p] {
      assert m1[p] == m0[p] && m2[p] == m1[p];
    }
  }

  /** A new process has taken free pages for its space and its trapframe, and done nothing else. */
  ghost predicate Gained(mem: map<int, Page>, owner: map<int, Owner>, mem': map<int, Page>, owner': map<int, Owner>,
                         root: int, tf: int) {
    && mem.Keys == owner.Keys == owner'.Keys == mem'.Keys && tf in owner && owner[tf] == Free && owner'[tf] == Held
    && (forall p {:trigger owner'[p]} | p in owner && p != tf ::
          owner'[p] == owner[p] || (owner[p] == Free && OfSpace(owner'[p], root)))
    && (forall p {:trigger owner[p]} | p in owner :: !OfSpace(owner[p], root))
    && (forall p {:trigger mem'[p]} | p in mem && owner[p] != Free :: mem'[p] == mem[p])
  }

  lemma GainedFirst(mem: map<int, Page>, owner: map<int, Owner>, mem1: map<int, Page>, owner1: map<int, Owner>,
                    mem2: map<int, Page>, owner2: map<int, Owner>,
                    root: int, tf: int, page: Page)
    requires tf in owner && owner[tf] == Free && owner1 == owner[tf := Held] && mem.Keys == owner.Keys
    requires mem1 == mem[tf := page]
    requires Only(mem1, owner1, mem2, owner2, root)
    requires forall p {:trigger owner1[p]} | p in owner1 :: !OfSpace(owner1[p], root)
    ensures Gained(mem, owner, mem2, owner2, root, tf)
  {
    forall p {:trigger owner[p]} | p in owner ensures !OfSpace(owner[p], root) {
      assert p != tf ==> owner1[p] == owner[p];
    }
    assert owner2[tf] == owner1[tf];
    forall p {:trigger mem2[p]} | p in mem && owner[p] != Free ensures mem2[p] == mem[p] {
      assert !Loose(owner1[p], root);
    }
  }

  lemma GainedOnly(mem: map<int, Page>, owner: map<int, Owner>, mem1: map<int, Page>, owner1: map<int, Owner>,
                   mem2: map<int, Page>, owner2: map<int, Owner>,
                     root: int, tf: int)
    requires Gained(mem, owner, mem1, owner1, root, tf) && Only(mem1, owner1, mem2, owner2, root)
    ensures Gained(mem, owner, mem2, owner2, root, tf)
  {
    assert owner2[tf] == owner1[tf];
    forall p {:trigger owner2[p]} | p in owner && p != tf
      ensures owner2[p] == owner[p] || (owner[p] == Free && OfSpace(owner2[p], root))
    {
      assert owner1[p] == owner[p] || (owner[p] == Free && OfSpace(owner1[p], root));
    }
    forall p {:trigger mem2[p]} | p in mem && owner[p] != Free ensures mem2[p] == mem[p] {
      assert !OfSpace(owner[p], root) && owner1[p] == owner[p] && mem1[p] == mem[p];
    }
  }

  /** What is left when a process is gone. */
  ghost predicate Gone(mem: map<int, Page>, owner: map<int, Owner>, mem': map<int, Page>, owner': map<int, Owner>,
                       root: int, tf: int) {
    && mem.Keys == owner.Keys == owner'.Keys == mem'.Keys
    && (forall p {:trigger owner'[p]} | p in owner ::
          owner'[p] == if OfSpace(owner[p], root) || p == tf then Free else owner[p])
    && (forall p {:trigger mem'[p]} | p in mem && owner'[p] != Free :: mem'[p] == mem[p])
  }

  lemma GoneIs(mem: map<int, Page>, owner: map<int, Owner>, mem1: map<int, Page>, mem2: map<int, Page>,
               owner2: map<int, Owner>, root: int, tf: int)
    requires mem.Keys == owner.Keys == mem1.Keys && tf in owner && owner[tf] == Held
    requires forall p {:trigger mem1[p]} | p in mem && p != tf :: mem1[p] == mem[p]
    requires SpaceFreed(mem1, owner[tf := Free], mem2, owner2, root)
    ensures Gone(mem, owner, mem2, owner2, root, tf)
  {
    forall p {:trigger mem2[p]} | p in mem && owner2[p] != Free ensures mem2[p] == mem[p] {
      assert owner2[p] == owner[p] && mem1[p] == mem[p];
    }
  }

  lemma GainedGone(mem: map<int, Page>, owner: map<int, Owner>, mem1: map<int, Page>, owner1: map<int, Owner>,
                   mem2: map<int, Page>, owner2: map<int, Owner>,
                   root: int, tf: int)
    requires Gained(mem, owner, mem1, owner1, root, tf) && Gone(mem1, owner1, mem2, owner2, root, tf)
    ensures Unspent(mem, owner, mem2, owner2)
  {
    forall p {:trigger owner2[p]} {:trigger mem2[p]} | p in owner
      ensures owner2[p] == owner[p] && (owner[p] != Free ==> mem2[p] == mem[p])
    {
      assert owner1[p] == owner1[p] && mem1[p] == mem1[p];
      assert p != tf ==> owner1[p] == owner[p] || (owner[p] == Free && OfSpace(owner1[p], root));
    }
    assert owner2 == owner;
  }

  lemma SeeTrans(mem: map<int, Page>, spaces: map<int, Space>, mem1: map<int, Page>, spaces1: map<int, Space>,
                 mem2: map<int, Page>, spaces2: map<int, Space>,
                 procs: map<int, Proc>, root: int, root': int)
    requires OthersSee(mem, spaces, mem1, spaces1, procs, root') && OthersSee(mem1, spaces1, mem2, spaces2, procs, root)
    requires root' == root || root' !in procs
    ensures OthersSee(mem, spaces, mem2, spaces2, procs, root)
  {
    forall r {:trigger procs[r]} {:trigger r in procs} | r in procs && r != root
      ensures r in spaces && r in spaces2 && spaces2[r] == spaces[r]
      ensures forall u {:trigger PageAt(mem2, spaces[r].view, u)} | 0 <= u < Pages(procs[r].size) ::
        PageAt(mem2, spaces[r].view, u) == PageAt(mem, spaces[r].view, u)
    {
      forall u {:trigger PageAt(mem2, spaces[r].view, u)} | 0 <= u < Pages(procs[r].size)
        ensures PageAt(mem2, spaces[r].view, u) == PageAt(mem, spaces[r].view, u)
      {
        assert PageAt(mem1, spaces[r].view, u) == PageAt(mem, spaces[r].view, u);
      }
    }
  }

  /** What some processes see, when the one that has changed is not among them. */
  lemma SeeFewer(mem: map<int, Page>, spaces: map<int, Space>, mem': map<int, Page>, spaces': map<int, Space>,
                 procs: map<int, Proc>, procs': map<int, Proc>, root: int)
    requires OthersSee(mem, spaces, mem', spaces', procs', root) && root !in procs
    requires forall r {:trigger r in procs} | r in procs :: r in procs' && procs'[r] == procs[r]
    ensures OthersSee(mem, spaces, mem', spaces', procs, 0)
  {
    forall r {:trigger procs[r]} {:trigger r in procs} | r in procs
      ensures r in spaces && r in spaces' && spaces'[r] == spaces[r]
      ensures forall u {:trigger PageAt(mem', spaces[r].view, u)} | 0 <= u < Pages(procs[r].size) ::
        PageAt(mem', spaces[r].view, u) == PageAt(mem, spaces[r].view, u)
    {
      assert procs'[r] == procs[r];
    }
  }

  /** A copy of what a process saw is a copy of what it sees. */
  lemma SeesCopy(mem: map<int, Page>, spaces: map<int, Space>, mem': map<int, Page>, spaces': map<int, Space>,
                 procs: map<int, Proc>, parent: int, child: int)
    requires parent in procs && parent != child && OthersSee(mem, spaces, mem', spaces', procs, child)
    requires child in spaces'
    requires parent in spaces'
    requires forall u {:trigger PageAt(mem', spaces'[child].view, u)} | 0 <= u < Pages(procs[parent].size) ::
      PageAt(mem', spaces'[child].view, u) == PageAt(mem, spaces'[parent].view, u)
    ensures forall u {:trigger PageAt(mem', spaces'[child].view, u)} | 0 <= u < Pages(procs[parent].size) ::
      PageAt(mem', spaces'[child].view, u) == PageAt(mem', spaces'[parent].view, u)
  {
    forall u {:trigger PageAt(mem', spaces'[child].view, u)} | 0 <= u < Pages(procs[parent].size)
      ensures PageAt(mem', spaces'[child].view, u) == PageAt(mem', spaces'[parent].view, u)
    {
      assert procs[parent] == procs[parent];
      assert PageAt(mem', spaces[parent].view, u) == PageAt(mem, spaces[parent].view, u);
    }
  }

  lemma OnlyKept(mem: map<int, Page>, owner: map<int, Owner>, mem': map<int, Page>, root: int)
    requires KeptData(mem, owner, mem', owner, root)
    ensures Only(mem, owner, mem', owner, root)
  {}

  lemma Began(m0: map<int, Page>, o0: map<int, Owner>, m1: map<int, Page>, o1: map<int, Owner>, root: int)
    requires m0.Keys == o0.Keys == m1.Keys && root in o0 && o0[root] == Free && o1 == o0[root := Root(root)]
    requires forall p {:trigger m1[p]} | p in m0 && p != root :: m1[p] == m0[p]
    ensures Only(m0, o0, m1, o1, root)
  {}

  /** The two pages at the top are in nobody's frames. */
  ghost predicate NoTopUser(owner: map<int, Owner>, root: int) {
    forall f {:trigger owner[f]} | f in owner :: owner[f] != User(root, TRAMPOLINE) && owner[f] != User(root, TRAPFRAME)
  }

  /** What is left of a process's space without the two pages at the top. */
  lemma BareMine(view: map<int, Word>, view1: map<int, Word>, view2: map<int, Word>, owner: map<int, Owner>, root: int,
                 p: Proc, trampoline: int)
    requires MineView(view, owner, root, p, trampoline) && Unmapped(view, view1, TRAMPOLINE, 1)
    requires Unmapped(view1, view2, TRAPFRAME, 1)
    ensures forall u {:trigger u in view2} :: u in view2 <==> 0 <= u < Pages(p.size)
    ensures forall u {:trigger view2[u]} | u in view2 ::
      u < MAXVPN && OwnPage(view2, owner, root, u) && Rwx(view2[u].flags)
  {
    forall u {:trigger u in view2} ensures u in view2 <==> 0 <= u < Pages(p.size) {
      assert (u in view || u !in view) && (u in view1 || u !in view1);
    }
    forall u {:trigger view2[u]} | u in view2
      ensures u < MAXVPN && OwnPage(view2, owner, root, u) && Rwx(view2[u].flags)
    {
      assert u in view1 && u in view && view2[u] == view[u] && PageIs(view, owner, root, p, trampoline, u);
    }
  }

  lemma FreedAfter(m0: map<int, Page>, m1: map<int, Page>, m2: map<int, Page>, o0: map<int, Owner>, mem: map<int, Page>,
                   owner: map<int, Owner>, root: int)
    requires KeptData(m0, o0, m1, o0, root) && KeptData(m1, o0, m2, o0, root) && SpaceFreed(m2, o0, mem, owner, root)
    ensures SpaceFreed(m0, o0, mem, owner, root)
  {
    forall p {:trigger mem[p]} | p in owner && o0[p] != Free && !OfSpace(o0[p], root) ensures mem[p] == m0[p] {
      assert m1[p] == m0[p] && m2[p] == m1[p];
    }
  }
}
