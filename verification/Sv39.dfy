/** The three-level page table of the kernel, read from the words of physical memory, and who owns
    each physical page.  Pages are named by their page number; 0 is no page. */
module Sv39 {
  import opened Basics

  const ENTRIES := 512
  const MAXVA := 0x40_0000_0000
  const MAXVPN := 0x400_0000

  // ---------------------------------------------------------------- words of memory

  /** A 64-bit word of memory, taken apart at bit 10 as the PTE macros do. */
  datatype Word = Word(ppn: int, flags: Flags)

  /** The ten low bits: PTE_V, PTE_R, PTE_W, PTE_X, PTE_U, and the five above them. */
  datatype Flags = Flags(v: bool, r: bool, w: bool, x: bool, u: bool, rest: nat)

  const NONE := Flags(false, false, false, false, false, 0)
  const ZERO := Word(0, NONE)
  /** Eight bytes of the junk that kalloc() and kfree() write. */
  const FIVES := Word(0x1_4141_4141_4141, Flags(true, false, true, false, false, 8))
  const ONES := Word(0x40_4040_4040_4040, Flags(true, false, false, false, false, 8))

  type Page = p: seq<Word> | |p| == ENTRIES witness seq(ENTRIES, _ => ZERO)

  function Filled(w: Word): Page { seq(ENTRIES, _ => w) }

  /** The word that holds the address of page p. */
  function Pointer(p: int): Word { Word(p * 4, NONE) }

  /** PA2PTE(pa) | perm | PTE_V */
  function Pte(ppn: int, perm: Flags): Word { Word(ppn, perm.(v := true)) }

  predicate Rwx(f: Flags) { f.r || f.w || f.x }

  /** PX(level, va) */
  function Px(level: int, va: nat): (i: nat)
    ensures i < ENTRIES
  {
    (if level == 2 then va / 0x4000_0000 else if level == 1 then va / 0x20_0000 else va / 0x1000) % ENTRIES
  }

  // ---------------------------------------------------------------- the tree

  /** A page table: its level-1 pages by index, its level-0 pages by index, and the map it stands
      for, from virtual page numbers to leaf entries. */
  datatype Space = Space(mid: map<int, int>, low: map<int, int>, view: map<int, Word>)

  ghost predicate Entry(w: Word, table: map<int, int>, k: int) {
    if k in table then w == Pte(table[k], NONE) else !w.flags.v
  }

  ghost predicate RootOk(mem: map<int, Page>, root: int, sp: Space, i: int) {
    0 <= i < ENTRIES && root in mem ==> Entry(mem[root][i], sp.mid, i)
  }

  /** The level-1 page with the entry for the 2 MiB region k. */
  function MidPage(sp: Space, k: int): int
    requires k / ENTRIES in sp.mid
  {
    sp.mid[k / ENTRIES]
  }

  /** The level-0 page with the entry for virtual page v. */
  function LowPage(sp: Space, v: int): int
    requires v / ENTRIES in sp.low
  {
    sp.low[v / ENTRIES]
  }

  ghost predicate MidOk(mem: map<int, Page>, sp: Space, k: int) {
    k / ENTRIES in sp.mid && MidPage(sp, k) in mem ==> Entry(mem[MidPage(sp, k)][k % ENTRIES], sp.low, k)
  }

  ghost predicate LowOk(mem: map<int, Page>, sp: Space, v: int) {
    v / ENTRIES in sp.low && LowPage(sp, v) in mem ==>
      var w := mem[LowPage(sp, v)][v % ENTRIES];
      if v in sp.view then w == sp.view[v] && w.flags.v else !w.flags.v
  }

  ghost predicate Nested(sp: Space) {
    && (forall i {:trigger i in sp.mid} | i in sp.mid :: 0 <= i < ENTRIES)
    && (forall k {:trigger k in sp.low} | k in sp.low :: k / ENTRIES in sp.mid)
    && (forall v {:trigger v in sp.view} | v in sp.view :: v / ENTRIES in sp.low)
  }

  /** The words reachable from root are the tables of sp and the leaf entries of sp.view. */
  ghost predicate Tree(mem: map<int, Page>, root: int, sp: Space) {
    && Nested(sp)
    && (forall i :: RootOk(mem, root, sp, i))
    && (forall k :: MidOk(mem, sp, k))
    && (forall v :: LowOk(mem, sp, v))
  }

  // ---------------------------------------------------------------- what the hardware does

  datatype Translation = Fault | Leaf(level: nat, pte: Word)

  predicate Readable(w: Word) { w.flags.r || w.flags.x }

  /** Section 4.3.2 of the RISC-V Privileged Architecture, steps 2 to 4. */
  function Translate(mem: map<int, Page>, a: int, level: nat, va: nat): Translation
    decreases level
  {
    if a !in mem then Fault else
    var w := mem[a][Px(level, va)];
    if !w.flags.v then Fault
    else if Readable(w) then Translation.Leaf(level, w)
    else if level == 0 then Fault
    else Translate(mem, w.ppn, level - 1, va)
  }

  /** The hardware finds the leaf entry the tree stands for, and nothing else. */
  lemma TranslateFindsView(mem: map<int, Page>, root: int, sp: Space, va: nat)
    requires Tree(mem, root, sp) && root in mem && va < MAXVA
    requires forall i | i in sp.mid :: sp.mid[i] in mem
    requires forall k | k in sp.low :: sp.low[k] in mem
    ensures Translate(mem, root, 2, va) ==
      if va / PGSIZE in sp.view
        && Readable(sp.view[va / PGSIZE]) then Translation.Leaf(0, sp.view[va / PGSIZE]) else Fault
  {
    var v := va / PGSIZE;
    Indices(va);
    assert RootOk(mem, root, sp, v / ENTRIES / ENTRIES);
    if v / ENTRIES / ENTRIES in sp.mid {
      assert MidOk(mem, sp, v / ENTRIES);
      assert Translate(mem, root, 2, va) == Translate(mem, MidPage(sp, v / ENTRIES), 1, va);
      if v / ENTRIES in sp.low {
        assert LowOk(mem, sp, v);
        assert Translate(mem, root, 2, va) == Translate(mem, LowPage(sp, v), 0, va);
      }
    }
  }

  lemma Indices(va: nat)
    requires va < MAXVA
    ensures Px(2, va) == va / PGSIZE / ENTRIES / ENTRIES
    ensures Px(1, va) == va / PGSIZE / ENTRIES % ENTRIES
    ensures Px(0, va) == va / PGSIZE % ENTRIES
  {}

  // ---------------------------------------------------------------- who owns a page

  /** What a physical page is used for: the root table of a space, its i-th level-1 table, its k-th
      level-0 table, the user page it maps at v; on the free list; or in the hands of the kernel. */
  datatype Owner = Free | Held | Root(root: int) | Mid(root: int, i: int) | Low(root: int, k: int) | User(root: int,
    v: int)

  ghost predicate PageOk(spaces: map<int, Space>, p: int, o: Owner) {
    match o
    case Free => true
    case Held => true
    case Root(r) => r in spaces && r == p
    case Mid(r, i) => r in spaces && i in spaces[r].mid && spaces[r].mid[i] == p
    case Low(r, k) => r in spaces && k in spaces[r].low && spaces[r].low[k] == p
    case User(r, v) => r in spaces && v in spaces[r].view && spaces[r].view[v].ppn == p
  }

  ghost predicate Owns(owner: map<int, Owner>, root: int, sp: Space) {
    && root in owner && owner[root] == Root(root)
    && (forall i {:trigger sp.mid[i]} | i in sp.mid :: sp.mid[i] in owner && owner[sp.mid[i]] == Mid(root, i))
    && (forall k {:trigger sp.low[k]} | k in sp.low :: sp.low[k] in owner && owner[sp.low[k]] == Low(root, k))
  }

  /** Every table of a space belongs to it, and nothing is said to be in use that is not. */
  ghost predicate Owned(owner: map<int, Owner>, spaces: map<int, Space>) {
    && (forall p {:trigger owner[p]} | p in owner :: PageOk(spaces, p, owner[p]))
    && (forall r {:trigger spaces[r]} | r in spaces :: Owns(owner, r, spaces[r]))
  }

  ghost predicate Trees(mem: map<int, Page>, spaces: map<int, Space>) {
    forall r {:trigger spaces[r]} | r in spaces :: Tree(mem, r, spaces[r])
  }

  ghost predicate Linked(mem: map<int, Page>, free: seq<int>, j: nat)
    requires j < |free| && free[j] in mem
  {
    mem[free[j]][0] == if j + 1 == |free| then Pointer(0) else Pointer(free[j + 1])
  }

  /** The free list of kalloc.c: linked through the first word of each free page. */
  ghost predicate FreeList(mem: map<int, Page>, owner: map<int, Owner>, freelist: int, free: seq<int>) {
    && freelist == (if free == [] then 0 else free[0])
    && (forall j {:trigger free[j]} | 0 <= j < |free| :: free[j] in owner && owner[free[j]] == Free && free[j] in mem)
    && (forall j {:trigger Linked(mem, free, j)} | 0 <= j < |free| :: Linked(mem, free, j))
    && (forall j, l | 0 <= j < l < |free| :: free[j] != free[l])
    && (forall p {:trigger owner[p]} | p in owner && owner[p] == Free :: p in free)
  }

  /** The pool of pages is partitioned between the free list, the tables and user pages of every
      space, and the pages the kernel holds. */
  ghost predicate System(mem: map<int, Page>, owner: map<int, Owner>, spaces: map<int, Space>, freelist: int,
                         free: seq<int>) {
    && mem.Keys == owner.Keys && 0 !in mem
    && Owned(owner, spaces) && Trees(mem, spaces) && FreeList(mem, owner, freelist, free)
  }

  // ---------------------------------------------------------------- what leaves the system alone

  predicate TableOf(o: Owner, root: int) {
    match o
    case Root(r) => r == root
    case Mid(r, _) => r == root
    case Low(r, _) => r == root
    case _ => false
  }

  lemma TreeFrame(mem: map<int, Page>, mem': map<int, Page>, owner: map<int, Owner>, root: int, sp: Space)
    requires mem.Keys == mem'.Keys == owner.Keys && Tree(mem, root, sp) && Owns(owner, root, sp)
    requires forall p {:trigger mem'[p]} | p in mem && TableOf(owner[p], root) :: mem'[p] == mem[p]
    ensures Tree(mem', root, sp)
  {
    forall i ensures RootOk(mem', root, sp, i) {
      assert RootOk(mem, root, sp, i);
      assert mem'[root] == mem[root];
    }
    forall k ensures MidOk(mem', sp, k) {
      MidFrame(mem, mem', owner, root, sp, k);
    }
    forall v ensures LowOk(mem', sp, v) {
      LowFrame(mem, mem', owner, root, sp, v);
    }
  }

  lemma MidFrame(mem: map<int, Page>, mem': map<int, Page>, owner: map<int, Owner>, root: int, sp: Space, k: int)
    requires mem.Keys == mem'.Keys == owner.Keys && Owns(owner, root, sp) && MidOk(mem, sp, k)
    requires forall p {:trigger mem'[p]} | p in mem && TableOf(owner[p], root) :: mem'[p] == mem[p]
    ensures MidOk(mem', sp, k)
  {
    if k / ENTRIES in sp.mid {
      var p := MidPage(sp, k);
      assert TableOf(owner[p], root) && mem'[p] == mem[p];
    }
  }

  lemma LowFrame(mem: map<int, Page>, mem': map<int, Page>, owner: map<int, Owner>, root: int, sp: Space, v: int)
    requires mem.Keys == mem'.Keys == owner.Keys && Owns(owner, root, sp) && LowOk(mem, sp, v)
    requires forall p {:trigger mem'[p]} | p in mem && TableOf(owner[p], root) :: mem'[p] == mem[p]
    ensures LowOk(mem', sp, v)
  {
    if v / ENTRIES in sp.low {
      var p := LowPage(sp, v);
      assert TableOf(owner[p], root) && mem'[p] == mem[p];
    }
  }

  /** Writing to pages that are no table, or a table of root, leaves all other trees alone. */
  lemma TreesFrame(mem: map<int, Page>, mem': map<int, Page>, owner: map<int, Owner>, spaces: map<int, Space>,
                   root: int)
    requires mem.Keys == mem'.Keys == owner.Keys && Trees(mem, spaces) && Owned(owner, spaces)
    requires forall p, r {:trigger TableOf(owner[p], r)} | p in mem && r != root && TableOf(owner[p], r) ::
      mem'[p] == mem[p]
    ensures forall r {:trigger spaces[r]} | r in spaces && r != root :: Tree(mem', r, spaces[r])
  {
    forall r | r in spaces && r != root ensures Tree(mem', r, spaces[r]) {
      TreeFrame(mem, mem', owner, r, spaces[r]);
    }
  }

  /** Writing to pages that are not free, whoever they go to, leaves the free list alone. */
  lemma FreeFrame(mem: map<int, Page>, owner: map<int, Owner>, mem': map<int, Page>, owner': map<int, Owner>,
                  freelist: int, free: seq<int>)
    requires mem.Keys == mem'.Keys == owner.Keys == owner'.Keys && FreeList(mem, owner, freelist, free)
    requires forall p {:trigger mem'[p]} {:trigger owner'[p]} | p in mem ::
      (owner[p] == Free <==> owner'[p] == Free) && (owner[p] == Free ==> mem'[p] == mem[p])
    ensures FreeList(mem', owner', freelist, free)
  {
    forall j {:trigger Linked(mem', free, j)} | 0 <= j < |free| ensures Linked(mem', free, j) {
      assert Linked(mem, free, j);
    }
  }

  // ---------------------------------------------------------------- the steps

  lemma HeldWritten(mem: map<int, Page>, owner: map<int, Owner>, spaces: map<int, Space>, freelist: int, free: seq<int>,
                    p: int, page: Page)
    requires System(mem, owner, spaces, freelist, free) && p in owner && (owner[p] == Held || owner[p].User?)
    ensures System(mem[p := page], owner, spaces, freelist, free)
  {
    TreesFrame(mem, mem[p := page], owner, spaces, 0);
    assert 0 !in spaces;
    FreeFrame(mem, owner, mem[p := page], owner, freelist, free);
  }

  lemma OwnerChanged(owner: map<int, Owner>, spaces: map<int, Space>, p: int, o: Owner)
    requires Owned(owner, spaces) && p in owner && PageOk(spaces, p, o)
    requires owner[p].Free? || owner[p].Held? || owner[p].User?
    ensures Owned(owner[p := o], spaces)
  {
    forall r | r in spaces ensures Owns(owner[p := o], r, spaces[r]) {
      assert Owns(owner, r, spaces[r]);
    }
  }

  /** A page passes between the kernel and a user. */
  lemma Handed(mem: map<int, Page>, owner: map<int, Owner>, spaces: map<int, Space>, freelist: int, free: seq<int>,
               p: int, o: Owner)
    requires System(mem, owner, spaces, freelist, free) && p in owner && (owner[p].Held? || owner[p].User?)
    requires (o.Held? || o.User?) && PageOk(spaces, p, o)
    ensures System(mem, owner[p := o], spaces, freelist, free)
  {
    OwnerChanged(owner, spaces, p, o);
    FreeFrame(mem, owner, mem, owner[p := o], freelist, free);
  }

  lemma Popped(mem: map<int, Page>, owner: map<int, Owner>, spaces: map<int, Space>, freelist: int, free: seq<int>,
               page: Page)
    requires System(mem, owner, spaces, freelist, free) && freelist != 0
    ensures |free| > 0 && free[0] == freelist && freelist in owner && owner[freelist] == Free
    ensures System(mem[freelist := page], owner[freelist := Held], spaces, mem[freelist][0].ppn / 4, free[1..])
  {
    var mem' := mem[freelist := page];
    PoppedList(mem, owner, freelist, free, page);
    OwnerChanged(owner, spaces, freelist, Held);
    TreesFrame(mem, mem', owner, spaces, 0);
    assert 0 !in spaces;
  }

  lemma PoppedList(mem: map<int, Page>, owner: map<int, Owner>, freelist: int, free: seq<int>, page: Page)
    requires FreeList(mem, owner, freelist, free) && freelist != 0
    ensures |free| > 0 && free[0] == freelist && freelist in owner && owner[freelist] == Free && freelist in mem
    ensures FreeList(mem[freelist := page], owner[freelist := Held], mem[freelist][0].ppn / 4, free[1..])
  {
    var mem', owner', free' := mem[freelist := page], owner[freelist := Held], free[1..];
    assert Linked(mem, free, 0);
    forall j {:trigger Linked(mem', free', j)} | 0 <= j < |free'| ensures free'[j] in mem' && Linked(mem', free', j) {
      assert Linked(mem, free, j + 1) && free[0] != free[j + 1];
    }
    forall p | p in owner' && owner'[p] == Free ensures p in free' {
      StillListed(free, p);
    }
  }

  lemma StillListed(free: seq<int>, p: int)
    requires p in free && p != free[0]
    ensures p in free[1..]
  {
    var j :| 0 <= j < |free| && free[j] == p;
    assert free[1..][j - 1] == p;
  }

  lemma Pushed(mem: map<int, Page>, owner: map<int, Owner>, spaces: map<int, Space>, freelist: int, free: seq<int>,
               p: int, page: Page)
    requires System(mem, owner, spaces, freelist, free) && p in owner && owner[p] == Held
    requires page[0] == Pointer(freelist)
    ensures System(mem[p := page], owner[p := Free], spaces, p, [p] + free)
  {
    var mem' := mem[p := page];
    PushedList(mem, owner, freelist, free, p, page);
    OwnerChanged(owner, spaces, p, Free);
    TreesFrame(mem, mem', owner, spaces, 0);
    assert 0 !in spaces;
  }

  lemma PushedList(mem: map<int, Page>, owner: map<int, Owner>, freelist: int, free: seq<int>, p: int, page: Page)
    requires FreeList(mem, owner, freelist, free) && p in owner && owner[p] == Held && p in mem
    requires page[0] == Pointer(freelist)
    ensures FreeList(mem[p := page], owner[p := Free], p, [p] + free)
  {
    var mem', owner', free' := mem[p := page], owner[p := Free], [p] + free;
    forall j {:trigger free'[j]} | 0 <= j < |free'|
      ensures free'[j] in owner' && owner'[free'[j]] == Free && free'[j] in mem' && Linked(mem', free', j)
    {
      assert j > 0 ==> free'[j] == free[j - 1] && Linked(mem, free, j - 1);
    }
    forall q | q in owner' && owner'[q] == Free ensures q in free' {
      if q != p {
        var j :| 0 <= j < |free| && free[j] == q;
        assert free'[j + 1] == q;
      } else {
        assert free'[0] == p;
      }
    }
  }

  // ---------------------------------------------------------------- growing and changing one tree

  function Set(mem: map<int, Page>, page: int, idx: int, w: Word): map<int, Page>
    requires page in mem && 0 <= idx < ENTRIES
  {
    mem[page := mem[page][idx := w]]
  }

  /** The new system when only the space at root, and the pages it has or takes, change. */
  lemma Changed(mem: map<int, Page>, owner: map<int, Owner>, spaces: map<int, Space>, freelist: int, free: seq<int>,
                root: int, mem': map<int, Page>, owner': map<int, Owner>, sp': Space)
    requires System(mem, owner, spaces, freelist, free) && root in spaces
    requires mem'.Keys == owner'.Keys == owner.Keys
    requires Tree(mem', root, sp') && Owns(owner', root, sp')
    requires forall p {:trigger owner'[p]} {:trigger mem'[p]} | p in owner ::
      if Outside(owner[p], root) then owner'[p] == owner[p] && mem'[p] == mem[p] else owner'[p] != Free
    requires forall p {:trigger owner'[p]} | p in owner && !Outside(owner[p], root) ::
      PageOk(map[root := sp'], p, owner'[p])
    ensures System(mem', owner', spaces[root := sp'], freelist, free)
  {
    var spaces' := spaces[root := sp'];
    FreeFrame(mem, owner, mem', owner', freelist, free);
    TreesFrame(mem, mem', owner, spaces, root);
    ChangedOwned(owner, spaces, root, owner', sp');
  }

  lemma ChangedOwned(owner: map<int, Owner>, spaces: map<int, Space>, root: int, owner': map<int, Owner>, sp': Space)
    requires Owned(owner, spaces) && root in spaces && owner'.Keys == owner.Keys && Owns(owner', root, sp')
    requires forall p {:trigger owner'[p]} | p in owner && Outside(owner[p], root) :: owner'[p] == owner[p]
    requires forall p {:trigger owner'[p]} | p in owner && !Outside(owner[p], root) ::
      PageOk(map[root := sp'], p, owner'[p])
    ensures Owned(owner', spaces[root := sp'])
  {
    var spaces' := spaces[root := sp'];
    forall p | p in owner' ensures PageOk(spaces', p, owner'[p]) {
      assert PageOk(spaces, p, owner[p]);
    }
    forall r | r in spaces' && r != root ensures Owns(owner', r, spaces'[r]) {
      OwnsKept(owner, spaces, root, owner', r);
    }
  }

  lemma OwnsKept(owner: map<int, Owner>, spaces: map<int, Space>, root: int, owner': map<int, Owner>, r: int)
    requires Owned(owner, spaces) && r in spaces && r != root && owner'.Keys == owner.Keys
    requires forall p {:trigger owner'[p]} | p in owner && Outside(owner[p], root) :: owner'[p] == owner[p]
    ensures Owns(owner', r, spaces[r])
  {
    var sp := spaces[r];
    assert Owns(owner, r, sp);
    forall i {:trigger sp.mid[i]} | i in sp.mid ensures sp.mid[i] in owner' && owner'[sp.mid[i]] == Mid(r, i) {
      var p := sp.mid[i];
      assert owner'[p] == owner[p];
    }
    forall k {:trigger sp.low[k]} | k in sp.low ensures sp.low[k] in owner' && owner'[sp.low[k]] == Low(r, k) {
      var p := sp.low[k];
      assert owner'[p] == owner[p];
    }
  }

  /** Pages that a change of the space at root does not touch. */
  predicate Outside(o: Owner, root: int) {
    !TableOf(o, root) && !o.Held? && !(o.User? && o.root == root)
  }

  /** walk() hangs a zeroed page into entry i of the root table. */
  lemma MidAdded(mem: map<int, Page>, owner: map<int, Owner>, spaces: map<int, Space>, freelist: int, free: seq<int>,
                 root: int, i: int, p: int)
    requires System(mem, owner, spaces, freelist, free) && root in spaces && p in owner && owner[p] == Held
    requires mem[p] == Filled(ZERO) && 0 <= i < ENTRIES && i !in spaces[root].mid
    ensures root in mem
    ensures System(Set(mem, root, i, Pte(p, NONE)), owner[p := Mid(root, i)],
      spaces[root := spaces[root].(mid := spaces[root].mid[i := p])], freelist, free)
  {
    var sp := spaces[root];
    var mem', owner', sp' := Set(mem, root, i, Pte(p, NONE)), owner[p := Mid(root, i)], sp.(mid := sp.mid[i := p]);
    forall j ensures RootOk(mem', root, sp', j) {
      assert RootOk(mem, root, sp, j);
    }
    forall k ensures MidOk(mem', sp', k) {
      MidAddedMid(mem, owner, root, sp, i, p, k);
    }
    forall v ensures LowOk(mem', sp', v) {
      LowKept(mem, owner, root, sp, mem', sp', v);
    }
    Changed(mem, owner, spaces, freelist, free, root, mem', owner', sp');
  }

  lemma MidAddedMid(mem: map<int, Page>, owner: map<int, Owner>, root: int, sp: Space, i: int, p: int, k: int)
    requires mem.Keys == owner.Keys && Tree(mem, root, sp) && Owns(owner, root, sp) && p in owner && owner[p] == Held
    requires mem[p] == Filled(ZERO) && 0 <= i < ENTRIES && i !in sp.mid
    ensures MidOk(Set(mem, root, i, Pte(p, NONE)), sp.(mid := sp.mid[i := p]), k)
  {
    assert MidOk(mem, sp, k);
    if k / ENTRIES in sp.mid && k / ENTRIES != i {
      var q := MidPage(sp, k);
      assert owner[q] == Mid(root, k / ENTRIES);
    } else if k / ENTRIES == i {
      assert k !in sp.low;
    }
  }

  /** The leaf entry of page v is what it was, when its table is still there and unchanged. */
  lemma LowKept(mem: map<int, Page>, owner: map<int, Owner>, root: int, sp: Space, mem': map<int, Page>, sp': Space,
                v: int)
    requires mem.Keys == mem'.Keys == owner.Keys && LowOk(mem, sp, v) && Owns(owner, root, sp)
    requires v / ENTRIES in sp'.low <==> v / ENTRIES in sp.low
    requires v / ENTRIES in sp.low ==> LowPage(sp', v) == LowPage(sp, v)
    requires (v in sp'.view <==> v in sp.view) && (v in sp.view ==> sp'.view[v] == sp.view[v])
    requires forall q {:trigger mem'[q]} | q in mem && owner[q].Low? :: mem'[q] == mem[q]
    ensures LowOk(mem', sp', v)
  {
    if v / ENTRIES in sp.low {
      var q := LowPage(sp, v);
      assert owner[q] == Low(root, v / ENTRIES) && mem'[q] == mem[q];
    }
  }

  /** walk() hangs a zeroed page into the entry of region k in its level-1 table. */
  lemma LowAdded(mem: map<int, Page>, owner: map<int, Owner>, spaces: map<int, Space>, freelist: int, free: seq<int>,
                 root: int, k: int, p: int)
    requires System(mem, owner, spaces, freelist, free) && root in spaces && p in owner && owner[p] == Held
    requires mem[p] == Filled(ZERO) && k / ENTRIES in spaces[root].mid && k !in spaces[root].low
    ensures MidPage(spaces[root], k) in mem
    ensures System(Set(mem, MidPage(spaces[root], k), k % ENTRIES, Pte(p, NONE)), owner[p := Low(root, k)],
      spaces[root := spaces[root].(low := spaces[root].low[k := p])], freelist, free)
  {
    var sp := spaces[root];
    var table := MidPage(sp, k);
    assert owner[table] == Mid(root, k / ENTRIES);
    var mem', owner', sp' := Set(mem, table, k % ENTRIES, Pte(p, NONE)), owner[p := Low(root, k)],
      sp.(low := sp.low[k := p]);
    forall j ensures RootOk(mem', root, sp', j) {
      assert RootOk(mem, root, sp, j);
    }
    forall l ensures MidOk(mem', sp', l) {
      LowAddedMid(mem, owner, root, sp, k, p, l);
    }
    forall v ensures LowOk(mem', sp', v) {
      if v / ENTRIES == k {
        assert v !in sp.view;
      } else {
        LowKept(mem, owner, root, sp, mem', sp', v);
      }
    }
    Changed(mem, owner, spaces, freelist, free, root, mem', owner', sp');
  }

  lemma LowAddedMid(mem: map<int, Page>, owner: map<int, Owner>, root: int, sp: Space, k: int, p: int, l: int)
    requires mem.Keys == owner.Keys && Tree(mem, root, sp) && Owns(owner, root, sp) && p in owner && owner[p] == Held
    requires k / ENTRIES in sp.mid && k !in sp.low
    ensures MidPage(sp, k) in mem
    ensures MidOk(Set(mem, MidPage(sp, k), k % ENTRIES, Pte(p, NONE)), sp.(low := sp.low[k := p]), l)
  {
    assert MidOk(mem, sp, l);
    var table := MidPage(sp, k);
    assert owner[table] == Mid(root, k / ENTRIES);
    if l / ENTRIES in sp.mid {
      var q := MidPage(sp, l);
      assert owner[q] == Mid(root, l / ENTRIES);
    }
  }

  /** A leaf entry is written: the map gains, changes or loses page v. */
  lemma LeafSet(mem: map<int, Page>, owner: map<int, Owner>, spaces: map<int, Space>, freelist: int, free: seq<int>,
                root: int, v: int, w: Word, view: map<int, Word>)
    requires System(mem, owner, spaces, freelist, free) && root in spaces && v / ENTRIES in spaces[root].low
    requires view == if w.flags.v then spaces[root].view[v := w] else spaces[root].view - {v}
    requires forall p {:trigger owner[p]} | p in owner && owner[p] == User(root, v) :: v in view && w.ppn == p
    ensures LowPage(spaces[root], v) in mem
    ensures System(Set(mem, LowPage(spaces[root], v), v % ENTRIES, w), owner,
      spaces[root := spaces[root].(view := view)], freelist, free)
  {
    var sp := spaces[root];
    var table := LowPage(sp, v);
    assert owner[table] == Low(root, v / ENTRIES);
    var mem', sp' := Set(mem, table, v % ENTRIES, w), sp.(view := view);
    forall j ensures RootOk(mem', root, sp', j) {
      assert RootOk(mem, root, sp, j);
    }
    forall l ensures MidOk(mem', sp', l) {
      assert MidOk(mem, sp, l);
      if l / ENTRIES in sp.mid {
        var q := MidPage(sp, l);
        assert owner[q] == Mid(root, l / ENTRIES);
      }
    }
    forall u ensures LowOk(mem', sp', u) {
      assert LowOk(mem, sp, u);
      if u / ENTRIES in sp.low {
        var q := LowPage(sp, u);
        assert owner[q] == Low(root, u / ENTRIES);
      }
    }
    forall p {:trigger owner[p]} | p in owner && !Outside(owner[p], root)
      ensures PageOk(map[root := sp'], p, owner[p])
    {
      assert PageOk(spaces, p, owner[p]);
    }
    Changed(mem, owner, spaces, freelist, free, root, mem', owner, sp');
  }

  // ---------------------------------------------------------------- taking a tree down

  /** The page owned as o is the table at this level with key k, or a table below it. */
  predicate Below(o: Owner, root: int, level: int, k: int) {
    match o
    case Root(r) => r == root && level == 2
    case Mid(r, i) => r == root && (level == 2 || (level == 1 && i == k))
    case Low(r, j) => r == root && (level == 2 || (level == 1 && j / ENTRIES == k) || (level == 0 && j == k))
    case _ => false
  }

  /** ... and below an entry with a key less than c. */
  predicate Before(o: Owner, level: int, c: int) {
    match o
    case Mid(_, i) => level == 2 && i < c
    case Low(_, j) => (level == 2 && j / ENTRIES < c) || (level == 1 && j < c)
    case _ => false
  }

  /** Virtual page v is mapped below the table at this level with key k. */
  predicate Under(level: int, k: int, v: int) {
    if level == 2 then true else if level == 1 then v / ENTRIES / ENTRIES == k else v / ENTRIES == k
  }

  /** The key that v has in the tables of a level. */
  function KeyOf(level: int, v: int): int {
    if level == 2 then v / ENTRIES / ENTRIES else if level == 1 then v / ENTRIES else v
  }

  ghost predicate WordsOk(mem: map<int, Page>, sp: Space, root: int, level: int, k: int) {
    && (forall i :: level == 2 ==> RootOk(mem, root, sp, i))
    && (forall j :: level == 2 || (level == 1 && j / ENTRIES == k) ==> MidOk(mem, sp, j))
    && (forall v :: Under(level, k, v) ==> LowOk(mem, sp, v))
  }

  /** The table at this level with key k. */
  ghost predicate TableAt(sp: Space, root: int, level: int, k: int, page: int) {
    if level == 2 then k == 0 && page == root
    else if level == 1 then k in sp.mid && page == sp.mid[k]
    else level == 0 && k in sp.low && page == sp.low[k]
  }

  lemma WordsFrame(mem: map<int, Page>, mem': map<int, Page>, was: map<int, Owner>, sp: Space, root: int, level: int,
                   k: int, level': int, k': int)
    requires mem.Keys == mem'.Keys == was.Keys && Owns(was, root, sp) && WordsOk(mem, sp, root, level, k)
    requires 0 <= level' < level <= 2 && k' / ENTRIES == k
    requires forall p {:trigger mem'[p]} | p in mem && Below(was[p], root, level', k') :: mem'[p] == mem[p]
    ensures WordsOk(mem', sp, root, level', k')
  {
    forall j | level' == 1 && j / ENTRIES == k' ensures MidOk(mem', sp, j) {
      assert MidOk(mem, sp, j);
      if j / ENTRIES in sp.mid {
        var p := MidPage(sp, j);
        assert was[p] == Mid(root, j / ENTRIES) && mem'[p] == mem[p];
      }
    }
    forall v | Under(level', k', v) ensures LowOk(mem', sp, v) {
      assert LowOk(mem, sp, v);
      if v / ENTRIES in sp.low {
        var p := LowPage(sp, v);
        assert was[p] == Low(root, v / ENTRIES) && mem'[p] == mem[p];
      }
    }
  }

  /** What freewalk() reads in entry i of a table. */
  lemma EntryRead(mem: map<int, Page>, was: map<int, Owner>, sp: Space, root: int, level: int, k: int, page: int,
                  i: int)
    requires mem.Keys == was.Keys && Owns(was, root, sp) && Nested(sp) && WordsOk(mem, sp, root, level, k)
    requires 0 <= level <= 2 && TableAt(sp, root, level, k, page) && 0 <= i < ENTRIES
    ensures page in mem && Below(was[page], root, level, k)
    ensures var w := mem[page][i]; var c := k * ENTRIES + i;
            && (level == 2 && w.flags.v ==> c in sp.mid && w == Pte(sp.mid[c], NONE))
            && (level == 2 && !w.flags.v ==> c !in sp.mid)
            && (level == 1 && w.flags.v ==> c in sp.low && w == Pte(sp.low[c], NONE))
            && (level == 1 && !w.flags.v ==> c !in sp.low)
            && (level == 0 ==> (w.flags.v <==> c in sp.view) && (w.flags.v ==> w == sp.view[c]))
  {
    var c := k * ENTRIES + i;
    assert c / ENTRIES == k && c % ENTRIES == i;
    assert RootOk(mem, root, sp, i) || level != 2;
    assert MidOk(mem, sp, c) || level != 1;
    assert LowOk(mem, sp, c) || level != 0;
  }

  predicate OfSpace(o: Owner, root: int) { TableOf(o, root) || (o.User? && o.root == root) }

  /** All pages of a space pass to the kernel, and the space is no more. */
  lemma Dropped(mem: map<int, Page>, owner: map<int, Owner>, spaces: map<int, Space>, freelist: int, free: seq<int>,
                root: int, owner': map<int, Owner>)
    requires System(mem, owner, spaces, freelist, free) && root in spaces && owner'.Keys == owner.Keys
    requires forall p {:trigger owner'[p]} | p in owner ::
      owner'[p] == if OfSpace(owner[p], root) then Held else owner[p]
    ensures System(mem, owner', spaces - {root}, freelist, free)
  {
    FreeFrame(mem, owner, mem, owner', freelist, free);
    forall p | p in owner' ensures PageOk(spaces - {root}, p, owner'[p]) {
      assert PageOk(spaces, p, owner[p]);
    }
    forall r | r in spaces - {root} ensures Owns(owner', r, (spaces - {root})[r]) {
      OwnsDropped(owner, spaces[r], root, owner', r);
    }
  }

  lemma OwnsDropped(owner: map<int, Owner>, sp: Space, root: int, owner': map<int, Owner>, r: int)
    requires Owns(owner, r, sp) && r != root && owner'.Keys == owner.Keys
    requires forall p {:trigger owner'[p]} | p in owner ::
      owner'[p] == if OfSpace(owner[p], root) then Held else owner[p]
    ensures Owns(owner', r, sp)
  {
    forall i {:trigger sp.mid[i]} | i in sp.mid ensures sp.mid[i] in owner' && owner'[sp.mid[i]] == Mid(r, i) {
      var p := sp.mid[i];
      assert owner'[p] == owner[p];
    }
    forall k {:trigger sp.low[k]} | k in sp.low ensures sp.low[k] in owner' && owner'[sp.low[k]] == Low(r, k) {
      var p := sp.low[k];
      assert owner'[p] == owner[p];
    }
  }

  const EMPTY := Space(map[], map[], map[])

  /** A zeroed page is an empty page table. */
  lemma Created(mem: map<int, Page>, owner: map<int, Owner>, spaces: map<int, Space>, freelist: int, free: seq<int>,
                p: int)
    requires System(mem, owner, spaces, freelist, free) && p in owner && owner[p] == Held && mem[p] == Filled(ZERO)
    ensures p !in spaces && System(mem, owner[p := Root(p)], spaces[p := EMPTY], freelist, free)
  {
    var owner', spaces' := owner[p := Root(p)], spaces[p := EMPTY];
    assert p !in spaces by {
      assert p in spaces ==> Owns(owner, p, spaces[p]);
    }
    FreeFrame(mem, owner, mem, owner', freelist, free);
    forall q | q in owner' ensures PageOk(spaces', q, owner'[q]) {
      assert PageOk(spaces, q, owner[q]);
    }
    forall r | r in spaces' ensures Owns(owner', r, spaces'[r]) && Tree(mem, r, spaces'[r]) {
      if r != p {
        assert Owns(owner, r, spaces[r]) && Tree(mem, r, spaces[r]);
      }
    }
  }
}
