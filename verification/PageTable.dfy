/** kalloc.c's page allocator and vm.c's two-level page tables, as words in physical memory: which
    allocatable page belongs to whom, and what the tables map. */
module PageTable {
  import opened Common

  const PGSIZE := 4096
  const ENTRIES := 1024                // NPDENTRIES, NPTENTRIES, words per page
  const PHYSTOP := 0xE00_0000
  const NFRAMES := 57344               // PHYSTOP / PGSIZE
  const UPAGES := 0x8_0000             // KERNBASE / PGSIZE
  const NPAGES := 0x10_0000            // pages of the virtual address space

  type Word = x: int | 0 <= x < LIMIT32
  type Page = p: seq<Word> | |p| == ENTRIES witness seq(ENTRIES, _ => 0)

  const JUNK: Word := 0x0101_0101       // a word of a page filled with ones

  function ZeroPage(): (p: Page)
    ensures forall i | 0 <= i < ENTRIES :: p[i] == 0
  {
    seq(ENTRIES, _ => 0)
  }

  // ---------------------------------------------------------------- entries

  const PTE_P := 1
  const PTE_W := 2
  const PTE_U := 4

  predicate Present(e: Word) { e % 2 == 1 }

  /** PTE_ADDR / PGSIZE and PTE_FLAGS. */
  function FrameOf(e: Word): (f: nat) { e / PGSIZE }
  function FlagsOf(e: Word): (fl: nat) { e % PGSIZE }

  /** pa | perm | PTE_P for the page-aligned pa of frame f. */
  function Entry(f: nat, perm: nat): (e: Word)
    requires f < NPAGES && perm < PGSIZE
    ensures Present(e) && FrameOf(e) == f && FlagsOf(e) == perm / 2 * 2 + 1
  {
    f * PGSIZE + (perm / 2 * 2 + 1)
  }

  /** A page as a free-list node points to the next one: its kernel virtual address, or null. */
  function Link(f: nat): (w: Word)
    requires f < NFRAMES
    ensures f > 0 ==> w == KERNBASE + f * PGSIZE
    ensures w == 0 <==> f == 0
  {
    if f == 0 then 0 else KERNBASE + f * PGSIZE
  }

  /** A page as kfree leaves it. */
  function FreedPage(next: nat): (p: Page)
    requires next < NFRAMES
    ensures p[0] == Link(next) && forall i | 1 <= i < ENTRIES :: p[i] == JUNK
  {
    seq(ENTRIES, i => if i == 0 then Link(next) else JUNK)
  }

  // ---------------------------------------------------------------- who owns a page

  /** Free list; in the kernel's hands; a page directory; the table under entry pdx of a directory;
      the page a directory maps at a user page number. */
  datatype Owner = Free | Kernel | Dir | Table(dir: nat, pdx: nat) | User(dir: nat, page: nat)

  /** Physical memory, the free list from its head, and the owner of each allocatable page. */
  datatype Phys = Phys(first: nat, mem: seq<Page>, free: seq<nat>, owner: map<nat, Owner>)

  ghost predicate IsDir(m: Phys, d: nat) { d in m.owner && m.owner[d].Dir? }

  /** The page-table entry for virtual page pg, 0 if its table does not exist. */
  function Pte(mem: seq<Page>, d: nat, pg: nat): (e: Word)
    requires d < |mem| && pg < NPAGES
  {
    var pde := mem[d][pg / ENTRIES];
    if Present(pde) && FrameOf(pde) < |mem| then mem[FrameOf(pde)][pg % ENTRIES] else 0
  }

  datatype Mapping = Mapping(frame: nat, flags: nat)

  /** The two-level table as a partial map from virtual pages to frames and flags. */
  function Lookup(mem: seq<Page>, d: nat, pg: nat): (r: Option<Mapping>)
    requires d < |mem| && pg < NPAGES
  {
    var e := Pte(mem, d, pg);
    if Present(e) then Some(Mapping(FrameOf(e), FlagsOf(e))) else None
  }

  ghost predicate Shape(m: Phys) {
    && |m.mem| == NFRAMES && 0 < m.first <= NFRAMES
    && (forall f :: f in m.owner <==> m.first <= f < NFRAMES)
  }

  /** Node i of the free list points to node i+1. */
  ghost predicate LinkAt(mem: seq<Page>, free: seq<nat>, i: nat)
    requires i < |free|
  {
    && free[i] < |mem|
    && var next := if i + 1 < |free| then free[i + 1] else 0;
    next < NFRAMES && mem[free[i]][0] == Link(next)
  }

  ghost predicate FreeOk(m: Phys) {
    && (forall i {:trigger LinkAt(m.mem, m.free, i)} | 0 <= i < |m.free| :: LinkAt(m.mem, m.free, i))
    && (forall i, j | 0 <= i < j < |m.free| :: m.free[i] != m.free[j])
    && (forall f | f in m.free :: f in m.owner && m.owner[f].Free?)
    && (forall f | f in m.owner && m.owner[f].Free? :: f in m.free)
  }

  ghost predicate TableAt(m: Phys, d: nat, x: nat)
    requires d < |m.mem| && x < ENTRIES
  {
    Present(m.mem[d][x]) ==> FrameOf(m.mem[d][x]) in m.owner && m.owner[FrameOf(m.mem[d][x])] == Table(d, x)
  }

  ghost predicate DirOk(m: Phys, d: nat)
    requires d < |m.mem|
  {
    forall x {:trigger TableAt(m, d, x)} | 0 <= x < ENTRIES :: TableAt(m, d, x)
  }

  /** A page is where its owner says it is. */
  ghost predicate FrameOk(m: Phys, f: nat)
    requires Shape(m) && f in m.owner
  {
    match m.owner[f]
    case Free => true
    case Kernel => true
    case Dir => DirOk(m, f)
    case Table(d, x) => IsDir(m, d) && x < ENTRIES && Present(m.mem[d][x]) && FrameOf(m.mem[d][x]) == f
    case User(d, pg) => pg < UPAGES && IsDir(m, d) && Present(Pte(m.mem, d, pg)) && FrameOf(Pte(m.mem, d, pg)) == f
  }

  /** A user page a directory maps belongs to that directory at that place. */
  ghost predicate MapOk(m: Phys, d: nat, pg: nat)
    requires Shape(m) && d in m.owner && pg < UPAGES
  {
    var e := Pte(m.mem, d, pg);
    Present(e) ==> FrameOf(e) in m.owner && m.owner[FrameOf(e)] == User(d, pg)
  }

  /** Every allocatable page is in exactly one place: the free list, the kernel's hands, a directory, one
      table, or one user mapping; and every place holds a page of its own. */
  ghost predicate Inv(m: Phys) {
    && Shape(m)
    && FreeOk(m)
    && (forall f {:trigger FrameOk(m, f)} | f in m.owner :: FrameOk(m, f))
    && (forall d, pg {:trigger MapOk(m, d, pg)} | IsDir(m, d) && 0 <= pg < UPAGES :: MapOk(m, d, pg))
  }

  /** No page is in two places: a page some directory maps for the user is not free, not a directory, not
      a table, and mapped by no other directory or at any other place. */
  lemma OnePlaceOnly(m: Phys, d: nat, pg: nat, d': nat, pg': nat, x: nat)
    requires Inv(m) && IsDir(m, d) && pg < UPAGES && Lookup(m.mem, d, pg).Some?
    ensures var f := Lookup(m.mem, d, pg).value.frame;
            && m.first <= f < NFRAMES && f !in m.free && !IsDir(m, f)
            && (IsDir(m, d') && x < ENTRIES && Present(m.mem[d'][x]) ==> FrameOf(m.mem[d'][x]) != f)
            && (IsDir(m, d') && pg' < UPAGES && Lookup(m.mem, d', pg') == Lookup(m.mem, d, pg) ==> d' == d && pg' == pg)
  {
    assert MapOk(m, d, pg);
    if IsDir(m, d') && pg' < UPAGES { assert MapOk(m, d', pg'); }
    if IsDir(m, d') && x < ENTRIES && Present(m.mem[d'][x]) { TableOwned(m, d', x); }
  }

  // ---------------------------------------------------------------- framing

  /** The directory and its tables have the same contents. */
  ghost predicate SameTables(m: Phys, mem': seq<Page>, d: nat)
    requires Shape(m) && IsDir(m, d)
  {
    && |mem'| == |m.mem| && mem'[d] == m.mem[d]
    && (forall t | t in m.owner && m.owner[t].Table? && m.owner[t].dir == d :: mem'[t] == m.mem[t])
  }

  lemma PteFrame(m: Phys, mem': seq<Page>, d: nat, pg: nat)
    requires Shape(m) && IsDir(m, d) && FrameOk(m, d) && SameTables(m, mem', d) && pg < NPAGES
    ensures Pte(mem', d, pg) == Pte(m.mem, d, pg)
  {
    assert TableAt(m, d, pg / ENTRIES);
  }

  /** The table under an entry of a directory. */
  lemma TableOwned(m: Phys, d: nat, x: nat)
    requires Inv(m) && IsDir(m, d) && x < ENTRIES && Present(m.mem[d][x])
    ensures FrameOf(m.mem[d][x]) in m.owner && m.owner[FrameOf(m.mem[d][x])] == Table(d, x)
    ensures FrameOf(m.mem[d][x]) < NFRAMES
  {
    assert FrameOk(m, d);
    assert TableAt(m, d, x);
  }

  // ---------------------------------------------------------------- steps

  /** kalloc: the head of the free list passes to the kernel. */
  function Take(m: Phys): (r: Phys)
    requires m.free != []
  {
    m.(free := m.free[1..], owner := m.owner[m.free[0] := Kernel])
  }

  lemma TakeKeeps(m: Phys)
    requires Inv(m) && m.free != []
    ensures Inv(Take(m)) && m.free[0] in m.owner && m.owner[m.free[0]].Free?
  {
    var r := Take(m);
    var h := m.free[0];
    assert h in m.free;
    assert FreeOk(r) by {
      forall i | 0 <= i < |r.free| ensures LinkAt(r.mem, r.free, i) { assert LinkAt(m.mem, m.free, i + 1); }
      forall f | f in r.free ensures f in r.owner && r.owner[f].Free? && f != h { assert f in m.free; }
      forall f | f in r.owner && r.owner[f].Free? ensures f in r.free { assert f in m.free; }
    }
    forall f | f in r.owner ensures FrameOk(r, f) {
      assert FrameOk(m, f);
      if r.owner[f].Dir? { forall x | 0 <= x < ENTRIES ensures TableAt(r, f, x) { assert TableAt(m, f, x); } }
    }
    forall d, pg | IsDir(r, d) && 0 <= pg < UPAGES ensures MapOk(r, d, pg) { assert MapOk(m, d, pg); }
  }

  /** A page in the kernel's hands is overwritten. */
  function Fill(m: Phys, g: nat, p: Page): (r: Phys)
    requires g < |m.mem|
  {
    m.(mem := m.mem[g := p])
  }

  /** Overwriting a page that is neither a table nor a directory nor free moves no mapping. */
  lemma FillKeeps(m: Phys, g: nat, p: Page)
    requires Inv(m) && g in m.owner && (m.owner[g].Kernel? || m.owner[g].User?)
    ensures Inv(Fill(m, g, p))
    ensures forall d, pg | IsDir(m, d) && 0 <= pg < NPAGES :: Pte(Fill(m, g, p).mem, d, pg) == Pte(m.mem, d, pg)
  {
    var r := Fill(m, g, p);
    forall d, pg | IsDir(m, d) && 0 <= pg < NPAGES ensures Pte(r.mem, d, pg) == Pte(m.mem, d, pg) {
      assert FrameOk(m, d);
      PteFrame(m, r.mem, d, pg);
    }
    hide Pte;
    assert FreeOk(r) by {
      forall i | 0 <= i < |r.free| ensures LinkAt(r.mem, r.free, i) {
        assert LinkAt(m.mem, m.free, i);
        assert m.free[i] in m.free;
      }
    }
    forall f | f in r.owner ensures FrameOk(r, f) {
      assert FrameOk(m, f);
      if r.owner[f].Dir? { forall x | 0 <= x < ENTRIES ensures TableAt(r, f, x) { assert TableAt(m, f, x); } }
    }
    forall d, pg | IsDir(r, d) && 0 <= pg < UPAGES ensures MapOk(r, d, pg) { assert MapOk(m, d, pg); }
  }

  /** kfree: junk, then the link to the old head; the page becomes the head. */
  function Give(m: Phys, g: nat): (r: Phys)
    requires g < |m.mem| && (m.free != [] ==> m.free[0] < NFRAMES)
  {
    m.(mem := m.mem[g := FreedPage(if m.free == [] then 0 else m.free[0])], free := [g] + m.free,
    owner := m.owner[g := Free])
  }

  lemma GiveKeeps(m: Phys, g: nat)
    requires Inv(m) && g in m.owner && m.owner[g].Kernel?
    ensures m.free != [] ==> m.free[0] in m.owner
    ensures Inv(Give(m, g))
    ensures forall d, pg | IsDir(m, d) && 0 <= pg < NPAGES :: Pte(Give(m, g).mem, d, pg) == Pte(m.mem, d, pg)
  {
    if m.free != [] { assert m.free[0] in m.free; }
    var r := Give(m, g);
    var filled := Fill(m, g, r.mem[g]);
    FillKeeps(m, g, r.mem[g]);
    hide Pte, Link;
    assert FreeOk(r) by {
      forall i | 0 <= i < |r.free| ensures LinkAt(r.mem, r.free, i) {
        if i > 0 { assert LinkAt(filled.mem, filled.free, i - 1); }
      }
      forall f | f in r.free ensures f in r.owner && r.owner[f].Free? { if f != g { assert f in m.free; } }
      forall f | f in r.owner && r.owner[f].Free? ensures f in r.free { if f != g { assert f in m.free; } }
      forall i, j | 0 <= i < j < |r.free| ensures r.free[i] != r.free[j] {
        if i == 0 { assert m.free[j - 1] in m.free; }
      }
    }
    forall f | f in r.owner ensures FrameOk(r, f) {
      assert FrameOk(filled, f);
      if r.owner[f].Dir? { forall x | 0 <= x < ENTRIES ensures TableAt(r, f, x) { assert TableAt(filled, f, x); } }
    }
    forall d, pg | IsDir(r, d) && 0 <= pg < UPAGES ensures MapOk(r, d, pg) { assert MapOk(filled, d, pg); }
  }

  /** setupkvm: a zeroed page becomes a directory that maps nothing. */
  function NewDir(m: Phys, g: nat): (r: Phys) {
    m.(owner := m.owner[g := Dir])
  }

  lemma NewDirKeeps(m: Phys, g: nat)
    requires Inv(m) && g in m.owner && m.owner[g].Kernel? && m.mem[g] == ZeroPage()
    ensures Inv(NewDir(m, g))
    ensures forall pg | 0 <= pg < NPAGES :: Pte(m.mem, g, pg) == 0
  {
    var r := NewDir(m, g);
    assert FreeOk(r);
    forall f | f in r.owner ensures FrameOk(r, f) {
      assert FrameOk(m, f);
      if r.owner[f].Dir? { forall x | 0 <= x < ENTRIES
                             ensures TableAt(r, f, x) { if f != g { assert TableAt(m, f, x); } } }
    }
    forall d, pg | IsDir(r, d) && 0 <= pg < UPAGES ensures MapOk(r, d, pg) {
      if d != g { assert MapOk(m, d, pg); }
    }
  }

  /** walkpgdir: a zeroed page becomes the table under entry x. */
  function LinkTable(m: Phys, d: nat, x: nat, t: nat): (r: Phys)
    requires d < |m.mem| && x < ENTRIES && t < NFRAMES
  {
    m.(mem := m.mem[d := m.mem[d][x := Entry(t, PTE_P + PTE_W + PTE_U)]], owner := m.owner[t := Table(d, x)])
  }

  /** A new table of zeros maps what a missing table maps: nothing. */
  lemma LinkTablePte(m: Phys, d: nat, x: nat, t: nat, d': nat, pg: nat)
    requires Inv(m) && IsDir(m, d) && x < ENTRIES && !Present(m.mem[d][x])
    requires t in m.owner && m.owner[t].Kernel? && m.mem[t] == ZeroPage()
    requires IsDir(m, d') && pg < NPAGES
    ensures Pte(LinkTable(m, d, x, t).mem, d', pg) == Pte(m.mem, d', pg)
  {
    var r := LinkTable(m, d, x, t);
    assert FrameOk(m, d');
    if d' == d && pg / ENTRIES == x {
      assert r.mem[t] == ZeroPage();
    } else {
      assert TableAt(m, d', pg / ENTRIES);
      if d' == d { assert r.mem[d][pg / ENTRIES] == m.mem[d][pg / ENTRIES]; }
    }
  }

  lemma LinkTableKeeps(m: Phys, d: nat, x: nat, t: nat)
    requires Inv(m) && IsDir(m, d) && x < ENTRIES && !Present(m.mem[d][x])
    requires t in m.owner && m.owner[t].Kernel? && m.mem[t] == ZeroPage()
    ensures Inv(LinkTable(m, d, x, t))
    ensures forall d', pg | IsDir(m, d') && 0 <= pg < NPAGES ::
              Pte(LinkTable(m, d, x, t).mem, d', pg) == Pte(m.mem, d', pg)
  {
    var r := LinkTable(m, d, x, t);
    forall d', pg | IsDir(m, d') && 0 <= pg < NPAGES ensures Pte(r.mem, d', pg) == Pte(m.mem, d', pg) {
      LinkTablePte(m, d, x, t, d', pg);
    }
    hide Pte;
    assert FreeOk(r) by {
      forall i | 0 <= i < |r.free| ensures LinkAt(r.mem, r.free, i) {
        assert LinkAt(m.mem, m.free, i);
        assert m.free[i] in m.free;
      }
    }
    forall f | f in r.owner ensures FrameOk(r, f) {
      assert FrameOk(m, f);
      if r.owner[f].Dir? { forall y | 0 <= y < ENTRIES ensures TableAt(r, f, y) { assert TableAt(m, f, y); } }
    }
    forall d', pg | IsDir(r, d') && 0 <= pg < UPAGES ensures MapOk(r, d', pg) { assert MapOk(m, d', pg); }
  }

  /** Memory after the entry of page pg under directory d is stored. */
  function PutPte(mem: seq<Page>, d: nat, pg: nat, e: Word): (r: seq<Page>)
    requires d < |mem| && pg < NPAGES && FrameOf(mem[d][pg / ENTRIES]) < |mem|
    ensures |r| == |mem|
  {
    var t := FrameOf(mem[d][pg / ENTRIES]);
    mem[t := mem[t][pg % ENTRIES := e]]
  }

  /** A store through walkpgdir's pointer changes one entry of one directory. */
  lemma PutPteExact(m: Phys, d: nat, pg: nat, e: Word, d': nat, pg': nat)
    requires Inv(m) && IsDir(m, d) && pg < NPAGES && Present(m.mem[d][pg / ENTRIES])
             && FrameOf(m.mem[d][pg / ENTRIES]) < NFRAMES
    requires IsDir(m, d') && pg' < NPAGES
    ensures Pte(PutPte(m.mem, d, pg, e), d', pg') == if d' == d && pg' == pg then e else Pte(m.mem, d', pg')
  {
    TableOwned(m, d, pg / ENTRIES);
    assert FrameOk(m, d');
    assert TableAt(m, d', pg' / ENTRIES);
    var t := FrameOf(m.mem[d][pg / ENTRIES]);
    var r := PutPte(m.mem, d, pg, e);
    assert r[d'] == m.mem[d'];
    if d' == d && pg' / ENTRIES == pg / ENTRIES {
      assert r[t] == m.mem[t][pg % ENTRIES := e];
    }
  }

  /** mappages: entry pg of directory d is stored; a user page passes from the kernel to the mapping. */
  function Map(m: Phys, d: nat, pg: nat, f: nat, perm: nat): (r: Phys)
    requires d < |m.mem| && pg < NPAGES && FrameOf(m.mem[d][pg / ENTRIES]) < |m.mem| && f < NPAGES && perm < PGSIZE
  {
    m.(mem := PutPte(m.mem, d, pg, Entry(f, perm)), owner := if pg < UPAGES then m.owner[f := User(d, pg)] else m.owner)
  }

  /** The parts of the invariant a store into one table keeps. */
  lemma PutPteKeeps(m: Phys, r: Phys, d: nat, pg: nat, e: Word)
    requires Inv(m) && IsDir(m, d) && pg < NPAGES && Present(m.mem[d][pg / ENTRIES])
             && FrameOf(m.mem[d][pg / ENTRIES]) < NFRAMES
    requires r.mem == PutPte(m.mem, d, pg, e) && r.free == m.free && r.first == m.first && r.owner.Keys == m.owner.Keys
    requires forall f | f in m.owner && r.owner[f] != m.owner[f] ::
               (m.owner[f].Kernel? || m.owner[f].User?) && (r.owner[f].Kernel? || r.owner[f].User?)
    ensures Shape(r) && FreeOk(r)
    ensures forall f | f in r.owner && !r.owner[f].User? :: FrameOk(r, f)
    ensures forall d', pg' | IsDir(m, d') && 0 <= pg' < NPAGES ::
              Pte(r.mem, d', pg') == if d' == d && pg' == pg then e else Pte(m.mem, d', pg')
  {
    forall d', pg' | IsDir(m, d') && 0 <= pg' < NPAGES
      ensures Pte(r.mem, d', pg') == if d' == d && pg' == pg then e else Pte(m.mem, d', pg')
    {
      PutPteExact(m, d, pg, e, d', pg');
    }
    TableOwned(m, d, pg / ENTRIES);
    hide Pte;
    assert Shape(r) by { assert forall f :: f in r.owner <==> f in m.owner; }
    assert FreeOk(r) by {
      forall i | 0 <= i < |r.free| ensures LinkAt(r.mem, r.free, i) {
        assert LinkAt(m.mem, m.free, i);
        assert m.free[i] in m.free;
      }
    }
    forall f | f in r.owner && !r.owner[f].User? ensures FrameOk(r, f) {
      assert FrameOk(m, f);
      if r.owner[f].Dir? { forall y | 0 <= y < ENTRIES ensures TableAt(r, f, y) { assert TableAt(m, f, y); } }
    }
  }

  lemma MapKeeps(m: Phys, d: nat, pg: nat, f: nat, perm: nat)
    requires Inv(m) && IsDir(m, d) && pg < NPAGES && Present(m.mem[d][pg / ENTRIES]) && f < NPAGES && perm < PGSIZE
    requires pg < UPAGES ==> f in m.owner && m.owner[f].Kernel? && !Present(Pte(m.mem, d, pg))
    ensures FrameOf(m.mem[d][pg / ENTRIES]) < NFRAMES && Inv(Map(m, d, pg, f, perm))
    ensures forall d', pg' | IsDir(m, d') && 0 <= pg' < NPAGES ::
              Pte(Map(m, d, pg, f, perm).mem, d', pg') == if d' == d && pg' == pg then Entry(f, perm)
              else Pte(m.mem, d', pg')
  {
    TableOwned(m, d, pg / ENTRIES);
    var r := Map(m, d, pg, f, perm);
    PutPteKeeps(m, r, d, pg, Entry(f, perm));
    hide Pte, FreeOk, PutPte;
    forall g | g in r.owner ensures FrameOk(r, g) {
      assert FrameOk(m, g);
    }
    forall d', pg' | IsDir(r, d') && 0 <= pg' < UPAGES ensures MapOk(r, d', pg') { assert MapOk(m, d', pg'); }
  }

  /** deallocuvm: the entry of user page pg is cleared; its page passes to the kernel. */
  function Unmap(m: Phys, d: nat, pg: nat): (r: Phys)
    requires d < |m.mem| && pg < NPAGES && FrameOf(m.mem[d][pg / ENTRIES]) < |m.mem|
  {
    m.(mem := PutPte(m.mem, d, pg, 0), owner := m.owner[FrameOf(Pte(m.mem, d, pg)) := Kernel])
  }

  lemma UnmapKeeps(m: Phys, d: nat, pg: nat)
    requires Inv(m) && IsDir(m, d) && pg < UPAGES && Present(m.mem[d][pg / ENTRIES]) && Present(Pte(m.mem, d, pg))
    ensures FrameOf(m.mem[d][pg / ENTRIES]) < NFRAMES && Inv(Unmap(m, d, pg))
    ensures FrameOf(Pte(m.mem, d, pg)) in m.owner && m.owner[FrameOf(Pte(m.mem, d, pg))] == User(d, pg)
    ensures forall d', pg' | IsDir(m, d') && 0 <= pg' < NPAGES ::
              Pte(Unmap(m, d, pg).mem, d', pg') == if d' == d && pg' == pg then 0 else Pte(m.mem, d', pg')
  {
    TableOwned(m, d, pg / ENTRIES);
    assert MapOk(m, d, pg);
    var r := Unmap(m, d, pg);
    PutPteKeeps(m, r, d, pg, 0);
    hide Pte, FreeOk, PutPte;
    forall g | g in r.owner ensures FrameOk(r, g) {
      assert FrameOk(m, g);
    }
    forall d', pg' | IsDir(r, d') && 0 <= pg' < UPAGES ensures MapOk(r, d', pg') { assert MapOk(m, d', pg'); }
  }

  /** freevm, once no user page is mapped: the directory and its tables pass to the kernel. */
  ghost function Dissolve(m: Phys, d: nat): (r: Phys) {
    m.(owner := map f | f in m.owner ::
      if f == d || (m.owner[f].Table? && m.owner[f].dir == d) then Kernel else m.owner[f])
  }

  lemma DissolveKeeps(m: Phys, d: nat)
    requires Inv(m) && IsDir(m, d) && forall pg | 0 <= pg < UPAGES :: !Present(Pte(m.mem, d, pg))
    ensures Inv(Dissolve(m, d))
  {
    var r := Dissolve(m, d);
    assert FreeOk(r);
    hide Pte, FreeOk;
    forall f | f in r.owner ensures FrameOk(r, f) {
      assert FrameOk(m, f);
      if r.owner[f].Dir? { forall y | 0 <= y < ENTRIES ensures TableAt(r, f, y) { assert TableAt(m, f, y); } }
    }
    forall d', pg' | IsDir(r, d') && 0 <= pg' < UPAGES ensures MapOk(r, d', pg') { assert MapOk(m, d', pg'); }
  }

  // ---------------------------------------------------------------- what an operation leaves alone

  /** The directory d itself, or one of its tables. */
  predicate Structure(o: Owner, f: nat, d: nat) {
    (o.Dir? && f == d) || (o.Table? && o.dir == d)
  }

  /** Pages in use keep their owner, and their contents unless they are the directory d or one of its
      tables. The pages lo .. hi-1 may change hands but keep their contents. */
  ghost predicate Keeps(m0: Phys, m: Phys, d: nat, lo: nat, hi: nat) {
    && Shape(m0) && Shape(m) && m.first == m0.first
    && (forall f {:trigger m.owner[f]} | f in m0.owner && !m0.owner[f].Free? && !(lo <= f < hi) ::
          m.owner[f] == m0.owner[f])
    && (forall f {:trigger m.mem[f]}
          | 0 <= f < NFRAMES && (f !in m0.owner || !(m0.owner[f].Free? || Structure(m0.owner[f], f, d))) ::
          m.mem[f] == m0.mem[f])
  }

  /** Pages that were free are still free or have become part of d: a table, or user page pg in a .. b-1. */
  ghost predicate Growth(m0: Phys, m: Phys, d: nat, a: nat, b: nat) {
    forall f {:trigger m.owner[f]} | f in m0.owner && f in m.owner && m0.owner[f].Free? ::
      m.owner[f].Free? || (m.owner[f].Table? && m.owner[f].dir == d)
      || (m.owner[f].User? && m.owner[f].dir == d && a <= m.owner[f].page < b)
  }

  /** One operation after another; the pages handed over first are not free or tables in between. */
  lemma KeepsChain(m0: Phys, m1: Phys, m2: Phys, d: nat, lo: nat, mid: nat, hi: nat)
    requires Keeps(m0, m1, d, lo, mid) && Keeps(m1, m2, d, mid, hi) && lo <= mid <= hi
    requires forall g | lo <= g < mid :: g in m1.owner && m1.owner[g].User?
    ensures Keeps(m0, m2, d, lo, hi)
  {
    forall f | 0 <= f < NFRAMES && (f !in m0.owner || !(m0.owner[f].Free? || Structure(m0.owner[f], f, d)))
      ensures m2.mem[f] == m0.mem[f]
    {
      assert m1.mem[f] == m0.mem[f];
      if f in m0.owner && !(lo <= f < mid) { assert m1.owner[f] == m0.owner[f]; }
    }
    forall f | f in m0.owner && !m0.owner[f].Free? && !(lo <= f < hi) ensures m2.owner[f] == m0.owner[f] {
      assert m1.owner[f] == m0.owner[f];
    }
  }

  lemma KeepsEmpty(m0: Phys, m: Phys, d: nat, k: nat, k': nat)
    requires Keeps(m0, m, d, k, k)
    ensures Keeps(m0, m, d, k', k')
  {
  }

  lemma KeepsTransitive(m0: Phys, m1: Phys, m2: Phys, d: nat)
    requires Keeps(m0, m1, d, 0, 0) && Keeps(m1, m2, d, 0, 0)
    ensures Keeps(m0, m2, d, 0, 0)
  {
    KeepsChain(m0, m1, m2, d, 0, 0, 0);
  }

  lemma GrowthChain(m0: Phys, m1: Phys, m2: Phys, d: nat, a: nat, b: nat, lo: nat, hi: nat)
    requires Shape(m0) && m1.first == m0.first && Growth(m0, m1, d, a, b) && Growth(m1, m2, d, a, b)
             && Keeps(m1, m2, d, lo, hi)
    requires forall g | lo <= g < hi :: g in m1.owner && m1.owner[g].Kernel?
    ensures Growth(m0, m2, d, a, b)
  {
    forall g | g in m0.owner && m0.owner[g].Free?
      ensures m2.owner[g].Free? || (m2.owner[g].Table? && m2.owner[g].dir == d)
              || (m2.owner[g].User? && m2.owner[g].dir == d && a <= m2.owner[g].page < b)
    {
      if !m1.owner[g].Free? { assert m2.owner[g] == m1.owner[g]; }
    }
  }

  /** Another directory and everything it maps are as before. */
  lemma KeepsOtherSpaces(m0: Phys, m: Phys, d: nat, d': nat, pg: nat)
    requires Inv(m0) && Inv(m) && Keeps(m0, m, d, 0, 0) && IsDir(m0, d') && d' != d && pg < NPAGES
    ensures IsDir(m, d') && Lookup(m.mem, d', pg) == Lookup(m0.mem, d', pg)
    ensures pg < UPAGES && Lookup(m.mem, d', pg).Some? ==>
              var f := Lookup(m.mem, d', pg).value.frame; f < NFRAMES && m.mem[f] == m0.mem[f]
  {
    assert m.owner[d'] == m0.owner[d'];
    assert FrameOk(m0, d');
    forall t | t in m0.owner && m0.owner[t].Table? && m0.owner[t].dir == d' ensures m.mem[t] == m0.mem[t] {}
    PteFrame(m0, m.mem, d', pg);
    if pg < UPAGES { assert MapOk(m0, d', pg); }
  }

  // ---------------------------------------------------------------- runs of mappages

  /** From m0 to m, pages pg .. pg+k-1 of d have come to map the frames from f on. */
  ghost predicate MapsRun(m0: Phys, m: Phys, d: nat, pg: nat, f: nat, perm: nat, k: nat)
    requires Shape(m0) && IsDir(m0, d) && pg + k <= NPAGES && f + k <= NPAGES && perm < PGSIZE
  {
    && Keeps(m0, m, d, f, f + (if pg < UPAGES then k else 0))
    && Growth(m0, m, d, 0, 0)
    && IsDir(m, d)
    && EntriesRun(m0, m, d, pg, f, perm, k)
    && (pg < UPAGES ==> HandedOver(m, d, pg, f, k))
  }

  ghost predicate EntriesRun(m0: Phys, m: Phys, d: nat, pg: nat, f: nat, perm: nat, k: nat)
    requires pg + k <= NPAGES && f + k <= NPAGES && perm < PGSIZE
  {
    && d < |m0.mem| && d < |m.mem|
    && (forall p | 0 <= p < NPAGES ::
          Pte(m.mem, d, p) == if pg <= p < pg + k then Entry(f + (p - pg), perm) else Pte(m0.mem, d, p))
  }

  ghost predicate HandedOver(m: Phys, d: nat, pg: nat, f: nat, k: nat) {
    forall g | f <= g < f + k :: g in m.owner && m.owner[g] == User(d, pg + (g - f))
  }

  lemma KeepsHandedOver(m1: Phys, m2: Phys, d: nat, pg: nat, f: nat, k: nat, hi: nat)
    requires HandedOver(m1, d, pg, f, k) && Keeps(m1, m2, d, f + k, hi)
    ensures HandedOver(m2, d, pg, f, k)
  {
    forall g | f <= g < f + k ensures g in m2.owner && m2.owner[g] == User(d, pg + (g - f)) {
      assert g in m1.owner && m1.owner[g] == User(d, pg + (g - f));
    }
  }

  lemma MapsRunStart(m: Phys, d: nat, pg: nat, f: nat, perm: nat)
    requires Shape(m) && IsDir(m, d) && pg <= NPAGES && f <= NPAGES && perm < PGSIZE
    ensures MapsRun(m, m, d, pg, f, perm, 0)
  {
  }

  /** One store into a table of d leaves everything else alone. */
  lemma MapIsLocal(m: Phys, d: nat, pg: nat, f: nat, perm: nat)
    requires Shape(m) && IsDir(m, d) && pg < NPAGES && f < NPAGES && perm < PGSIZE
    requires FrameOf(m.mem[d][pg / ENTRIES]) in m.owner
             && m.owner[FrameOf(m.mem[d][pg / ENTRIES])] == Table(d, pg / ENTRIES)
    requires pg < UPAGES ==> f in m.owner && m.owner[f].Kernel?
    ensures Keeps(m, Map(m, d, pg, f, perm), d, f, f + (if pg < UPAGES then 1 else 0))
    ensures Growth(m, Map(m, d, pg, f, perm), d, 0, 0)
  {
    hide Pte;
    var r := Map(m, d, pg, f, perm);
    assert forall g :: g in r.owner <==> g in m.owner;
  }

  /** walkpgdir from m1 to m2, then one store. */
  lemma MapsOne(m1: Phys, m2: Phys, d: nat, pg: nat, f: nat, perm: nat)
    requires Shape(m1) && IsDir(m1, d) && Inv(m2) && IsDir(m2, d) && pg < NPAGES && f < NPAGES && perm < PGSIZE
    requires pg < UPAGES ==> f in m2.owner && m2.owner[f].Kernel?
    requires Keeps(m1, m2, d, 0, 0) && Growth(m1, m2, d, 0, 0)
    requires forall p | 0 <= p < NPAGES :: Pte(m2.mem, d, p) == Pte(m1.mem, d, p)
    requires Present(m2.mem[d][pg / ENTRIES]) && !Present(Pte(m2.mem, d, pg))
    ensures FrameOf(m2.mem[d][pg / ENTRIES]) < NFRAMES
    ensures Inv(Map(m2, d, pg, f, perm))
    ensures MapsRun(m1, Map(m2, d, pg, f, perm), d, pg, f, perm, 1)
  {
    TableOwned(m2, d, pg / ENTRIES);
    MapKeeps(m2, d, pg, f, perm);
    MapIsLocal(m2, d, pg, f, perm);
    hide Inv, Pte;
    var r := Map(m2, d, pg, f, perm);
    assert IsDir(r, d);
    assert EntriesRun(m1, r, d, pg, f, perm, 1);
    assert pg < UPAGES ==> HandedOver(r, d, pg, f, 1);
    hide EntriesRun, Map, Keeps, Growth;
    var z := if pg < UPAGES then 1 else 0;
    KeepsEmpty(m1, m2, d, 0, f);
    KeepsChain(m1, m2, r, d, f, f, f + z);
    GrowthChain(m1, m2, r, d, 0, 0, f, f + z);
  }

  /** A run of k pages, then one more. */
  lemma MapsRunAppend(m0: Phys, m1: Phys, m2: Phys, d: nat, pg: nat, f: nat, perm: nat, k: nat)
    requires Shape(m0) && Shape(m1) && IsDir(m0, d) && IsDir(m1, d) && pg + k < NPAGES && f + k < NPAGES
             && perm < PGSIZE
    requires pg >= UPAGES || pg + k < UPAGES
    requires pg < UPAGES ==> f + k in m1.owner && m1.owner[f + k].Kernel?
    requires MapsRun(m0, m1, d, pg, f, perm, k) && MapsRun(m1, m2, d, pg + k, f + k, perm, 1)
    ensures MapsRun(m0, m2, d, pg, f, perm, k + 1)
  {
    hide Pte;
    assert EntriesRun(m0, m2, d, pg, f, perm, k + 1);
    assert m1.first == m0.first;
    hide Keeps, Growth, EntriesRun;
    var n := if pg < UPAGES then k else 0;
    var z := if pg < UPAGES then 1 else 0;
    if pg < UPAGES {
      KeepsHandedOver(m1, m2, d, pg, f, k, f + k + 1);
    } else {
      KeepsEmpty(m1, m2, d, f + k, f);
    }
    KeepsChain(m0, m1, m2, d, f, f + n, f + n + z);
    GrowthChain(m0, m1, m2, d, 0, 0, f + n, f + n + z);
  }

  // ---------------------------------------------------------------- deallocation

  predicate Dropped(o: Owner, d: nat, a: nat, b: nat) {
    o.User? && o.dir == d && a <= o.page < b
  }

  /** From m0 to m, exactly the user pages a .. b-1 that d mapped have been freed, and no entry maps them. */
  ghost predicate Shrinks(m0: Phys, m: Phys, d: nat, a: nat, b: nat) {
    && Shape(m0) && Shape(m) && m.first == m0.first && IsDir(m0, d) && IsDir(m, d)
    && (forall f {:trigger m.owner[f]} | f in m0.owner ::
          m.owner[f] == if Dropped(m0.owner[f], d, a, b) then Free else m0.owner[f])
    && (forall f {:trigger m.mem[f]}
          | 0 <= f < NFRAMES && (f !in m0.owner || !(m.owner[f].Free? || Structure(m0.owner[f], f, d))) ::
          m.mem[f] == m0.mem[f])
    && Cleared(m0, m, d, a, b)
  }

  ghost predicate Cleared(m0: Phys, m: Phys, d: nat, a: nat, b: nat) {
    && d < |m0.mem| && d < |m.mem|
    && (forall p | 0 <= p < NPAGES ::
          if a <= p < b then !Present(Pte(m.mem, d, p)) else Pte(m.mem, d, p) == Pte(m0.mem, d, p))
  }

  /** Nothing to free where nothing is mapped. */
  lemma ShrinksNothing(m: Phys, d: nat, a: nat, b: nat)
    requires Inv(m) && IsDir(m, d) && b <= NPAGES && forall p | a <= p < b :: !Present(Pte(m.mem, d, p))
    ensures Shrinks(m, m, d, a, b)
  {
    forall f | f in m.owner ensures !Dropped(m.owner[f], d, a, b) {
      assert FrameOk(m, f);
    }
  }

  lemma ShrinksChain(m0: Phys, m1: Phys, m2: Phys, d: nat, a: nat, mid: nat, b: nat)
    requires Shrinks(m0, m1, d, a, mid) && Shrinks(m1, m2, d, mid, b) && a <= mid <= b
    ensures Shrinks(m0, m2, d, a, b)
  {
    hide Pte;
    assert Cleared(m0, m2, d, a, b);
    hide Cleared;
    forall f | f in m0.owner ensures m2.owner[f] == if Dropped(m0.owner[f], d, a, b) then Free else m0.owner[f] {
      assert m1.owner[f] == if Dropped(m0.owner[f], d, a, mid) then Free else m0.owner[f];
    }
    forall f | 0 <= f < NFRAMES && (f !in m0.owner || !(m2.owner[f].Free? || Structure(m0.owner[f], f, d)))
      ensures m2.mem[f] == m0.mem[f]
    {
      if f in m0.owner { assert m1.owner[f] == if Dropped(m0.owner[f], d, a, mid) then Free else m0.owner[f]; }
      assert m1.mem[f] == m0.mem[f];
    }
  }

  /** Clearing the entry of a mapped user page and freeing the page. */
  function Drop(m: Phys, d: nat, pg: nat): (r: Phys)
    requires d < |m.mem| && pg < NPAGES && FrameOf(m.mem[d][pg / ENTRIES]) < |m.mem|
    requires FrameOf(Pte(m.mem, d, pg)) < |m.mem| && (m.free != [] ==> m.free[0] < NFRAMES)
  {
    Give(Unmap(m, d, pg), FrameOf(Pte(m.mem, d, pg)))
  }

  lemma DropKeeps(m: Phys, d: nat, pg: nat)
    requires Inv(m) && IsDir(m, d) && pg < UPAGES && Present(m.mem[d][pg / ENTRIES]) && Present(Pte(m.mem, d, pg))
    ensures FrameOf(m.mem[d][pg / ENTRIES]) < NFRAMES && FrameOf(Pte(m.mem, d, pg)) in m.owner
    ensures Inv(Unmap(m, d, pg)) && Unmap(m, d, pg).owner[FrameOf(Pte(m.mem, d, pg))].Kernel?
    ensures (m.free != [] ==> m.free[0] < NFRAMES) && Inv(Drop(m, d, pg)) && Shrinks(m, Drop(m, d, pg), d, pg, pg + 1)
            && IsDir(Drop(m, d, pg), d)
  {
    TableOwned(m, d, pg / ENTRIES);
    UnmapKeeps(m, d, pg);
    var u := Unmap(m, d, pg);
    var f := FrameOf(Pte(m.mem, d, pg));
    GiveKeeps(u, f);
    var r := Drop(m, d, pg);
    assert Cleared(m, r, d, pg, pg + 1);
    forall g | g in m.owner && g != f ensures !Dropped(m.owner[g], d, pg, pg + 1) {
      assert FrameOk(m, g);
    }
    hide Pte, Cleared, Inv;
  }

  // ---------------------------------------------------------------- allocation

  const USER_PERM := PTE_W + PTE_U

  /** From m0 to m, the user pages a .. b-1 of d have come to map zeroed pages that were free. */
  ghost predicate Grown(m0: Phys, m: Phys, d: nat, a: nat, b: nat) {
    && IsDir(m0, d) && IsDir(m, d)
    && Keeps(m0, m, d, 0, 0)
    && Growth(m0, m, d, a, b)
    && FilledIn(m0, m, d, a, b)
  }

  ghost predicate FilledIn(m0: Phys, m: Phys, d: nat, a: nat, b: nat) {
    && |m.mem| == |m0.mem| == NFRAMES && d < NFRAMES
    && (forall p | 0 <= p < NPAGES ::
          if a <= p < b then FreshZero(m0, m, Pte(m.mem, d, p)) else Pte(m.mem, d, p) == Pte(m0.mem, d, p))
  }

  ghost predicate FreshZero(m0: Phys, m: Phys, e: Word)
    requires |m.mem| == NFRAMES
  {
    && Present(e) && FlagsOf(e) == PTE_P + USER_PERM
    && FrameOf(e) < NFRAMES && FrameOf(e) in m0.owner && m0.owner[FrameOf(e)].Free? && m.mem[FrameOf(e)] == ZeroPage()
  }

  /** From m0 to m, d maps what it did, and no page has left the free list but to become a table of d. */
  ghost predicate SameMap(m0: Phys, m: Phys, d: nat) {
    && IsDir(m0, d) && IsDir(m, d)
    && Keeps(m0, m, d, 0, 0)
    && Growth(m0, m, d, 0, 0)
    && (forall p | 0 <= p < NPAGES :: Lookup(m.mem, d, p) == Lookup(m0.mem, d, p))
  }

  lemma GrownStart(m: Phys, d: nat, a: nat)
    requires Inv(m) && IsDir(m, d)
    ensures Grown(m, m, d, a, a)
  {
  }

  /** kalloc, memset 0: one page leaves the free list. */
  ghost function Zeroed(m: Phys): (r: Phys)
    requires m.free != [] && m.free[0] < |m.mem|
  {
    Fill(Take(m), m.free[0], ZeroPage())
  }

  lemma ZeroedKeeps(m: Phys)
    requires Inv(m) && m.free != []
    ensures m.free[0] in m.owner && m.owner[m.free[0]].Free? && Inv(Zeroed(m))
    ensures forall d, p | IsDir(m, d) && 0 <= p < NPAGES :: Pte(Zeroed(m).mem, d, p) == Pte(m.mem, d, p)
  {
    TakeKeeps(m);
    FillKeeps(Take(m), m.free[0], ZeroPage());
    hide Pte, Inv;
    forall d, p | IsDir(m, d) && 0 <= p < NPAGES ensures Pte(Zeroed(m).mem, d, p) == Pte(m.mem, d, p) {
      assert IsDir(Take(m), d);
    }
  }

  /** A page taken from the free list and mapped: nothing in use has changed. */
  lemma TakenAndMapped(m: Phys, m3: Phys, d: nat, pg: nat)
    requires Inv(m) && m.free != [] && IsDir(m, d) && pg < UPAGES && m.free[0] < NFRAMES
    requires m.free[0] in m.owner && m.owner[m.free[0]].Free? && Inv(Zeroed(m))
    requires IsDir(Zeroed(m), d) && MapsRun(Zeroed(m), m3, d, pg, m.free[0], USER_PERM, 1)
    ensures Keeps(m, m3, d, 0, 0) && Growth(m, m3, d, pg, pg + 1) && m3.mem[m.free[0]] == ZeroPage()
  {
    var g, m2 := m.free[0], Zeroed(m);
    assert Shape(m) && Shape(m2);
    hide Pte, Inv;
    forall f | 0 <= f < NFRAMES && (f !in m.owner || !(m.owner[f].Free? || Structure(m.owner[f], f, d)))
      ensures m3.mem[f] == m.mem[f] {
      assert f != g && m2.mem[f] == m.mem[f];
    }
    forall f | f in m.owner && !m.owner[f].Free? ensures m3.owner[f] == m.owner[f] {
      assert f != g && m2.owner[f] == m.owner[f];
    }
    forall f | f in m.owner && m.owner[f].Free?
      ensures m3.owner[f].Free? || (m3.owner[f].Table? && m3.owner[f].dir == d) || Dropped(m3.owner[f], d, pg, pg + 1)
    {
      if f == g { assert m3.owner[g] == User(d, pg); } else { assert m2.owner[f] == m.owner[f]; }
    }
  }

  lemma GrownStep(m0: Phys, m: Phys, m3: Phys, d: nat, a: nat, pg: nat)
    requires Inv(m0) && Inv(m) && m.free != [] && Grown(m0, m, d, a, pg) && a <= pg < UPAGES
    requires m.free[0] < NFRAMES && m.free[0] in m.owner && m.owner[m.free[0]].Free? && Inv(Zeroed(m))
             && IsDir(Zeroed(m), d)
    requires MapsRun(Zeroed(m), m3, d, pg, m.free[0], USER_PERM, 1)
    ensures Grown(m0, m3, d, a, pg + 1)
  {
    var g := m.free[0];
    ZeroedKeeps(m);
    TakenAndMapped(m, m3, d, pg);
    KeepsTransitive(m0, m, m3, d);
    assert m0.owner[g].Free?;
    GrownFilled(m0, m, m3, d, a, pg);
    hide Pte, Inv, FilledIn, EntriesRun;
    assert Growth(m0, m, d, a, pg + 1) && Growth(m, m3, d, a, pg + 1);
    GrowthChain(m0, m, m3, d, a, pg + 1, 0, 0);
  }

  lemma GrownFilled(m0: Phys, m: Phys, m3: Phys, d: nat, a: nat, pg: nat)
    requires Inv(m) && m.free != [] && m.free[0] < NFRAMES && IsDir(m, d) && a <= pg < UPAGES
             && FilledIn(m0, m, d, a, pg)
    requires Keeps(m, m3, d, 0, 0) && m3.mem[m.free[0]] == ZeroPage() && m.free[0] in m0.owner
             && m0.owner[m.free[0]].Free?
    requires forall p | 0 <= p < NPAGES :: Pte(Zeroed(m).mem, d, p) == Pte(m.mem, d, p)
    requires EntriesRun(Zeroed(m), m3, d, pg, m.free[0], USER_PERM, 1)
    ensures FilledIn(m0, m3, d, a, pg + 1)
  {
    forall p | 0 <= p < NPAGES
      ensures if a <= p < pg + 1 then FreshZero(m0, m3, Pte(m3.mem, d, p)) else Pte(m3.mem, d, p) == Pte(m0.mem, d, p)
    {
      assert Pte(Zeroed(m).mem, d, p) == Pte(m.mem, d, p);
      if a <= p < pg {
        assert MapOk(m, d, p);
      }
    }
  }

  /** allocuvm's first failure: kalloc has nothing left. */
  lemma GrownUndone(m0: Phys, m: Phys, m': Phys, d: nat, a: nat, pg: nat, b: nat)
    requires Inv(m0) && Grown(m0, m, d, a, pg) && Shrinks(m, m', d, a, b) && a <= pg <= b <= UPAGES
    requires forall p | a <= p < b :: !Present(Pte(m0.mem, d, p))
    ensures SameMap(m0, m', d)
  {
    forall p | 0 <= p < NPAGES ensures Lookup(m'.mem, d, p) == Lookup(m0.mem, d, p) {}
    hide Pte, Lookup;
    NotMine(m0, d, a, b);
    hide Inv, FilledIn, Cleared;
    forall f | f in m0.owner && !m0.owner[f].Free? ensures m'.owner[f] == m0.owner[f] {
      assert m.owner[f] == m0.owner[f];
    }
    forall f | 0 <= f < NFRAMES && (f !in m0.owner || !(m0.owner[f].Free? || Structure(m0.owner[f], f, d)))
      ensures m'.mem[f] == m0.mem[f] {
      assert m.mem[f] == m0.mem[f];
    }
  }

  lemma NotMine(m: Phys, d: nat, a: nat, b: nat)
    requires Inv(m) && IsDir(m, d) && b <= UPAGES && forall p | a <= p < b :: !Present(Pte(m.mem, d, p))
    ensures forall f | f in m.owner :: !Dropped(m.owner[f], d, a, b)
  {
    forall f | f in m.owner ensures !Dropped(m.owner[f], d, a, b) {
      assert FrameOk(m, f);
    }
  }

  /** allocuvm's second failure: no page for a table; the page in hand is freed as well. */
  lemma GrownUndone2(m0: Phys, m: Phys, m4: Phys, d: nat, a: nat, pg: nat, b: nat)
    requires Inv(m0) && Inv(m) && m.free != [] && Grown(m0, m, d, a, pg) && a <= pg <= b <= UPAGES
    requires m.free[0] < NFRAMES && m.free[0] in m.owner && m.owner[m.free[0]].Free?
    requires Inv(m4) && Shrinks(Zeroed(m), m4, d, a, b) && (m4.free != [] ==> m4.free[0] < NFRAMES)
    requires forall p | a <= p < b :: !Present(Pte(m0.mem, d, p))
    ensures m.free[0] in m4.owner && m4.owner[m.free[0]].Kernel? && SameMap(m0, Give(m4, m.free[0]), d)
  {
    var g, m2 := m.free[0], Zeroed(m);
    assert m2.owner[g].Kernel?;
    ZeroedKeeps(m);
    GiveKeeps(m4, g);
    var m5 := Give(m4, g);
    forall p | 0 <= p < NPAGES ensures Lookup(m5.mem, d, p) == Lookup(m0.mem, d, p) {
      assert Pte(m2.mem, d, p) == Pte(m.mem, d, p);
    }
    hide Pte, Lookup;
    NotMine(m0, d, a, b);
    assert m0.owner[g].Free?;
    GiveBackKeeps(m0, m, m4, d, a, pg, b);
  }

  lemma GiveBackKeeps(m0: Phys, m: Phys, m4: Phys, d: nat, a: nat, pg: nat, b: nat)
    requires Shape(m0) && m.free != [] && Grown(m0, m, d, a, pg) && a <= pg <= b <= UPAGES
    requires m.free[0] < NFRAMES && m.free[0] in m.owner && m.owner[m.free[0]].Free? && m.free[0] in m0.owner
             && m0.owner[m.free[0]].Free?
    requires Shrinks(Zeroed(m), m4, d, a, b) && (m4.free != [] ==> m4.free[0] < NFRAMES)
    requires forall f | f in m0.owner :: !Dropped(m0.owner[f], d, a, b)
    ensures IsDir(Give(m4, m.free[0]), d) && Keeps(m0, Give(m4, m.free[0]), d, 0, 0)
            && Growth(m0, Give(m4, m.free[0]), d, 0, 0)
  {
    hide FilledIn, Cleared;
    var g, m2 := m.free[0], Zeroed(m);
    var m5 := Give(m4, g);
    assert forall f :: f in m5.owner <==> f in m4.owner;
    forall f | f in m0.owner && !m0.owner[f].Free? ensures m5.owner[f] == m0.owner[f] {
      assert m.owner[f] == m0.owner[f] && m2.owner[f] == m.owner[f] && m4.owner[f] == m2.owner[f];
    }
    forall f | 0 <= f < NFRAMES && (f !in m0.owner || !(m0.owner[f].Free? || Structure(m0.owner[f], f, d)))
      ensures m5.mem[f] == m0.mem[f] {
      assert m.mem[f] == m0.mem[f] && m2.mem[f] == m.mem[f];
      if f in m0.owner { assert m.owner[f] == m0.owner[f] && m2.owner[f] == m.owner[f] && m4.owner[f] == m2.owner[f]; }
      assert m4.mem[f] == m2.mem[f];
    }
    forall f | f in m0.owner && m0.owner[f].Free?
      ensures m5.owner[f].Free? || (m5.owner[f].Table? && m5.owner[f].dir == d) {
      if f != g { assert m2.owner[f] == m.owner[f]; assert m4.owner[f] == if Dropped(m2.owner[f], d, a, b) then Free
                                                                          else m2.owner[f]; }
    }
  }

  // ---------------------------------------------------------------- whole address spaces

  /** The directory d, one of its tables, or a page it maps. */
  predicate Mine(o: Owner, f: nat, d: nat) {
    Structure(o, f, d) || (o.User? && o.dir == d)
  }

  /** Pages in use keep owner and contents. */
  ghost predicate Untouched(m0: Phys, m: Phys) {
    && Shape(m0) && Shape(m) && m.first == m0.first
    && (forall f {:trigger m.owner[f]} | f in m0.owner && !m0.owner[f].Free? :: m.owner[f] == m0.owner[f])
    && (forall f {:trigger m.mem[f]} | 0 <= f < NFRAMES && (f !in m0.owner || !m0.owner[f].Free?) ::
          m.mem[f] == m0.mem[f])
  }

  /** From m0 to m, address space d has been built out of pages that were free. */
  ghost predicate Built(m0: Phys, m: Phys, d: nat) {
    && Untouched(m0, m)
    && d in m0.owner && m0.owner[d].Free? && IsDir(m, d)
    && (forall f {:trigger m.owner[f]} | f in m0.owner && m0.owner[f].Free? ::
          m.owner[f].Free? || Mine(m.owner[f], f, d))
  }

  /** From m0 to m, every page of address space d has been freed and no other page has changed hands. */
  ghost predicate Dismantled(m0: Phys, m: Phys, d: nat) {
    && Shape(m0) && Shape(m) && m.first == m0.first
    && (forall f {:trigger m.owner[f]} | f in m0.owner ::
          m.owner[f] == if Mine(m0.owner[f], f, d) then Free else m0.owner[f])
    && (forall f {:trigger m.mem[f]} | 0 <= f < NFRAMES && (f !in m0.owner || !m.owner[f].Free?) ::
          m.mem[f] == m0.mem[f])
  }

  /** Nothing has changed but the order and the contents of the free pages. */
  ghost predicate Restored(m0: Phys, m: Phys) {
    Untouched(m0, m) && m.owner == m0.owner
  }

  /** Building an address space and dismantling it again loses no page. */
  lemma BuiltThenDismantled(m0: Phys, m: Phys, m': Phys, d: nat)
    requires Inv(m0) && Built(m0, m, d) && Dismantled(m, m', d)
    ensures Restored(m0, m')
  {
    hide Pte;
    forall f | f in m0.owner && !m0.owner[f].Free? ensures !Mine(m0.owner[f], f, d) {
      assert FrameOk(m0, f);
    }
    hide Inv;
    forall f | f in m0.owner ensures m'.owner[f] == m0.owner[f] {
      assert m.owner[f] == m0.owner[f] || m0.owner[f].Free?;
    }
    forall f | 0 <= f < NFRAMES && (f !in m0.owner || !m0.owner[f].Free?) ensures m'.mem[f] == m0.mem[f] {
      assert m.mem[f] == m0.mem[f];
      if f in m0.owner { assert m'.owner[f] == m0.owner[f]; }
    }
    assert forall f :: f in m'.owner <==> f in m0.owner;
    assert m'.owner == m0.owner;
  }

  /** Growing an address space that has been built. */
  lemma BuiltFurther(m0: Phys, m: Phys, m': Phys, d: nat, a: nat, b: nat)
    requires Built(m0, m, d) && Keeps(m, m', d, 0, 0) && Growth(m, m', d, a, b) && Inv(m0)
    ensures Built(m0, m', d)
  {
    hide Pte;
    forall f | f in m0.owner && !m0.owner[f].Free? ensures m'.owner[f] == m0.owner[f] && !Structure(m0.owner[f], f, d) {
      assert FrameOk(m0, f);
      assert m.owner[f] == m0.owner[f];
    }
    hide Inv;
    forall f | 0 <= f < NFRAMES && (f !in m0.owner || !m0.owner[f].Free?) ensures m'.mem[f] == m0.mem[f] {
      assert m.mem[f] == m0.mem[f];
      if f in m0.owner { assert m.owner[f] == m0.owner[f]; }
    }
    forall f | f in m0.owner && m0.owner[f].Free? ensures m'.owner[f].Free? || Mine(m'.owner[f], f, d) {
      if !m.owner[f].Free? { assert m'.owner[f] == m.owner[f]; }
    }
    assert m'.owner[d] == m.owner[d];
  }

  /** freevm after deallocuvm: tables with index below i have been freed. */
  ghost predicate TablesFreed(m1: Phys, m: Phys, d: nat, i: nat) {
    && Shape(m1) && Shape(m) && m.first == m1.first && IsDir(m1, d)
    && m.mem[d] == m1.mem[d]
    && (forall f {:trigger m.owner[f]} | f in m1.owner ::
          m.owner[f] == if f == d then Kernel
          else if m1.owner[f].Table? && m1.owner[f].dir == d then (if m1.owner[f].pdx < i then Free else Kernel)
          else m1.owner[f])
    && (forall f {:trigger m.mem[f]} | 0 <= f < NFRAMES && (f !in m1.owner || !m.owner[f].Free?) ::
          m.mem[f] == m1.mem[f])
  }

  lemma TablesFreedStep(m1: Phys, m: Phys, d: nat, i: nat)
    requires Inv(m1) && Inv(m) && TablesFreed(m1, m, d, i) && i < ENTRIES
    ensures !Present(m1.mem[d][i]) ==> TablesFreed(m1, m, d, i + 1)
    ensures Present(m1.mem[d][i]) ==>
              var t := FrameOf(m1.mem[d][i]);
              && t in m.owner && m.owner[t].Kernel? && (m.free != [] ==> m.free[0] in m.owner)
              && TablesFreed(m1, Give(m, t), d, i + 1)
  {
    hide Pte;
    forall f | f in m1.owner && m1.owner[f] == Table(d, i) ensures Present(m1.mem[d][i]) && f == FrameOf(m1.mem[d][i]) {
      assert FrameOk(m1, f);
    }
    if Present(m1.mem[d][i]) {
      TableOwned(m1, d, i);
      if m.free != [] { assert m.free[0] in m.free; }
      var t := FrameOf(m1.mem[d][i]);
      assert m.owner[t].Kernel?;
      hide Inv;
      var r := Give(m, t);
      assert forall f :: f in r.owner <==> f in m.owner;
    }
  }

  /** deallocuvm, then the tables. */
  ghost predicate OnlyDirLeft(m0: Phys, m: Phys, d: nat) {
    && Shape(m0) && Shape(m) && m.first == m0.first && d in m0.owner && m.owner[d].Kernel?
    && (forall f {:trigger m.owner[f]} | f in m0.owner && f != d ::
          m.owner[f] == if Mine(m0.owner[f], f, d) then Free else m0.owner[f])
    && (forall f {:trigger m.mem[f]} | 0 <= f < NFRAMES && f != d && (f !in m0.owner || !m.owner[f].Free?) ::
          m.mem[f] == m0.mem[f])
  }

  lemma TablesAllFreed(m0: Phys, m1: Phys, m: Phys, d: nat)
    requires Inv(m0) && Inv(m1) && Shrinks(m0, m1, d, 0, UPAGES) && TablesFreed(m1, m, d, ENTRIES)
    ensures OnlyDirLeft(m0, m, d)
  {
    hide Pte, Cleared;
    forall f | f in m0.owner ensures m0.owner[f].User? ==> m0.owner[f].page < UPAGES { assert FrameOk(m0, f); }
    forall f | f in m1.owner ensures m1.owner[f].Table? ==> m1.owner[f].pdx < ENTRIES { assert FrameOk(m1, f); }
    hide Inv;
    forall f | f in m0.owner && f != d ensures m.owner[f] == if Mine(m0.owner[f], f, d) then Free else m0.owner[f] {
      assert m1.owner[f] == if Dropped(m0.owner[f], d, 0, UPAGES) then Free else m0.owner[f];
    }
    forall f | 0 <= f < NFRAMES && f != d && (f !in m0.owner || !m.owner[f].Free?) ensures m.mem[f] == m0.mem[f] {
      if f in m0.owner {
        assert m1.owner[f] == if Dropped(m0.owner[f], d, 0, UPAGES) then Free else m0.owner[f];
      }
      assert m.mem[f] == m1.mem[f];
    }
  }

  /** The directory last. */
  lemma DismantledAtLast(m0: Phys, m: Phys, d: nat)
    requires OnlyDirLeft(m0, m, d) && IsDir(m0, d) && Inv(m)
    ensures (m.free != [] ==> m.free[0] in m.owner) && Dismantled(m0, Give(m, d), d)
  {
    if m.free != [] { assert m.free[0] in m.free; }
    hide Inv;
    var r := Give(m, d);
    assert forall f :: f in r.owner <==> f in m.owner;
  }

  // ---------------------------------------------------------------- the kernel half

  const KPAGE := 0x8_0000          // KERNBASE / PGSIZE
  const EXTFRAME := 256            // EXTMEM / PGSIZE
  const DEVPAGE := 0xF_E000        // DEVSPACE / PGSIZE

  /** A row of kmap: pages pg .. pg+n-1 map the frames from f on. `data` is the frame of the kernel's data. */
  datatype Kmap = Kmap(pg: nat, n: nat, f: nat, perm: nat)

  function KmapRow(data: nat, k: nat): (r: Kmap)
    requires EXTFRAME < data < NFRAMES && k < 4
    ensures r.n >= 1 && UPAGES <= r.pg && r.pg + r.n <= NPAGES && r.f + r.n <= NPAGES && r.perm < PGSIZE
  {
    match k
    case 0 => Kmap(KPAGE, EXTFRAME, 0, PTE_W)
    case 1 => Kmap(KPAGE + EXTFRAME, data - EXTFRAME, EXTFRAME, 0)
    case 2 => Kmap(KPAGE + data, NFRAMES - data, data, PTE_W)
    case _ => Kmap(DEVPAGE, NPAGES - DEVPAGE, DEVPAGE, PTE_W)
  }

  /** The kernel half of every address space: I/O space and kernel data writable, kernel text and
      read-only data not, devices mapped to themselves, nothing else. */
  function KernelEntry(data: nat, pg: nat): (e: Word)
    requires EXTFRAME < data < NFRAMES && pg < NPAGES
  {
    if pg < KPAGE then 0
    else if pg < KPAGE + EXTFRAME then Entry(pg - KPAGE, PTE_W)
    else if pg < KPAGE + data then Entry(pg - KPAGE, 0)
    else if pg < KPAGE + NFRAMES then Entry(pg - KPAGE, PTE_W)
    else if pg < DEVPAGE then 0
    else Entry(pg, PTE_W)
  }

  /** What virtual page p of the kernel half maps, bit 1 of the flags being "writable" and bit 2 "user". */
  ghost predicate KernelPage(data: nat, p: nat, r: Option<Mapping>) {
    && (r.Some? <==> KERNBASE <= PGSIZE * p < KERNBASE + PHYSTOP || 0xFE00_0000 <= PGSIZE * p)
    && (r.Some? ==>
          && r.value.frame * PGSIZE == (if 0xFE00_0000 <= PGSIZE * p then PGSIZE * p else PGSIZE * p - KERNBASE)
          && r.value.flags / 4 % 2 == 0
          && (r.value.flags / 2 % 2 == 1 <==> !(0x10_0000 <= PGSIZE * p - KERNBASE < PGSIZE * data)))
  }

  /** The kernel half of directory d: all physical memory above KERNBASE and the devices where they are, for the
      kernel only, and no write to the kernel's text. */
  ghost predicate KernelHalf(mem: seq<Page>, data: nat, d: nat) {
    d < |mem| && forall p | UPAGES <= p < NPAGES :: KernelPage(data, p, Lookup(mem, d, p))
  }

  lemma KernelEntryPage(data: nat, p: nat, e: Word)
    requires EXTFRAME < data < NFRAMES && UPAGES <= p < NPAGES && e == KernelEntry(data, p)
    ensures KernelPage(data, p, if Present(e) then Some(Mapping(FrameOf(e), FlagsOf(e))) else None)
  {
  }

  /** Entries as the rows of kmap say make a kernel half. */
  lemma RowsMakeKernelHalf(mem: seq<Page>, data: nat, d: nat)
    requires EXTFRAME < data < NFRAMES && d < |mem|
    requires forall p | UPAGES <= p < NPAGES :: Pte(mem, d, p) == KernelEntry(data, p)
    ensures KernelHalf(mem, data, d)
  {
    hide Pte, KernelEntry, KernelPage, Present, FrameOf, FlagsOf;
    forall p | UPAGES <= p < NPAGES ensures KernelPage(data, p, Lookup(mem, d, p)) {
      KernelEntryPage(data, p, Pte(mem, d, p));
    }
  }

  /** An address space that grows or shrinks in the user half, or fails to, keeps its kernel half. */
  lemma KernelHalfKept(m0: Phys, m: Phys, data: nat, d: nat, a: nat, b: nat)
    requires KernelHalf(m0.mem, data, d) && b <= UPAGES
    requires Grown(m0, m, d, a, b) || Shrinks(m0, m, d, a, b) || SameMap(m0, m, d)
    ensures KernelHalf(m.mem, data, d)
  {
    hide Pte, KernelPage, Growth, Dropped, FreshZero;
    forall p | UPAGES <= p < NPAGES ensures Lookup(m.mem, d, p) == Lookup(m0.mem, d, p) {}
  }

  /** And so does every other address space. */
  lemma KernelHalfOfOthers(m0: Phys, m: Phys, data: nat, d: nat, d': nat)
    requires Inv(m0) && Inv(m) && Keeps(m0, m, d, 0, 0) && IsDir(m0, d') && d' != d && KernelHalf(m0.mem, data, d')
    ensures IsDir(m, d') && KernelHalf(m.mem, data, d')
  {
    hide Pte, KernelPage, Keeps, Inv;
    KeepsOtherSpaces(m0, m, d, d', 0);
    DirBelow(m, d');
    forall p | UPAGES <= p < NPAGES ensures KernelPage(data, p, Lookup(m.mem, d', p)) {
      KeepsOtherSpaces(m0, m, d, d', p);
    }
  }

  lemma DirBelow(m: Phys, d: nat)
    requires Inv(m) && IsDir(m, d)
    ensures d < |m.mem|
  {
  }

  /** The directory maps what the first k rows of kmap say. */
  ghost predicate RowsMapped(m: Phys, data: nat, d: nat, k: nat)
    requires EXTFRAME < data < NFRAMES && k <= 4
  {
    && d < |m.mem|
    && (forall p | 0 <= p < NPAGES ::
          Pte(m.mem, d, p) ==
          if k == 0 || p >= KmapRow(data, k - 1).pg + KmapRow(data, k - 1).n then 0 else KernelEntry(data, p))
  }

  lemma RowMapped(m: Phys, m': Phys, data: nat, d: nat, k: nat)
    requires EXTFRAME < data < NFRAMES && k < 4 && RowsMapped(m, data, d, k)
    requires EntriesRun(m, m', d, KmapRow(data, k).pg, KmapRow(data, k).f, KmapRow(data, k).perm, KmapRow(data, k).n)
    ensures RowsMapped(m', data, d, k + 1)
  {
    hide Pte;
  }

  /** A new directory. */
  lemma BuiltStart(m0: Phys)
    requires Inv(m0) && m0.free != []
    ensures m0.free[0] in m0.owner && Inv(NewDir(Zeroed(m0), m0.free[0]))
            && Built(m0, NewDir(Zeroed(m0), m0.free[0]), m0.free[0])
    ensures forall p | 0 <= p < NPAGES :: Pte(NewDir(Zeroed(m0), m0.free[0]).mem, m0.free[0], p) == 0
  {
    var d := m0.free[0];
    ZeroedKeeps(m0);
    NewDirKeeps(Zeroed(m0), d);
    hide Inv, Pte;
    var m := NewDir(Zeroed(m0), d);
    assert forall f :: f in m.owner <==> f in m0.owner;
  }

  lemma BuiltByRun(m0: Phys, m: Phys, m': Phys, d: nat, pg: nat, f: nat, perm: nat, n: nat)
    requires Inv(m0) && Built(m0, m, d) && UPAGES <= pg && pg + n <= NPAGES && f + n <= NPAGES && perm < PGSIZE
    requires MapsRun(m, m', d, pg, f, perm, n)
    ensures Built(m0, m', d)
  {
    hide EntriesRun, Inv;
    KeepsEmpty(m, m', d, f, 0);
    BuiltFurther(m0, m, m', d, 0, 0);
  }

  // ---------------------------------------------------------------- copies

  /** Entry e maps, with the flags of e0, a page that was free and holds what the page of e0 held. */
  ghost predicate CopyOf(m0: Phys, m: Phys, e0: Word, e: Word)
    requires |m0.mem| == |m.mem| == NFRAMES
  {
    && Present(e) && FlagsOf(e) == FlagsOf(e0)
    && FrameOf(e) in m0.owner && m0.owner[FrameOf(e)].Free? && FrameOf(e) < NFRAMES && FrameOf(e0) < NFRAMES
    && m.mem[FrameOf(e)] == m0.mem[FrameOf(e0)]
  }

  /** From m0 to m, address space d has been built: the kernel half, and copies of the first n pages of src. */
  ghost predicate CopiedTo(m0: Phys, m: Phys, data: nat, src: nat, d: nat, n: nat)
    requires EXTFRAME < data < NFRAMES && n <= UPAGES
  {
    && Built(m0, m, d) && src < NFRAMES && d < NFRAMES
    && (forall p | 0 <= p < NPAGES ::
          if p < n then CopyOf(m0, m, Pte(m0.mem, src, p), Pte(m.mem, d, p))
          else Pte(m.mem, d, p) == KernelEntry(data, p))
  }

  /** A page taken from the free list and filled. */
  ghost function TakenFull(m: Phys, page: Page): (r: Phys)
    requires m.free != [] && m.free[0] < |m.mem|
  {
    Fill(Take(m), m.free[0], page)
  }

  lemma TakenFullKeeps(m: Phys, page: Page)
    requires Inv(m) && m.free != []
    ensures m.free[0] in m.owner && m.owner[m.free[0]].Free? && Inv(TakenFull(m, page))
    ensures forall d, p | IsDir(m, d) && 0 <= p < NPAGES :: Pte(TakenFull(m, page).mem, d, p) == Pte(m.mem, d, p)
  {
    TakeKeeps(m);
    FillKeeps(Take(m), m.free[0], page);
    hide Pte, Inv;
    forall d, p | IsDir(m, d) && 0 <= p < NPAGES ensures Pte(TakenFull(m, page).mem, d, p) == Pte(m.mem, d, p) {
      assert IsDir(Take(m), d);
    }
  }

  /** The page in hand has been mapped: still built from free pages only. */
  lemma BuiltByCopy(m0: Phys, m: Phys, m3: Phys, d: nat, pg: nat, page: Page, perm: nat)
    requires Inv(m0) && Built(m0, m, d) && m.free != [] && m.free[0] < NFRAMES && pg < UPAGES && perm < PGSIZE
    requires m.free[0] in m.owner && m.owner[m.free[0]].Free? && Shape(TakenFull(m, page))
             && IsDir(TakenFull(m, page), d)
    requires MapsRun(TakenFull(m, page), m3, d, pg, m.free[0], perm, 1)
    ensures Built(m0, m3, d) && Keeps(m, m3, d, 0, 0) && m3.mem[m.free[0]] == page && m.free[0] in m0.owner
            && m0.owner[m.free[0]].Free?
  {
    hide Pte, EntriesRun;
    var g, m2 := m.free[0], TakenFull(m, page);
    forall f | 0 <= f < NFRAMES && (f !in m.owner || !(m.owner[f].Free? || Structure(m.owner[f], f, d)))
      ensures m3.mem[f] == m.mem[f] {
      assert f != g && m2.mem[f] == m.mem[f];
    }
    forall f | f in m.owner && !m.owner[f].Free? ensures m3.owner[f] == m.owner[f] {
      assert f != g && m2.owner[f] == m.owner[f];
    }
    forall f | f in m.owner && m.owner[f].Free?
      ensures m3.owner[f].Free? || (m3.owner[f].Table? && m3.owner[f].dir == d)
              || (m3.owner[f].User? && m3.owner[f].dir == d && pg <= m3.owner[f].page < pg + 1)
    {
      if f == g { assert m3.owner[g] == User(d, pg); } else { assert m2.owner[f] == m.owner[f]; }
    }
    assert Keeps(m, m3, d, 0, 0) && Growth(m, m3, d, pg, pg + 1);
    BuiltFurther(m0, m, m3, d, pg, pg + 1);
  }

  lemma CopiedStep(m0: Phys, m: Phys, m3: Phys, data: nat, src: nat, d: nat, n: nat, page: Page)
    requires EXTFRAME < data < NFRAMES && n < UPAGES && Inv(m0) && Inv(m) && CopiedTo(m0, m, data, src, d, n)
             && m.free != [] && m.free[0] < NFRAMES
    requires IsDir(m0, src) && Present(Pte(m0.mem, src, n)) && FrameOf(Pte(m0.mem, src, n)) < NFRAMES
             && page == m0.mem[FrameOf(Pte(m0.mem, src, n))]
    requires Built(m0, m3, d) && Keeps(m, m3, d, 0, 0) && m3.mem[m.free[0]] == page && m.free[0] in m0.owner
             && m0.owner[m.free[0]].Free?
    requires forall p | 0 <= p < NPAGES :: Pte(TakenFull(m, page).mem, d, p) == Pte(m.mem, d, p)
    requires EntriesRun(TakenFull(m, page), m3, d, n, m.free[0], FlagsOf(Pte(m0.mem, src, n)), 1)
    ensures CopiedTo(m0, m3, data, src, d, n + 1)
  {
    hide Pte;
    assert forall p | 0 <= p < n :: MapOk(m, d, p);
    hide Inv;
    forall p | 0 <= p < NPAGES
      ensures if p < n + 1 then CopyOf(m0, m3, Pte(m0.mem, src, p), Pte(m3.mem, d, p))
              else Pte(m3.mem, d, p) == KernelEntry(data, p)
    {
      assert Pte(TakenFull(m, page).mem, d, p) == Pte(m.mem, d, p);
      if p < n {
        assert MapOk(m, d, p) && CopyOf(m0, m, Pte(m0.mem, src, p), Pte(m.mem, d, p));
      }
    }
  }
}
