/** kalloc.c and vm.c as operations on physical memory. */
module AddressSpace {
  import opened Common
  import opened PageTable

  /** What mappages reports: done, -1 after mapping some pages, or the "remap" panic. */
  datatype MapResult = Mapped | NoMemory(done: nat) | Remap

  datatype CopyResult = Copied(d: nat) | OutOfMemory | Panic

  function RoundUp(sz: nat): (pg: nat)
    ensures pg * PGSIZE >= sz > (pg - 1) * PGSIZE
  {
    (sz + PGSIZE - 1) / PGSIZE
  }

  /** kfree's range test: at or after the end of the kernel image, below PHYSTOP. */
  predicate Allocatable(first: nat, f: nat) { first <= f < NFRAMES }

  const KVM_PAGES := 67           // a directory and the tables of the kernel half

  /** How one turn of allocuvm ends. */
  datatype AllocResult = Added | NoPage | Remapped | NoTable(page: nat)

  predicate UserWritable(flags: nat) { flags / PTE_W % 2 == 1 && flags / PTE_U % 2 == 1 }

  /** No page of a kernel half is one that user code could write, or read. */
  lemma KernelProtected(mem: seq<Page>, data: nat, d: nat, pg: nat)
    requires KernelHalf(mem, data, d) && UPAGES <= pg < NPAGES && Lookup(mem, d, pg).Some?
    ensures var flags := Lookup(mem, d, pg).value.flags; !UserWritable(flags) && flags / PTE_U % 2 == 0
  {
    hide Lookup;
    assert KernelPage(data, pg, Lookup(mem, d, pg));
  }

  class Vm {
    const first: nat                 // first page after the kernel image
    var mem: seq<Page>
    var freelist: nat                // frame number of the head, 0 for null
    ghost var free: seq<nat>
    ghost var owner: map<nat, Owner>

    ghost function State(): (m: Phys)
      reads this
    {
      Phys(first, mem, free, owner)
    }

    ghost predicate Valid()
      reads this
    {
      Inv(State()) && freelist == if free == [] then 0 else free[0]
    }

    /** kalloc; 0 when the free list is empty. */
    method Kalloc() returns (r: nat)
      requires Valid()
      modifies this`freelist, this`free, this`owner
      ensures Valid()
      ensures r == 0 <==> old(free) == []
      ensures r == 0 ==> State() == old(State())
      ensures r != 0 ==> r == old(free[0]) && State() == Take(old(State()))
      ensures r != 0 ==> r in owner && owner[r].Kernel? && old(owner[r].Free?)
    {
      assert free != [] ==> free[0] in free;
      r := freelist;
      if r == 0 {
        return;
      }
      TakeKeeps(State());
      assert LinkAt(mem, free, 0);
      var next := mem[r][0];
      freelist := if next == 0 then 0 else (next - KERNBASE) / PGSIZE;
      owner := owner[free[0] := Kernel];
      free := free[1..];
    }

    /** kfree of the page at physical address pa; false is its panic. */
    method Kfree(pa: nat) returns (ok: bool)
      requires Valid()
      requires pa / PGSIZE in owner ==> owner[pa / PGSIZE].Kernel?
      modifies this`mem, this`freelist, this`free, this`owner
      ensures Valid()
      ensures ok <==> pa % PGSIZE == 0 && pa / PGSIZE in old(owner)
      ensures !ok ==> State() == old(State())
      ensures ok ==> (old(free) != [] ==> old(free[0]) in old(owner)) && State() == Give(old(State()), pa / PGSIZE)
    {
      if pa % PGSIZE != 0 || !Allocatable(first, pa / PGSIZE) {
        return false;
      }
      var f := pa / PGSIZE;
      GiveKeeps(State(), f);
      mem := mem[f := FreedPage(freelist)];
      freelist := f;
      owner := owner[f := Free];
      free := [f] + free;
      ok := true;
    }

    /** Physical memory before kinit1: every allocatable page is the kernel's. */
    constructor (first: nat, image: seq<Page>)
      requires 0 < first <= NFRAMES && |image| == NFRAMES
      ensures Valid() && this.first == first && mem == image && free == []
      ensures forall f | f in owner :: owner[f].Kernel?
    {
      this.first := first;
      mem, freelist, free := image, 0, [];
      owner := map f | 0 <= f < NFRAMES && Allocatable(first, f) :: Kernel;
    }

    /** freerange: the whole pages between the two addresses go to the free list, last one first. */
    method FreeRange(vstart: nat, vend: nat)
      requires Valid()
      requires forall f | RoundUp(vstart) <= f < vend / PGSIZE :: f in owner && owner[f].Kernel?
      modifies this`mem, this`freelist, this`free, this`owner
      ensures Valid()
      ensures |free| == |old(free)| + if RoundUp(vstart) < vend / PGSIZE then vend / PGSIZE - RoundUp(vstart) else 0
      ensures forall f | f in owner :: owner[f] == if RoundUp(vstart) <= f < vend / PGSIZE then Free else old(owner)[f]
      ensures forall f | 0 <= f < NFRAMES && !(RoundUp(vstart) <= f < vend / PGSIZE) :: mem[f] == old(mem[f])
    {
      hide PageTable.FreeOk;
      ghost var from := RoundUp(vstart);
      var p := RoundUp(vstart) * PGSIZE;
      while p + PGSIZE <= vend
        invariant Valid() && p % PGSIZE == 0 && from <= p / PGSIZE
                  && (p / PGSIZE == from || p / PGSIZE <= vend / PGSIZE)
        invariant |free| == |old(free)| + (p / PGSIZE - from) && owner.Keys == old(owner.Keys)
        invariant forall f | f in owner :: owner[f] == if from <= f < p / PGSIZE then Free else old(owner)[f]
        invariant forall f | 0 <= f < NFRAMES && !(from <= f < p / PGSIZE) :: mem[f] == old(mem[f])
        decreases vend - p
      {
        assert p / PGSIZE < vend / PGSIZE;
        var ok := Kfree(p);
        assert ok && (p + PGSIZE) / PGSIZE == p / PGSIZE + 1 && (p + PGSIZE) % PGSIZE == 0;
        p := p + PGSIZE;
      }
    }

    /** walkpgdir: the table that holds the entry of page pg, 0 if there is none. */
    method Walk(d: nat, pg: nat, alloc: bool) returns (t: nat)
      requires Valid() && IsDir(State(), d) && pg < NPAGES
      modifies this`mem, this`freelist, this`free, this`owner
      ensures Valid()
      ensures t != 0 <==> Present(mem[d][pg / ENTRIES])
      ensures t != 0 ==> t == FrameOf(mem[d][pg / ENTRIES]) && t < NFRAMES && mem[t][pg % ENTRIES] == Pte(mem, d, pg)
      ensures t == 0 ==> State() == old(State()) && (!alloc || free == []) && Pte(mem, d, pg) == 0
      ensures !alloc ==> State() == old(State())
      ensures Keeps(old(State()), State(), d, 0, 0) && Growth(old(State()), State(), d, 0, 0)
      ensures forall d', pg' | IsDir(old(State()), d') && 0 <= pg' < NPAGES ::
                Pte(mem, d', pg') == Pte(old(mem), d', pg')
      ensures |old(free)| <= |free| + if Present(old(mem)[d][pg / ENTRIES]) then 0 else 1
    {
      ghost var m0 := State();
      var pde := mem[d][pg / ENTRIES];
      if Present(pde) {
        TableOwned(m0, d, pg / ENTRIES);
        return FrameOf(pde);
      }
      if !alloc {
        return 0;
      }
      t := NewTable(d, pg / ENTRIES);
    }

    /** The allocating branch of walkpgdir. */
    method NewTable(d: nat, x: nat) returns (t: nat)
      requires Valid() && IsDir(State(), d) && x < ENTRIES && !Present(mem[d][x])
      modifies this`mem, this`freelist, this`free, this`owner
      ensures Valid()
      ensures t == 0 ==> State() == old(State()) && free == []
      ensures t != 0 ==> Present(mem[d][x]) && t == FrameOf(mem[d][x]) && t < NFRAMES
      ensures Keeps(old(State()), State(), d, 0, 0) && Growth(old(State()), State(), d, 0, 0)
      ensures forall d', pg' | IsDir(old(State()), d') && 0 <= pg' < NPAGES ::
                Pte(mem, d', pg') == Pte(old(mem), d', pg')
      ensures |old(free)| <= |free| + 1
    {
      hide Pte, FreeOk, DirOk, FrameOk, MapOk;
      t := Kalloc();
      if t == 0 {
        return;
      }
      FillKeeps(State(), t, ZeroPage());
      mem := mem[t := ZeroPage()];
      ghost var m1 := State();
      LinkTableKeeps(m1, d, x, t);
      mem := mem[d := mem[d][x := Entry(t, PTE_P + PTE_W + PTE_U)]];
      owner := owner[t := Table(d, x)];
      assert State() == LinkTable(m1, d, x, t);
    }

    /** One turn of mappages. */
    method MapOne(d: nat, pg: nat, f: nat, perm: nat) returns (r: MapResult)
      requires Valid() && IsDir(State(), d) && pg < NPAGES && f < NPAGES && perm < PGSIZE
      requires pg < UPAGES ==> f in owner && owner[f].Kernel?
      modifies this`mem, this`freelist, this`free, this`owner
      ensures Valid() && IsDir(State(), d)
      ensures r.Remap? <==> Present(Pte(old(mem), d, pg))
      ensures r.NoMemory? ==> r.done == 0 && free == [] && State() == old(State())
      ensures r.NoMemory? ==> !Present(old(mem)[d][pg / ENTRIES])
      ensures r.Mapped? ==> MapsRun(old(State()), State(), d, pg, f, perm, 1) && Present(mem[d][pg / ENTRIES])
      ensures |old(free)| <= |free| + if Present(old(mem)[d][pg / ENTRIES]) then 0 else 1
    {
      hide FreeOk, DirOk, FrameOk, MapOk;
      ghost var m1 := State();
      var t := Walk(d, pg, true);
      ghost var m2 := State();
      if t == 0 {
        return NoMemory(0);
      }
      hide Pte;
      if Present(mem[t][pg % ENTRIES]) {
        return Remap;
      }
      MapsOne(m1, m2, d, pg, f, perm);
      mem := mem[t := mem[t][pg % ENTRIES := Entry(f, perm)]];
      owner := if pg < UPAGES then owner[f := User(d, pg)] else owner;
      assert State() == Map(m2, d, pg, f, perm);
      return Mapped;
    }

    /** How many page tables the entries of pages pg .. pg+n-1 are spread over. */
    function Tables(pg: nat, n: nat): (k: nat)
      requires n >= 1
    {
      (pg + n - 1) / ENTRIES - pg / ENTRIES + 1
    }

    /** The pages that bytes va .. va+size-1 lie on. */
    function PageCount(va: nat, size: nat): (n: nat)
      requires size >= 1
      ensures n >= 1
    {
      (va + size - 1) / PGSIZE - va / PGSIZE + 1
    }

    lemma WholePages(pg: nat, n: nat)
      requires n >= 1
      ensures pg * PGSIZE / PGSIZE == pg && n * PGSIZE >= 1 && PageCount(pg * PGSIZE, n * PGSIZE) == n
              && Tables(pg, 1) == 1
    {
      assert (pg * PGSIZE + n * PGSIZE - 1) / PGSIZE == pg + n - 1;
    }

    /** mappages: the pages of the bytes va .. va+size-1, aligned or not, come to map the frames from pa on. User
        pages must be in the kernel's hands and pass to the mapping. */
    method MapPages(d: nat, va: nat, size: nat, pa: nat, perm: nat) returns (r: MapResult)
      requires Valid() && IsDir(State(), d) && size >= 1 && va + size <= LIMIT32 && pa % PGSIZE == 0 && perm < PGSIZE
      requires pa / PGSIZE + PageCount(va, size) <= NPAGES
      requires var pg, n, f := va / PGSIZE, PageCount(va, size), pa / PGSIZE;
               pg >= UPAGES || (pg + n <= UPAGES && forall g | f <= g < f + n :: g in owner && owner[g].Kernel?)
      modifies this`mem, this`freelist, this`free, this`owner
      ensures Valid() && IsDir(State(), d) && va / PGSIZE + PageCount(va, size) <= NPAGES
      ensures var pg, n, f := va / PGSIZE, PageCount(va, size), pa / PGSIZE;
              && (r.Remap? ==> exists p | pg <= p < pg + n :: Present(Pte(old(mem), d, p)))
              && (r.NoMemory? ==> r.done < n && free == [] && MapsRun(old(State()), State(), d, pg, f, perm, r.done))
              && (r.NoMemory? && r.done == 0 ==> State() == old(State()))
              && (r.Mapped? ==> MapsRun(old(State()), State(), d, pg, f, perm, n))
              && (r.Mapped? ==> forall p | pg <= p < pg + n :: !Present(Pte(old(mem), d, p)))
              && (r.NoMemory? ==> |old(free)| < Tables(pg, n)) && (r.Mapped? ==> |old(free)| <= |free| + Tables(pg, n))
    {
      hide FreeOk, DirOk, FrameOk, MapOk, Pte, Growth, Keeps, MapsRun;
      var a, last := va / PGSIZE, (va + size - 1) / PGSIZE;
      assert last < NPAGES;
      r := MapRun(d, a, last - a + 1, pa / PGSIZE, perm);
    }

    /** The loop of mappages, from page pg to page pg+n-1. */
    method MapRun(d: nat, pg: nat, n: nat, f: nat, perm: nat) returns (r: MapResult)
      requires Valid() && IsDir(State(), d) && 1 <= n && pg + n <= NPAGES && f + n <= NPAGES && perm < PGSIZE
      requires pg >= UPAGES || (pg + n <= UPAGES && forall g | f <= g < f + n :: g in owner && owner[g].Kernel?)
      modifies this`mem, this`freelist, this`free, this`owner
      ensures Valid() && IsDir(State(), d)
      ensures r.Remap? ==> exists p | pg <= p < pg + n :: Present(Pte(old(mem), d, p))
      ensures r.NoMemory? ==> r.done < n && free == [] && MapsRun(old(State()), State(), d, pg, f, perm, r.done)
      ensures r.NoMemory? && r.done == 0 ==> State() == old(State())
      ensures r.Mapped? ==> MapsRun(old(State()), State(), d, pg, f, perm, n)
      ensures r.NoMemory? ==> |old(free)| < Tables(pg, n)
      ensures r.Mapped? ==> |old(free)| <= |free| + Tables(pg, n)
      ensures r.Mapped? ==> forall p | pg <= p < pg + n :: !Present(Pte(old(mem), d, p))
    {
      hide FreeOk, DirOk, FrameOk, MapOk, Pte, Growth, Keeps;
      ghost var m0 := State();
      MapsRunStart(m0, d, pg, f, perm);
      var k := 0;
      while true
        invariant 0 <= k < n && Valid() && IsDir(State(), d)
        invariant MapsRun(m0, State(), d, pg, f, perm, k)
        invariant k == 0 ==> State() == m0
        invariant forall p | pg <= p < pg + k :: !Present(Pte(m0.mem, d, p))
        invariant k > 0 ==> Present(mem[d][(pg + k - 1) / ENTRIES])
        invariant |m0.free| <= |free| + if k == 0 then 0 else Tables(pg, k)
        decreases n - k
      {
        ghost var m1 := State();
        StillKernel(m0, m1, d, pg, f, perm, k, n);
        var one := MapOne(d, pg + k, f + k, perm);
        if one.NoMemory? {
          return NoMemory(k);
        }
        if one.Remap? {
          assert Present(Pte(m0.mem, d, pg + k));
          return Remap;
        }
        MapsRunAppend(m0, m1, State(), d, pg, f, perm, k);
        k := k + 1;
        if k == n {
          return Mapped;
        }
      }
    }

    /** The frames a run has not reached yet are still the kernel's. */
    lemma StillKernel(m0: Phys, m1: Phys, d: nat, pg: nat, f: nat, perm: nat, k: nat, n: nat)
      requires Shape(m0) && IsDir(m0, d) && k < n && pg + n <= NPAGES && f + n <= NPAGES && perm < PGSIZE
      requires pg >= UPAGES || (pg + n <= UPAGES && forall g | f <= g < f + n :: g in m0.owner && m0.owner[g].Kernel?)
      requires MapsRun(m0, m1, d, pg, f, perm, k)
      ensures pg < UPAGES ==> f + k in m1.owner && m1.owner[f + k].Kernel?
    {
      hide Pte;
      if pg < UPAGES { assert m0.owner[f + k].Kernel?; }
    }

    /** A process whose page directory is d stores a word into its memory; false is a page fault. */
    method UserStore(d: nat, pg: nat, i: nat, x: Word) returns (ok: bool)
      requires Valid() && IsDir(State(), d) && pg < UPAGES && i < ENTRIES
      modifies this`mem
      ensures Valid()
      ensures ok <==> Lookup(old(mem), d, pg).Some? && UserWritable(Lookup(old(mem), d, pg).value.flags)
      ensures !ok ==> mem == old(mem)
      ensures ok ==> var f := Lookup(old(mem), d, pg).value.frame;
                     f < NFRAMES && mem == old(mem)[f := old(mem)[f][i := x]]
      ensures forall d', pg' | IsDir(State(), d') && 0 <= pg' < NPAGES ::
                Lookup(mem, d', pg') == Lookup(old(mem), d', pg')
    {
      hide FreeOk, DirOk, FrameOk, Pte;
      ghost var m := State();
      var pte := Pte(mem, d, pg);
      if !Present(pte) || !UserWritable(FlagsOf(pte)) {
        return false;
      }
      assert MapOk(m, d, pg);
      var f := FrameOf(pte);
      FillKeeps(m, f, mem[f][i := x]);
      mem := mem[f := mem[f][i := x]];
      assert State() == Fill(m, f, mem[f]);
      ok := true;
    }

    /** deallocuvm. An entry is cleared before its page is freed; nothing runs between the two. */
    method DeallocUvm(d: nat, oldsz: nat, newsz: nat) returns (sz: nat)
      requires Valid() && IsDir(State(), d) && oldsz <= KERNBASE
      modifies this`mem, this`freelist, this`free, this`owner
      ensures Valid()
      ensures sz == if newsz >= oldsz then oldsz else newsz
      ensures newsz >= oldsz ==> State() == old(State())
      ensures newsz < oldsz ==> Shrinks(old(State()), State(), d, RoundUp(newsz), RoundUp(oldsz))
      ensures IsDir(State(), d)
    {
      hide FreeOk, DirOk, FrameOk, MapOk, Pte, Shrinks;
      if newsz >= oldsz {
        return oldsz;
      }
      ghost var m0, lo, hi := State(), RoundUp(newsz), RoundUp(oldsz);
      hide RoundUp;
      ShrinksNothing(m0, d, lo, lo);
      var a := RoundUp(newsz) * PGSIZE;
      ghost var q := lo;                                    // a is the start of page q
      PagesBelow(lo, newsz, oldsz);
      PagesBelow(q, oldsz, oldsz);
      while a < oldsz
        invariant Valid() && IsDir(State(), d) && a == q * PGSIZE && lo <= q && (q < hi <==> a < oldsz)
        invariant Shrinks(m0, State(), d, lo, Min(q, hi))
        decreases oldsz - a
      {
        ghost var m1 := State();
        var pg := a / PGSIZE;
        assert pg == q;
        var t := Walk(d, pg, false);
        if t == 0 {
          a := (pg / ENTRIES + 1) * ENTRIES * PGSIZE - PGSIZE;
          q := (pg / ENTRIES + 1) * ENTRIES;
          MissingTable(m1, d, pg, Min(q, hi));
          ShrinksChain(m0, m1, m1, d, lo, pg, Min(q, hi));
        } else {
          FreeAt(d, pg, t);
          q := pg + 1;
          ShrinksChain(m0, m1, State(), d, lo, pg, pg + 1);
        }
        a := a + PGSIZE;
        PagesBelow(q, oldsz, oldsz);
      }
      sz := newsz;
    }

    /** A page starts below an address exactly when it is one of the pages up to it. */
    lemma PagesBelow(q: nat, low: nat, sz: nat)
      requires low <= sz <= KERNBASE
      ensures q < RoundUp(sz) <==> q * PGSIZE < sz
      ensures RoundUp(low) <= RoundUp(sz) <= UPAGES
    {
    }

    /** The directory skip misses no mapped page. */
    lemma MissingTable(m: Phys, d: nat, pg: nat, next: nat)
      requires Inv(m) && IsDir(m, d) && pg <= next <= NPAGES && next <= (pg / ENTRIES + 1) * ENTRIES && pg < NPAGES
      requires !Present(m.mem[d][pg / ENTRIES])
      ensures Shrinks(m, m, d, pg, next)
    {
      forall p | pg <= p < next ensures !Present(Pte(m.mem, d, p)) {
        assert p / ENTRIES == pg / ENTRIES;
      }
      ShrinksNothing(m, d, pg, next);
    }

    /** One turn of deallocuvm's loop, with the entry in table t. */
    method FreeAt(d: nat, pg: nat, t: nat)
      requires Valid() && IsDir(State(), d) && pg < UPAGES && Present(mem[d][pg / ENTRIES])
      requires t == FrameOf(mem[d][pg / ENTRIES]) < NFRAMES && mem[t][pg % ENTRIES] == Pte(mem, d, pg)
      modifies this`mem, this`freelist, this`free, this`owner
      ensures Valid() && IsDir(State(), d)
      ensures Shrinks(old(State()), State(), d, pg, pg + 1)
    {
      hide FreeOk, DirOk, FrameOk, MapOk, Pte, Shrinks;
      ghost var m := State();
      var pte := mem[t][pg % ENTRIES];
      if Present(pte) {
        DropKeeps(m, d, pg);
        mem := mem[t := mem[t][pg % ENTRIES := 0]];
        owner := owner[FrameOf(pte) := Kernel];
        assert State() == Unmap(m, d, pg);
        var ok := Kfree(FrameOf(pte) * PGSIZE);
        assert ok;
        assert State() == Drop(m, d, pg);
      } else {
        ShrinksNothing(m, d, pg, pg + 1);
      }
    }

    /** No page the growth is to add is mapped yet: the caller's size bounds what the directory maps. */
    ghost predicate Unmapped(d: nat, oldsz: nat, newsz: nat)
      requires Valid() && IsDir(State(), d)
      reads this
    {
      forall p | RoundUp(oldsz) <= p < RoundUp(newsz) && p < UPAGES :: !Present(Pte(mem, d, p))
    }

    /** allocuvm. grown tells success from the error return 0; the panic is mappages' on a page mapped already. */
    method AllocUvm(d: nat, oldsz: nat, newsz: nat) returns (sz: nat, panicked: bool, ghost grown: bool)
      requires Valid() && IsDir(State(), d)
      modifies this`mem, this`freelist, this`free, this`owner
      ensures Valid() && IsDir(State(), d)
      ensures newsz >= KERNBASE ==> sz == 0 && State() == old(State()) && !panicked
      ensures newsz < KERNBASE && newsz < oldsz ==> sz == oldsz && State() == old(State()) && !panicked
      ensures old(Unmapped(d, oldsz, newsz)) ==> !panicked
      ensures oldsz <= newsz < KERNBASE && grown ==>
                !panicked && sz == newsz && old(Unmapped(d, oldsz, newsz))
                && Grown(old(State()), State(), d, RoundUp(oldsz), RoundUp(newsz))
      ensures oldsz <= newsz < KERNBASE && !grown && old(Unmapped(d, oldsz, newsz)) ==>
                sz == 0 && SameMap(old(State()), State(), d)
      ensures oldsz <= newsz < KERNBASE && !grown && !panicked ==> |old(free)| < 2 * (RoundUp(newsz) - RoundUp(oldsz))
    {
      hide FreeOk, DirOk, FrameOk, MapOk, Pte, Shrinks, Grown, SameMap, MapsRun, PageCount, Tables;
      grown, panicked := false, false;
      if newsz >= KERNBASE {
        return 0, false, false;
      }
      if newsz < oldsz {
        return oldsz, false, false;
      }
      ghost var m0, lo, hi := State(), RoundUp(oldsz), RoundUp(newsz);
      GrownStart(m0, d, lo);
      var a := RoundUp(oldsz) * PGSIZE;
      while a < newsz
        invariant Valid() && IsDir(State(), d) && a % PGSIZE == 0 && lo <= a / PGSIZE <= hi
        invariant Grown(m0, State(), d, lo, a / PGSIZE)
        invariant |m0.free| <= |free| + 2 * (a / PGSIZE - lo)
        invariant forall p | lo <= p < a / PGSIZE :: !Present(Pte(m0.mem, d, p))
        decreases newsz - a
      {
        ghost var m := State();
        var one := AllocOne(m0, d, lo, a / PGSIZE);
        match one {
          case Added =>
          case NoPage =>
            sz := DeallocUvm(d, newsz, oldsz);
            if old(Unmapped(d, oldsz, newsz)) { GrownUndone(m0, m, State(), d, lo, a / PGSIZE, hi); }
            return 0, false, false;
          case Remapped =>
            return 0, true, false;
          case NoTable(page) =>
            var _ := DeallocUvm(d, newsz, oldsz);
            ghost var m4 := State();
            if m4.free != [] { assert m4.free[0] in m4.owner by { FreeHead(m4); } }
            StillInHand(Zeroed(m), m4, d, lo, hi, page);
            if old(Unmapped(d, oldsz, newsz)) { GrownUndone2(m0, m, m4, d, lo, a / PGSIZE, hi); }
            assert page * PGSIZE / PGSIZE == page;
            var ok := Kfree(page * PGSIZE);
            return 0, false, false;
        }
        a := a + PGSIZE;
      }
      return newsz, false, true;
    }

    /** One turn of allocuvm's loop, up to what it does on failure. */
    method AllocOne(ghost m0: Phys, d: nat, ghost lo: nat, pg: nat) returns (r: AllocResult)
      requires Valid() && Inv(m0) && IsDir(State(), d) && pg < UPAGES && lo <= pg && Grown(m0, State(), d, lo, pg)
      modifies this`mem, this`freelist, this`free, this`owner
      ensures Valid() && IsDir(State(), d)
      ensures r.Remapped? ==> Present(Pte(m0.mem, d, pg))
      ensures r.NoPage? ==> State() == old(State()) && free == []
      ensures r.NoTable? ==> |old(free)| == 1 && r.page == old(free[0]) < NFRAMES && State() == Zeroed(old(State()))
      ensures r.NoTable? ==> r.page in owner && owner[r.page].Kernel? && r.page in old(owner)
                             && old(owner)[r.page].Free?
      ensures r.Added? ==> !Present(Pte(m0.mem, d, pg)) && Grown(m0, State(), d, lo, pg + 1)
                           && |old(free)| <= |free| + 2
    {
      hide FreeOk, DirOk, FrameOk, MapOk, Pte, Grown, MapsRun, PageCount, Tables;
      ghost var m := State();
      var page := Kalloc();
      if page == 0 {
        return NoPage;
      }
      ZeroedKeeps(m);
      mem := mem[page := ZeroPage()];
      assert State() == Zeroed(m);
      WholePages(pg, 1);
      WholePages(page, 1);
      NotMappedYet(m0, m, d, lo, pg);
      var r1 := MapPages(d, pg * PGSIZE, PGSIZE, page * PGSIZE, USER_PERM);
      match r1 {
        case Remap => return Remapped;
        case NoMemory(_) => return NoTable(page);
        case Mapped =>
          GrownStep(m0, m, State(), d, lo, pg);
          return Added;
      }
    }

    /** Freeing user pages does not touch a page in the kernel's hands. */
    lemma StillInHand(m: Phys, m4: Phys, d: nat, lo: nat, hi: nat, page: nat)
      requires Shrinks(m, m4, d, lo, hi) && page in m.owner && m.owner[page].Kernel?
      ensures page in m4.owner && m4.owner[page].Kernel?
    {
    }

    lemma FreeHead(m: Phys)
      requires Inv(m) && m.free != []
      ensures m.free[0] in m.owner
    {
      assert m.free[0] in m.free;
    }

    /** A page outside a run is mapped as before. */
    lemma NotMappedYet(m0: Phys, m: Phys, d: nat, lo: nat, pg: nat)
      requires Grown(m0, m, d, lo, pg) && pg < NPAGES
      ensures Pte(m.mem, d, pg) == Pte(m0.mem, d, pg)
    {
    }

    /** freevm: every page of the address space goes back to the free list. */
    method FreeVm(d: nat)
      requires Valid() && IsDir(State(), d)
      modifies this`mem, this`freelist, this`free, this`owner
      ensures Valid() && Dismantled(old(State()), State(), d)
    {
      hide FreeOk, DirOk, FrameOk, MapOk, Pte, TablesFreed, Dismantled, OnlyDirLeft;
      ghost var m0 := State();
      var _ := DeallocUvm(d, KERNBASE, 0);
      ghost var m1 := State();
      NoUserPages(m0, m1, d);
      DissolveKeeps(m1, d);
      owner := Dissolve(m1, d).owner;
      DissolvedTables(m1, d);
      hide Shrinks;
      for i := 0 to ENTRIES
        invariant Valid() && TablesFreed(m1, State(), d, i) && d < |mem| && mem[d] == m1.mem[d]
      {
        TablesFreedStep(m1, State(), d, i);
        if Present(mem[d][i]) {
          FreeTable(m1, d, i);
        }
        SameDir(m1, State(), d, i + 1);
      }
      TablesAllFreed(m0, m1, State(), d);
      DirInHand(m0, State(), d);
      DismantledAtLast(m0, State(), d);
      assert d * PGSIZE / PGSIZE == d;
      var ok := Kfree(d * PGSIZE);
    }

    method FreeTable(ghost m1: Phys, d: nat, i: nat)
      requires Valid() && Shape(m1) && d < NFRAMES && i < ENTRIES && mem[d] == m1.mem[d]
      requires FrameOf(mem[d][i]) in owner && owner[FrameOf(mem[d][i])].Kernel? && (free != [] ==> free[0] in owner)
      requires TablesFreed(m1, Give(State(), FrameOf(mem[d][i])), d, i + 1)
      modifies this`mem, this`freelist, this`free, this`owner
      ensures Valid() && TablesFreed(m1, State(), d, i + 1)
    {
      hide FreeOk, DirOk, FrameOk, MapOk, Pte, TablesFreed;
      var t := FrameOf(mem[d][i]);
      assert t * PGSIZE / PGSIZE == t;
      var ok := Kfree(t * PGSIZE);
    }

    lemma SameDir(m1: Phys, m: Phys, d: nat, i: nat)
      requires TablesFreed(m1, m, d, i)
      ensures d < |m.mem| && d < |m1.mem| && m.mem[d] == m1.mem[d]
    {
    }

    lemma DirInHand(m0: Phys, m: Phys, d: nat)
      requires OnlyDirLeft(m0, m, d)
      ensures d in m.owner && m.owner[d].Kernel? && d < NFRAMES
    {
    }

    lemma NoUserPages(m0: Phys, m1: Phys, d: nat)
      requires Shrinks(m0, m1, d, 0, UPAGES)
      ensures forall p | 0 <= p < UPAGES :: !Present(Pte(m1.mem, d, p))
    {
    }

    lemma DissolvedTables(m1: Phys, d: nat)
      requires Inv(m1) && IsDir(m1, d)
      ensures TablesFreed(m1, Dissolve(m1, d), d, 0)
    {
      hide Pte;
      var m := Dissolve(m1, d);
      assert forall f :: f in m.owner <==> f in m1.owner;
    }

    /** The tables the first k rows of kmap need at most. */
    function RowTables(data: nat, k: nat): (n: nat)
      requires EXTFRAME < data < NFRAMES && k <= 4
    {
      if k == 0 then 0 else RowTables(data, k - 1) + Tables(KmapRow(data, k - 1).pg, KmapRow(data, k - 1).n)
    }

    lemma RowTablesStep(data: nat, k: nat)
      requires EXTFRAME < data < NFRAMES && k < 4
      ensures RowTables(data, k) + Tables(KmapRow(data, k).pg, KmapRow(data, k).n) == RowTables(data, k + 1) < KVM_PAGES
    {
      assert RowTables(data, 1) == 1;
      assert RowTables(data, 2) == 1 + ((data - 1) / ENTRIES + 1);
      assert RowTables(data, 3) == RowTables(data, 2) + (56 - data / ENTRIES);
      assert RowTables(data, 4) == RowTables(data, 3) + 8;
    }

    lemma RowTablesNone(data: nat)
      requires EXTFRAME < data < NFRAMES
      ensures RowTables(data, 0) == 0
    {
    }

    /** setupkvm; 0 when memory runs out, and then every page is back on the free list. */
    method SetupKvm(data: nat) returns (d: nat)
      requires Valid() && EXTFRAME < data < NFRAMES
      modifies this`mem, this`freelist, this`free, this`owner
      ensures Valid()
      ensures d == 0 ==> Restored(old(State()), State())
      ensures d != 0 ==> Built(old(State()), State(), d) && d < NFRAMES
      ensures d != 0 ==> forall p | 0 <= p < NPAGES :: Pte(mem, d, p) == KernelEntry(data, p)
      ensures d != 0 ==> KernelHalf(mem, data, d) && forall p | 0 <= p < UPAGES :: Lookup(mem, d, p).None?
      ensures if d == 0 then |old(free)| < KVM_PAGES else |old(free)| <= |free| + KVM_PAGES
    {
      hide FreeOk, DirOk, FrameOk, MapOk, Pte, Built, MapsRun, Dismantled, Restored, Tables, RowTables, PageCount,
        KernelHalf;
      RowTablesNone(data);
      ghost var m0 := State();
      d := Kalloc();
      if d == 0 {
        NothingDone(m0);
        return;
      }
      BuiltStart(m0);
      mem := mem[d := ZeroPage()];
      owner := owner[d := Dir];
      assert State() == NewDir(Zeroed(m0), d);
      var k := 0;
      while k < 4
        invariant 0 <= k <= 4 && Valid() && IsDir(State(), d)
        invariant Built(m0, State(), d) && RowsMapped(State(), data, d, k)
        invariant |m0.free| <= |free| + 1 + RowTables(data, k) && RowTables(data, k) < KVM_PAGES
      {
        ghost var m := State();
        var row := KmapRow(data, k);
        RowTablesStep(data, k);
        RowFree(m, data, d, k);
        WholePages(row.pg, row.n);
        var r := MapPages(d, row.pg * PGSIZE, row.n * PGSIZE, row.f * PGSIZE, row.perm);
        if r.NoMemory? {
          BuiltByRun(m0, m, State(), d, row.pg, row.f, row.perm, r.done);
          ghost var m1 := State();
          FreeVm(d);
          BuiltThenDismantled(m0, m1, State(), d);
          return 0;
        }
        BuiltByRun(m0, m, State(), d, row.pg, row.f, row.perm, row.n);
        RunEntries(m, State(), d, row.pg, row.f, row.perm, row.n);
        RowMapped(m, State(), data, d, k);
        k := k + 1;
      }
      RowsMakeKernelHalf(mem, data, d);
    }

    lemma NothingDone(m: Phys)
      requires Shape(m)
      ensures Restored(m, m)
    {
    }

    lemma RunEntries(m: Phys, m': Phys, d: nat, pg: nat, f: nat, perm: nat, n: nat)
      requires Shape(m) && IsDir(m, d) && pg + n <= NPAGES && f + n <= NPAGES && perm < PGSIZE
               && MapsRun(m, m', d, pg, f, perm, n)
      ensures EntriesRun(m, m', d, pg, f, perm, n)
    {
    }

    /** The rows of kmap do not overlap. */
    lemma RowFree(m: Phys, data: nat, d: nat, k: nat)
      requires EXTFRAME < data < NFRAMES && k < 4 && RowsMapped(m, data, d, k)
      ensures forall p | KmapRow(data, k).pg <= p < KmapRow(data, k).pg + KmapRow(data, k).n ::
                !Present(Pte(m.mem, d, p))
    {
      hide Pte;
    }

    /** copyuvm of the first sz bytes of src. */
    method CopyUvm(src: nat, sz: nat, data: nat) returns (r: CopyResult)
      requires Valid() && IsDir(State(), src) && sz <= KERNBASE && EXTFRAME < data < NFRAMES
      modifies this`mem, this`freelist, this`free, this`owner
      ensures r.Panic? ==> exists p | 0 <= p < RoundUp(sz) :: Lookup(old(mem), src, p).None?
      ensures r.Copied? ==> Valid() && CopiedTo(old(State()), State(), data, src, r.d, RoundUp(sz))
      ensures r.Copied? ==> KernelHalf(mem, data, r.d)
      ensures r.OutOfMemory? ==> Valid() && Restored(old(State()), State()) && |old(free)| < KVM_PAGES + 2 * RoundUp(sz)
    {
      hide FreeOk, DirOk, FrameOk, MapOk, Pte, Built, MapsRun, Dismantled, Restored, KernelHalf;
      ghost var m0 := State();
      var d := SetupKvm(data);
      if d == 0 {
        return OutOfMemory;
      }
      CopiedStart(m0, State(), data, src, d);
      var i := 0;
      while i < sz
        invariant Valid() && i % PGSIZE == 0 && i / PGSIZE <= RoundUp(sz) && IsDir(State(), d)
        invariant CopiedTo(m0, State(), data, src, d, i / PGSIZE)
        invariant |m0.free| <= |free| + KVM_PAGES + 2 * (i / PGSIZE)
        decreases sz - i
      {
        var pg := i / PGSIZE;
        ghost var m := State();
        SourceKept(m0, m, src, d, pg);
        var t := Walk(src, pg, false);
        if t == 0 || !Present(mem[t][pg % ENTRIES]) {
          assert Lookup(m0.mem, src, pg).None?;
          return Panic;
        }
        var done := CopyPage(m0, src, d, pg, mem[t][pg % ENTRIES], data);
        if !done {
          ghost var m1 := State();
          FreeVm(d);
          BuiltThenDismantled(m0, m1, State(), d);
          return OutOfMemory;
        }
        i := i + PGSIZE;
      }
      RowsMakeKernelHalf(mem, data, d);
      return Copied(d);
    }

    /** One turn of copyuvm's loop, past the checks; false is `goto bad`. */
    method CopyPage(ghost m0: Phys, ghost src: nat, d: nat, pg: nat, pte: Word, data: nat) returns (done: bool)
      requires Valid() && Inv(m0) && IsDir(m0, src) && IsDir(State(), d) && EXTFRAME < data < NFRAMES && pg < UPAGES
      requires CopiedTo(m0, State(), data, src, d, pg) && Present(pte) && pte == Pte(m0.mem, src, pg)
               && FrameOf(pte) < NFRAMES
      requires mem[FrameOf(pte)] == m0.mem[FrameOf(pte)]
      modifies this`mem, this`freelist, this`free, this`owner
      ensures Valid() && IsDir(State(), d)
      ensures done ==> CopiedTo(m0, State(), data, src, d, pg + 1)
      ensures !done ==> Built(m0, State(), d)
      ensures if done then |old(free)| <= |free| + 2 else |old(free)| < 2
    {
      hide FreeOk, DirOk, FrameOk, MapOk, Pte, Built, MapsRun, Keeps;
      ghost var m := State();
      var page := Kalloc();
      if page == 0 {
        return false;
      }
      ghost var copy := mem[FrameOf(pte)];
      TakenFullKeeps(m, copy);
      NotCopiedYet(m0, m, data, src, d, pg);
      mem := mem[page := mem[FrameOf(pte)]];
      assert State() == TakenFull(m, copy);
      WholePages(pg, 1);
      var r := MapPages(d, pg * PGSIZE, PGSIZE, page * PGSIZE, FlagsOf(pte));
      if r.NoMemory? {
        assert page * PGSIZE / PGSIZE == page;
        HandBack(m0, m, copy, d);
        var ok := Kfree(page * PGSIZE);
        return false;
      }
      BuiltByCopy(m0, m, State(), d, pg, copy, FlagsOf(pte));
      RunEntries(TakenFull(m, copy), State(), d, pg, page, FlagsOf(pte), 1);
      CopiedStep(m0, m, State(), data, src, d, pg, copy);
      return true;
    }

    lemma NotCopiedYet(m0: Phys, m: Phys, data: nat, src: nat, d: nat, pg: nat)
      requires EXTFRAME < data < NFRAMES && pg < UPAGES && CopiedTo(m0, m, data, src, d, pg)
      ensures !Present(Pte(m.mem, d, pg))
    {
    }

    /** The page in hand goes back. */
    lemma HandBack(m0: Phys, m: Phys, copy: Page, d: nat)
      requires Built(m0, m, d) && Inv(m) && m.free != [] && m.free[0] < NFRAMES && m.free[0] in m.owner
               && m.owner[m.free[0]].Free?
      requires Inv(TakenFull(m, copy))
      ensures TakenFull(m, copy).free != [] ==> TakenFull(m, copy).free[0] in TakenFull(m, copy).owner
      ensures Built(m0, Give(TakenFull(m, copy), m.free[0]), d)
    {
      var m2 := TakenFull(m, copy);
      if m2.free != [] { assert m2.free[0] in m2.free; }
      hide Inv;
      var r := Give(m2, m.free[0]);
      assert forall f :: f in r.owner <==> f in m.owner;
    }

    lemma CopiedStart(m0: Phys, m: Phys, data: nat, src: nat, d: nat)
      requires EXTFRAME < data < NFRAMES && Built(m0, m, d) && src < NFRAMES && d < NFRAMES
      requires forall p | 0 <= p < NPAGES :: Pte(m.mem, d, p) == KernelEntry(data, p)
      ensures CopiedTo(m0, m, data, src, d, 0) && IsDir(m, d)
    {
    }

    /** The parent's page is where it was and holds what it held. */
    lemma SourceKept(m0: Phys, m: Phys, src: nat, d: nat, pg: nat)
      requires Inv(m0) && Inv(m) && IsDir(m0, src) && Built(m0, m, d) && pg < UPAGES
      ensures IsDir(m, src) && Pte(m.mem, src, pg) == Pte(m0.mem, src, pg)
      ensures Present(Pte(m0.mem, src, pg)) ==>
                var f := FrameOf(Pte(m0.mem, src, pg)); f < NFRAMES && m.mem[f] == m0.mem[f]
    {
      assert m.owner[src] == m0.owner[src];
      assert FrameOk(m0, src);
      PteFrame(m0, m.mem, src, pg);
      assert MapOk(m0, src, pg);
    }
  }
}
