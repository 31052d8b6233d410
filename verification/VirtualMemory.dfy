/** The functions of vm.c over the kernel's physical memory. */
module VirtualMemory {
  import opened PageTable
  import opened AddressSpace
  import opened SpaceGrowth
  import opened NewSpaces

  // What mappages comes to: all mapped, no memory for a page table, or the panic "remap".
  datatype MapResult = Done | NoMemory | Remap

  // What copyuvm comes to: all copied, no memory, or the panic for a page that is missing.
  datatype CopyResult = Whole | OutOfPages | Missing

  lemma LastPage(va: nat, size: nat)
    requires 0 < size && va + size <= WORD
    ensures Up(va + size) == (va + size - 1) / PGSIZE + 1 && va / PGSIZE <= (va + size - 1) / PGSIZE < ENTRIES * ENTRIES
  {
  }

  lemma PageBounds(v: nat)
    requires v < USERPAGES
    ensures v * PGSIZE / PGSIZE == v && Up(v * PGSIZE + PGSIZE) == v + 1 && v * PGSIZE + PGSIZE <= WORD
  {
  }

  lemma OnePageMissing(m: Mem, g: Page)
    requires Within(m, g, 1) && !Contiguous(m, g, 1)
    ensures FirstHole(m.tables, g, 1) == 0
  {
    var v: nat :| v < USERPAGES && (Mapped(m.tables, g, v) != (v < 1));
    assert V(m, g, v) == V(m, g, v);
  }

  function Least(a: nat, b: nat): nat { if a < b then a else b }

  class Vm {
    var tables: Tables
    var data: map<Page, Bytes>
    var free: set<Page>
    ghost var owner: Owners

    ghost function M(): Mem
      reads this
    {
      Mem(tables, data, owner, free)
    }

    ghost predicate Valid()
      reads this
    {
      Good(M())
    }

    // The allocator's free pages, and no address space yet.
    constructor (free: set<Page>)
      requires 0 !in free
      ensures Valid() && this.free == free && owner == map[]
    {
      this.tables, this.data, this.free, this.owner := map[], map[], free, map[];
      new;
      ghost var m := M();
      forall p ensures OwnAt(m.tables, m.owner, p) {}
      forall p ensures DataAt(m, p) {}
    }

    method Kalloc() returns (ok: bool, p: Page)
      modifies this`free
      ensures ok == (old(free) != {})
      ensures if ok then p in old(free) && free == old(free) - {p} else p == 0 && free == old(free)
    {
      if free == {} {
        return false, 0;
      }
      p :| p in free;
      ok, free := true, free - {p};
    }

    method Kfree(p: Page)
      requires p !in free && p != 0
      modifies this`free
      ensures free == old(free) + {p}
    {
      free := free + {p};
    }

    // The page table for virtual page v.
    method Walkpgdir(g: Page, v: nat, alloc: bool) returns (found: bool, pgtab: Page)
      requires Valid() && IsRoot(owner, g) && v < ENTRIES * ENTRIES
      modifies this`tables, this`free, this`owner
      ensures Valid() && IsRoot(owner, g)
      ensures found ==> DirPresent(tables, g, PDX(v)) && tables[g][PDX(v)].page == pgtab && Full(tables, pgtab)
      ensures !alloc || !found ==> M() == old(M()) && found == DirPresent(tables, g, PDX(v))
      ensures alloc ==> found == (old(DirPresent(tables, g, PDX(v))) || old(free) != {})
      ensures alloc && found ==> TableFor(old(M()), M(), g, PDX(v))
      ensures old(DirPresent(tables, g, PDX(v))) ==> M() == old(M())
    {
      ghost var m := M();
      assert Full(tables, g) by { assert GoodAt(m, 0) && OwnAt(tables, owner, g); }
      var d := PDX(v);
      if P in tables[g][d].flags {
        assert GoodAt(m, 0);
        TableOf(tables, owner, g, d);
        TableThere(m, g, d);
        return true, tables[g][d].page;
      }
      if !alloc {
        return false, 0;
      }
      var ok, p := Kalloc();
      if !ok {
        return false, 0;
      }
      TableMade(m, g, d, p);
      tables := tables[p := seq(ENTRIES, _ => EMPTY)];
      tables := tables[g := tables[g][d := Pte(p, {P, W, U})]];
      owner := owner[p := Own(g, Table(d))];
      assert M() == WithTable(m, g, d, p);
      return true, p;
    }

    // One turn of the loop of mappages.
    method MapPage(g: Page, v: nat, pa: Page, perm: set<Flag>) returns (r: MapResult)
      requires Valid() && IsRoot(owner, g) && v < ENTRIES * ENTRIES && (v < USERPAGES ==> InTransit(M(), pa))
      modifies this`tables, this`free, this`owner
      ensures Valid() && IsRoot(owner, g)
      ensures r.Remap? <==> old(Mapped(tables, g, v))
      ensures r.NoMemory? <==> !old(DirPresent(tables, g, PDX(v))) && old(free) == {}
      ensures if r.Done? then Ranged(old(M()), M(), g, v, v + 1, pa, perm) else M() == old(M())
    {
      ghost var m := M();
      var found, pgtab := Walkpgdir(g, v, true);
      if !found {
        return NoMemory;
      }
      ghost var n := M();
      TableKeeps(m, n, g, v, pa);
      if P in tables[pgtab][PTX(v)].flags {
        assert Mapped(m.tables, g, v);
        return Remap;
      }
      var e := Pte(pa, perm + {P});
      RangedOne(m, n, g, v, pa, perm);
      tables := tables[pgtab := tables[pgtab][PTX(v) := e]];
      if v < USERPAGES {
        owner := owner[pa := Own(g, User(v))];
      }
      assert M() == WithPte(n, g, v, e);
      RangedMaps(m, M(), g, v, v + 1, pa, perm);
      r := Done;
    }

    /**
     Maps the pages that va .. va + size touches to the physical pages from pa on. b is the first page
     it did not map: the end of the range, a page that was mapped before, on which the kernel panics,
     or the first that needs a page table when no page is free. Only page tables take memory.
     */
    method Mappages(g: Page, va: nat, size: nat, pa: Page, perm: set<Flag>) returns (r: MapResult, ghost b: nat)
      requires Valid() && IsRoot(owner, g) && size > 0 && va + size <= WORD
      requires forall v: nat {:trigger Mapped(tables, g, v)} ::
                 va / PGSIZE <= v < Up(va + size) && v < USERPAGES ==> InTransit(M(), pa + (v - va / PGSIZE))
      modifies this`tables, this`free, this`owner
      ensures Valid() && IsRoot(owner, g) && Ranged(old(M()), M(), g, va / PGSIZE, b, pa, perm)
      ensures va / PGSIZE <= b && (if r.Done? then b == Up(va + size) else b < Up(va + size))
      ensures forall v: nat {:trigger Mapped(old(tables), g, v)} :: va / PGSIZE <= v < b ==> !Mapped(old(tables), g, v)
      ensures r.Remap? ==> Mapped(old(tables), g, b)
      ensures r.NoMemory? ==> free == {} && Opens(old(tables), g, va / PGSIZE, b)
    {
      var a, last := va / PGSIZE, (va + size - 1) / PGSIZE;
      LastPage(va, size);
      ghost var m := M();
      var v := a;
      RangedNone(m, g, a, pa, perm);
      while true
        invariant a <= v <= last && Valid() && IsRoot(owner, g) && Ranged(m, M(), g, a, v, pa, perm)
        invariant forall w: nat {:trigger Mapped(m.tables, g, w)} :: a <= w < v ==> !Mapped(m.tables, g, w)
        decreases last - v
      {
        ghost var n := M();
        RangedNext(m, n, g, a, v, pa, perm);
        r := MapPage(g, v, pa + (v - a), perm);
        if !r.Done? {
          return r, v;
        }
        RangedOn(m, n, M(), g, a, v, pa, perm);
        if v == last {
          return Done, v + 1;
        }
        v := v + 1;
      }
    }

    // ---------- Shrinking and tearing down ----------

    // The page of one entry is freed and the entry cleared.
    method ClearPte(g: Page, a: nat, pgtab: Page, ghost m: Mem, ghost start: nat)
      requires Valid() && IsRoot(owner, g) && Good(m) && IsRoot(m.owner, g) && start <= a < USERPAGES
      requires Clears(m, M(), g, start, a) && !Skipped(m.tables, g, start, a)
      requires DirPresent(tables, g, PDX(a)) && tables[g][PDX(a)].page == pgtab && Full(tables, pgtab)
      requires P in tables[pgtab][PTX(a)].flags
      modifies this`tables, this`free, this`owner
      ensures Valid() && IsRoot(owner, g) && Clears(m, M(), g, start, a + 1)
    {
      ghost var n := M();
      ClearOne(m, n, g, start, a);
      var p := tables[pgtab][PTX(a)].page;
      Kfree(p); // panic("kfree") is not reached: page 0 is never handed out
      tables := tables[pgtab := tables[pgtab][PTX(a) := EMPTY]];
      owner := owner - {p};
      assert M() == WithoutPte(n, g, a);
    }

    // One turn of the loop of deallocuvm: where the scan goes from virtual page a.
    method Scan(g: Page, a: nat, ghost m: Mem, ghost start: nat, ghost end: nat) returns (next: nat)
      requires Valid() && IsRoot(owner, g) && Good(m) && IsRoot(m.owner, g) && start <= a < end <= USERPAGES
      requires Clears(m, M(), g, start, a) && Position(m.tables, g, start, a)
      modifies this`tables, this`free, this`owner
      ensures Valid() && IsRoot(owner, g) && a < next
      ensures Clears(m, M(), g, start, Least(next, end)) && Position(m.tables, g, start, next)
    {
      ghost var n := M();
      StepPosition(m.tables, g, start, a);
      next := a + 1;
      var found, pgtab := Walkpgdir(g, a, false);
      if !found {
        ClearNothing(m, n, g, start, a, Least(a + ENTRIES, end));
        next := a + ENTRIES;
      } else if P in tables[pgtab][PTX(a)].flags {
        ClearPte(g, a, pgtab, m, start);
      } else {
        ClearNothing(m, n, g, start, a, a + 1);
      }
    }

    method Deallocuvm(g: Page, oldsz: nat, newsz: nat) returns (r: nat)
      requires Valid() && IsRoot(owner, g) && oldsz <= KERNBASE
      modifies this`tables, this`free, this`owner
      ensures Valid() && IsRoot(owner, g) && r == if newsz >= oldsz then oldsz else newsz
      ensures newsz < oldsz ==> Clears(old(M()), M(), g, Up(newsz), Up(oldsz))
      ensures newsz >= oldsz ==> M() == old(M())
    {
      if newsz >= oldsz {
        return oldsz;
      }
      ghost var m, start, end := M(), Up(newsz), Up(oldsz);
      var a := Up(newsz);
      StartClear(m, g, a);
      while a * PGSIZE < oldsz
        invariant start <= a && Valid() && IsRoot(owner, g) && Position(m.tables, g, start, a)
        invariant Clears(m, M(), g, start, Least(a, end))
        decreases oldsz - a * PGSIZE
      {
        a := Scan(g, a, m, start, end);
      }
      r := newsz;
    }

    // Frees a page directory and its tables once no user page is left.
    method FreeTables(g: Page)
      requires Valid() && IsRoot(owner, g)
      requires forall p :: p in owner && owner[p].space == g ==> !owner[p].role.User?
      modifies this`free, this`owner
      ensures Valid() && owner == Without(old(owner), g) && free == old(free) + Of(old(owner), g)
    {
      ghost var m := M();
      assert GoodAt(m, 0);
      GiveBack(m, g);
      owner := Without(owner, g);
      var i := 0;
      assert OwnAt(m.tables, m.owner, g);
      while i < ENTRIES
        invariant i <= ENTRIES && owner == Without(m.owner, g)
        invariant free == m.free + (set p | p in m.owner && m.owner[p].space == g && m.owner[p].role.Table?
          && m.owner[p].role.d < i)
      {
        if P in tables[g][i].flags {
          TableOf(m.tables, m.owner, g, i);
          Kfree(tables[g][i].page);
        }
        assert forall p :: p in m.owner && m.owner[p] == Own(g, Table(i)) ==> OwnAt(m.tables, m.owner, p);
        i := i + 1;
      }
      forall p | p in m.owner && m.owner[p].space == g
        ensures p == g || (m.owner[p].role.Table? && m.owner[p].role.d < ENTRIES)
      {
        assert OwnAt(m.tables, m.owner, p);
      }
      Kfree(g);
      assert M() == m.(owner := Without(m.owner, g), free := m.free + Of(m.owner, g));
    }

    /** Everything the address space took goes back to the allocator, contiguous or not. */
    method Freevm(g: Page)
      requires Valid() && IsRoot(owner, g)
      modifies this`tables, this`free, this`owner
      ensures Valid() && owner == Without(old(owner), g) && free == old(free) + Of(old(owner), g)
      ensures Keeps(old(M()), M(), g)
    {
      ghost var m := M();
      var _ := Deallocuvm(g, KERNBASE, 0);
      ghost var n := M();
      ClearedFirst(m, n, g);
      FreeTables(g);
      forall p ensures KeepsAt(m, M(), g, p) { assert KeepsAt(m, n, g, p); }
    }

    // ---------- Building and growing ----------

    // One row of the kernel's table.
    method MapRow(g: Page, dataAddr: nat, k: nat) returns (ok: bool)
      requires Valid() && Linked(dataAddr) && IsRoot(owner, g) && k < 4
      requires HasRows(M(), g, Kmap(dataAddr), k) && RowDirs(M(), g, dataAddr / PGSIZE, k)
      modifies this`tables, this`free, this`owner
      ensures Valid() && IsRoot(owner, g) && From(old(M()), M(), g, {}, {})
      ensures var D := dataAddr / PGSIZE;
        && (ok <==> |old(free)| >= RowCount(D, k + 1) - RowCount(D, k))
        && (ok ==> HasRows(M(), g, Kmap(dataAddr), k + 1) && RowDirs(M(), g, D, k + 1))
        && (ok ==> |free| == |old(free)| - (RowCount(D, k + 1) - RowCount(D, k)))
      ensures free <= old(free) && (!ok ==> free == {})
    {
      ghost var n := M();
      var r := Kmap(dataAddr)[k];
      RowFits(dataAddr, k);
      var res;
      ghost var b;
      res, b := Mappages(g, r.virt, Size(r), r.start / PGSIZE, r.perm);
      ok := res.Done?;
      if !ok { RowNotMapped(n, g, dataAddr, k, b); }
      RowDone(n, M(), g, dataAddr, k, b, ok);
    }

    // The rows of the kernel's table, one mappages each.
    method MapKernel(g: Page, dataAddr: nat) returns (ok: bool)
      requires Valid() && Linked(dataAddr) && IsRoot(owner, g) && HasRows(M(), g, Kmap(dataAddr), 0)
      requires RowDirs(M(), g, dataAddr / PGSIZE, 0)
      modifies this`tables, this`free, this`owner
      ensures Valid() && IsRoot(owner, g) && From(old(M()), M(), g, {}, {}) && free <= old(free)
      ensures ok <==> |old(free)| >= KTABLES
      ensures ok ==>
        HasRows(M(), g, Kmap(dataAddr), 4) && RowDirs(M(), g, dataAddr / PGSIZE, 4) && |free| == |old(free)| - KTABLES
      ensures !ok ==> free == {}
    {
      ghost var m, D := M(), dataAddr / PGSIZE;
      var ks, k := Kmap(dataAddr), 0;
      FromSelf(m, g);
      while k < |ks|
        invariant k <= 4 && Valid() && IsRoot(owner, g) && HasRows(M(), g, ks, k) && RowDirs(M(), g, D, k)
        invariant From(m, M(), g, {}, {}) && free <= m.free && |free| + RowCount(D, k) == |m.free|
      {
        ghost var n := M();
        ok := MapRow(g, dataAddr, k);
        FromOn(m, n, M(), g, {}, {}, {}, {});
        if !ok {
          RowCountGrows(dataAddr, k + 1);
          return;
        }
        k := k + 1;
      }
      ok := true;
    }

    /**
     Succeeds exactly with KPAGES free pages or more, and takes KPAGES of them. When it fails every
     free page has gone into the page directory and tables that it then drops.
     */
    method Setupkvm(dataAddr: nat) returns (ok: bool, g: Page, ghost leaked: set<Page>)
      requires Valid() && Linked(dataAddr)
      modifies this`tables, this`free, this`owner
      ensures Valid() && (ok <==> |old(free)| >= KPAGES)
      ensures ok ==> leaked == {} && NewSpace(old(M()), M(), g, dataAddr)
      ensures !ok ==> owner == old(owner) && free == {} && leaked == old(free) && Keeps(old(M()), M(), g)
    {
      ghost var m := M();
      leaked := {};
      ok, g := Kalloc();
      if !ok {
        forall p ensures KeepsAt(m, m, g, p) {}
        return;
      }
      RootStep(m, g);
      tables := tables[g := seq(ENTRIES, _ => EMPTY)];
      owner := owner[g := Own(g, Root)];
      ghost var n := M();
      assert n == WithRoot(m, g);
      StartRows(n, g, dataAddr);
      ok := MapKernel(g, dataAddr);
      ghost var k := M();
      KernelBuilt(m, k, g, dataAddr, ok);
      if !ok {
        // The page directory and the tables made so far are lost.
        leaked := Of(owner, g);
        owner := Without(owner, g);
      }
    }

    // mappages for one page that is not mapped.
    method MapSingle(g: Page, v: nat, mem: Page, perm: set<Flag>) returns (mapped: bool)
      requires Valid() && IsRoot(owner, g) && v < USERPAGES && !Mapped(tables, g, v) && InTransit(M(), mem)
      modifies this`tables, this`free, this`owner
      ensures Valid() && IsRoot(owner, g)
      ensures mapped <==> old(DirPresent(tables, g, PDX(v))) || old(free) != {}
      ensures mapped ==> Ranged(old(M()), M(), g, v, v + 1, mem, perm)
      ensures !mapped ==> Ranged(old(M()), M(), g, v, v, mem, perm) && free == {} && Opens(old(tables), g, v, v)
    {
      ghost var n := M();
      PageBounds(v);
      var r;
      ghost var b;
      r, b := Mappages(g, v * PGSIZE, PGSIZE, mem, perm);
      mapped := r.Done?;
      RangedMaps(n, M(), g, v, b, mem, perm);
    }

    // kalloc, fill and mappages for one page; a page that could not be mapped is lost.
    method AddPage(g: Page, v: nat, bytes: Bytes, perm: set<Flag>) returns (ok: bool, mapped: bool, mem: Page)
      requires Valid() && IsRoot(owner, g) && v < USERPAGES && !Mapped(tables, g, v)
      modifies this
      ensures Valid() && IsRoot(owner, g)
      ensures ok <==> old(free) != {}
      ensures mapped <==> |old(free)| >= if old(DirPresent(tables, g, PDX(v))) then 1 else 2
      ensures !ok ==> M() == old(M()) && !mapped
      ensures mapped ==> Added(old(M()), M(), g, v, mem, bytes, perm)
      ensures ok && !mapped ==> LostPage(old(M()), M(), g, v, mem, bytes)
    {
      ghost var m := M();
      ok, mem := Kalloc();
      mapped := false;
      if !ok {
        return;
      }
      PageStep(m, g, mem, bytes);
      data := data[mem := bytes];
      ghost var n := M();
      assert n == WithPage(m, mem, bytes);
      mapped := MapSingle(g, v, mem, perm);
      if mapped {
        AddedStep(m, M(), g, v, mem, bytes, perm);
        assert AddedAt(m, M(), g, v, mem, bytes, perm, 0);
      } else {
        LostPageStep(m, M(), g, v, mem, bytes, perm);
        assert LostPageAt(m, M(), g, v, mem, bytes, 0);
      }
    }

    /**
     Grows g with zeroed pages, or takes back what it had added when memory runs out. It succeeds when
     the free pages cover what the range needs. The result of mappages is ignored: a page for which no
     page table could be had is lost, and when it was the last one the call still reports success.
     */
    method Allocuvm(g: Page, oldsz: nat, newsz: nat) returns (r: nat, ghost leaked: set<Page>)
      requires Valid() && IsRoot(owner, g)
      requires newsz < KERNBASE ==>
                 forall v: nat {:trigger Mapped(tables, g, v)} :: Up(oldsz) <= v < Up(newsz) ==> !Mapped(tables, g, v)
      modifies this
      ensures Valid() && IsRoot(owner, g) && From(old(M()), M(), g, {}, leaked) && |leaked| <= 1
      ensures newsz >= KERNBASE || newsz < oldsz ==>
                M() == old(M()) && leaked == {} && r == if newsz >= KERNBASE then 0 else oldsz
      ensures oldsz <= newsz < KERNBASE ==>
                var t, a, b, pages := old(tables), Up(oldsz), Up(newsz), |old(free)|;
                && (leaked != {} <==> Loses(t, g, a, b, pages))
                && (r == newsz <==> pages >= Need(t, g, a, b) || LosesLast(t, g, a, b, pages))
                && (if r == newsz then Grows(old(M()), M(), g, a, if LosesLast(t, g, a, b, pages) then b - 1 else b)
                    else r == 0 && Same(old(M()), M(), g))
    {
      ghost var m, start, end := M(), Up(oldsz), Up(newsz);
      leaked := {};
      FromSelf(m, g);
      if newsz >= KERNBASE {
        return 0, {};
      }
      if newsz < oldsz {
        return oldsz, {};
      }
      var v := Up(oldsz);
      ghost var b, page := v, 0;
      GrownNone(m, g, start);
      while v * PGSIZE < newsz
        invariant start <= v <= end && Valid() && IsRoot(owner, g)
        invariant leaked == {} ==> b == v && Grown(m, M(), g, start, v)
        invariant leaked != {} ==> start <= b == v - 1 && leaked == {page} && CutShort(m, M(), g, start, b, page)
        decreases newsz - v * PGSIZE
      {
        ghost var n := M();
        StillUnmapped(m, n, g, start, b, v, page, leaked == {});
        assert !Mapped(m.tables, g, v);
        var ok, mapped, mem := AddPage(g, v, ZeroPage(), {W, U});
        if !ok {
          var _ := Deallocuvm(g, newsz, oldsz);
          if leaked == {} {
            NoneLeft(m, n, M(), g, start, v, end);
          } else {
            CutBack(m, n, M(), g, start, b, page, end);
          }
          return 0, leaked;
        }
        if mapped {
          GrownOn(m, n, M(), g, start, v, mem);
          b := v + 1;
        } else {
          leaked, page := {mem}, mem;
          GrownLost(m, n, M(), g, start, v, mem);
        }
        v := v + 1;
      }
      if leaked == {} {
        GrownNext(m, M(), g, start, v);
        EnoughLosesNone(m.tables, g, start, v, end, |m.free|);
      } else {
        CutShortIs(m, M(), g, start, b, page);
        LostAt(m.tables, g, start, b, end, |m.free|);
      }
      r := newsz;
    }

    // copyuvm's look at page v: its entry, or one of the two panics.
    method PageAt(g: Page, v: nat) returns (present: bool, e: Pte)
      requires Valid() && IsRoot(owner, g) && v < USERPAGES
      modifies this`tables, this`free, this`owner
      ensures M() == old(M()) && present == Mapped(tables, g, v) && (present ==> e == V(M(), g, v))
    {
      var found, pgtab := Walkpgdir(g, v, false);
      if !found { return false, EMPTY; }
      e := tables[pgtab][PTX(v)];
      present := P in e.flags;
    }

    /**
     fork's copy of an address space: the same bytes and permissions below sz in pages of the child's
     own, the parent untouched. Up to the first page that is missing below sz, the free pages have to
     cover the child's: if they do not, it fails, and when it fails for want of the kernel's part every
     free page is lost, and otherwise at most one is; if they do and a page is missing, it panics.
     */
    method Copyuvm(g: Page, sz: nat, dataAddr: nat) returns (r: CopyResult, d: Page, ghost leaked: set<Page>)
      requires Valid() && IsRoot(owner, g) && Linked(dataAddr) && sz <= KERNBASE
      modifies this
      ensures Valid() && Keeps(old(M()), M(), d)
      ensures var hole := FirstHole(old(tables), g, Up(sz));
        && r == (if |old(free)| < KPAGES + UserPages(hole) then OutOfPages
                 else if hole < Up(sz) then Missing else Whole)
        && (|old(free)| >= KPAGES ==> |leaked| <= 1 && (leaked != {} <==> FreshLoses(hole, |old(free)| - KPAGES)))
      ensures r.Whole? ==>
        leaked == {} && d in old(free) && IsRoot(owner, d) && Without(owner, d) == old(owner)
          && Pages(M()) == old(Pages(M()))
      ensures r.Whole? ==> Copies(old(M()), M(), g, d, Up(sz)) && HasKernel(M(), d, Kmap(dataAddr))
      ensures r.OutOfPages? ==> owner == old(owner) && free + leaked == old(free) && leaked !! free
      ensures r.OutOfPages? && |old(free)| < KPAGES ==> leaked == old(free)
    {
      ghost var m, end := M(), Up(sz);
      ghost var hole := FirstHole(m.tables, g, end);
      var ok;
      ok, d, leaked := Setupkvm(dataAddr);
      r := OutOfPages;
      if !ok {
        return;
      }
      ghost var built := M();
      StartCopied(m, built, g, d, dataAddr);
      var v := 0;
      while v * PGSIZE < sz
        invariant v <= hole && leaked == {} && Valid() && Copied(m, built, M(), g, d, v, dataAddr)
        decreases sz - v * PGSIZE
      {
        ghost var n := M();
        assert v < hole ==> Mapped(m.tables, g, v);
        CopiedNext(m, built, n, g, d, v, dataAddr);
        var present, e := PageAt(g, v);
        if !present {
          CopyMissing(m, built, n, g, d, v, dataAddr);
          return Missing, d, {};
        }
        var bytes := data[e.page];
        var got, mapped, mem := AddPage(d, v, bytes, e.flags);
        if !mapped {
          ghost var k := M();
          if got {
            leaked := {mem};
            CopyLost(m, built, n, k, g, d, v, hole, mem, bytes, dataAddr);
          } else {
            CopyStopped(m, built, n, g, d, v, hole, dataAddr);
          }
          Freevm(d);
          GivenUp(m, k, M(), d, leaked);
          return OutOfPages, d, leaked;
        }
        CopiedOn(m, built, n, M(), g, d, v, mem, bytes, e.flags, dataAddr);
        v := v + 1;
      }
      CopyDone(m, built, M(), g, d, end, dataAddr);
      r := Whole;
    }

    // growproc by a positive amount.
    method GrowTo(g: Page, sz: nat, to: nat) returns (r: nat, ghost leaked: set<Page>)
      requires Valid() && IsRoot(owner, g) && sz < KERNBASE && Within(M(), g, Up(sz)) && sz < to < 2 * KERNBASE
      modifies this
      ensures Valid() && IsRoot(owner, g) && From(old(M()), M(), g, {}, leaked) && r < KERNBASE
      ensures r == if to < KERNBASE && CanGrow(old(M()), g, Up(sz), Up(to)) then to else 0
      ensures leaked != {} <==> to < KERNBASE && Loses(old(tables), g, Up(sz), Up(to), |old(free)|)
      ensures Within(M(), g, Up(if r == 0 then sz else r))
      ensures old(Contiguous(M(), g, Up(sz))) ==>
        (Contiguous(M(), g, Up(if r == 0 then sz else r))
         <==> !(to < KERNBASE && LosesLast(old(tables), g, Up(sz), Up(to), |old(free)|)))
    {
      ghost var m := M();
      forall v: nat | Up(sz) <= v < USERPAGES ensures !Mapped(tables, g, v) { assert V(m, g, v) == V(m, g, v); }
      r, leaked := Allocuvm(g, sz, to);
      ghost var whole := to >= KERNBASE || !LosesLast(m.tables, g, Up(sz), Up(to), |m.free|);
      GrownWithin(m, M(), g, sz, to, r, whole);
      if Contiguous(m, g, Up(sz)) { GrownSize(m, M(), g, sz, to, r, whole); }
    }

    // growproc by a negative amount: past zero, sz + n wraps to more than sz and nothing happens.
    method ShrinkBy(g: Page, sz: nat, n: int) returns (r: nat)
      requires Valid() && IsRoot(owner, g) && sz < KERNBASE && Within(M(), g, Up(sz)) && -KERNBASE <= n < 0
      modifies this
      ensures Valid() && IsRoot(owner, g) && From(old(M()), M(), g, {}, {}) && r == if sz + n < 0 then sz else sz + n
      ensures Within(M(), g, Up(sz))
      ensures Within(M(), g, Up(r)) <==> !(0 <= sz + n && Jumps(old(M()), g, Up(sz + n), Up(sz)))
      ensures old(Contiguous(M(), g, Up(sz))) ==>
        Contiguous(M(), g, Up(r)) && (r == 0 < sz ==> !Contiguous(M(), g, Up(sz)))
    {
      ghost var m := M();
      FromSelf(m, g);
      r := Deallocuvm(g, sz, (sz + n) % WORD);
      if 0 <= sz + n {
        ShrunkWithin(m, M(), g, sz, sz + n);
        FromCleared(m, m, M(), g, {}, Up(sz + n), Up(sz));
      }
    }

    /**
     No page of a process lies above its size, unless deallocuvm jumps one. Its pages stay all those
     below its size, with two exceptions. One is that the free pages are one short and the last page is
     the first to need its page table: allocuvm loses it and reports success. The other is shrinking to
     size 0: the pages go, but growproc takes the new size for an error and leaves the recorded size.
     */
    method Growproc(g: Page, sz: nat, n: int) returns (ok: bool, newsz: nat, ghost leaked: set<Page>)
      requires Valid() && IsRoot(owner, g) && sz < KERNBASE && Within(M(), g, Up(sz)) && -KERNBASE <= n < KERNBASE
      modifies this
      ensures Valid() && IsRoot(owner, g) && From(old(M()), M(), g, {}, leaked) && newsz < KERNBASE
      ensures ok <==> n == 0 || (if n < 0 then (if sz + n < 0 then sz else sz + n) != 0
                                 else sz + n < KERNBASE && CanGrow(old(M()), g, Up(sz), Up(sz + n)))
      ensures ok ==> newsz == if sz + n < 0 then sz else sz + n
      ensures !ok ==> newsz == sz
      ensures leaked != {} <==> n > 0 && sz + n < KERNBASE && Loses(old(tables), g, Up(sz), Up(sz + n), |old(free)|)
      ensures Within(M(), g, Up(newsz)) <==> !(n < 0 && sz + n > 0 && Jumps(old(M()), g, Up(sz + n), Up(sz)))
      ensures old(Contiguous(M(), g, Up(sz))) ==>
              (Contiguous(M(), g, Up(newsz)) <==>
                && !(n > 0 && sz + n < KERNBASE && LosesLast(old(tables), g, Up(sz), Up(sz + n), |old(free)|))
                && !(n < 0 && sz + n == 0))
    {
      leaked, newsz := {}, sz;
      FromSelf(M(), g);
      if n > 0 {
        newsz, leaked := GrowTo(g, sz, sz + n);
      } else if n < 0 {
        newsz := ShrinkBy(g, sz, n);
      }
      ok := n == 0 || newsz != 0;
      if !ok {
        newsz := sz;
      }
    }

    /**
     It does happen: with one page more than the kernel's part, a new process grows by a page that it
     does not get.
     */
    method LoseLastPage(dataAddr: nat) returns (g: Page, ghost leaked: set<Page>)
      requires Valid() && Linked(dataAddr) && |free| == KPAGES + 1
      modifies this
      ensures Valid() && IsRoot(owner, g) && leaked != {} && Within(M(), g, 1) && FirstHole(tables, g, 1) == 0
    {
      ghost var m := M();
      var ok, newsz;
      ok, g, leaked := Setupkvm(dataAddr);
      ghost var n := M();
      LastPageCanBeLost(m, n, g, dataAddr);
      assert Up(0) == 0 && Up(1) == 1;
      ContiguousWithin(n, g, 0);
      ok, newsz, leaked := Growproc(g, 0, 1);
      OnePageMissing(M(), g);
    }

    /**
     An address space given up again, as exec does on an error, leaves the allocator as it was, unless
     the free pages did not cover the kernel's part or ran out between a page and its page table.
     */
    method BuildAndFree(dataAddr: nat, sz: nat) returns (ghost leaked: set<Page>)
      requires Valid() && Linked(dataAddr)
      modifies this
      ensures Valid() && owner == old(owner) && free + leaked == old(free) && leaked !! free
      ensures |old(free)| < KPAGES ==> leaked == old(free)
      ensures |old(free)| >= KPAGES ==>
                |leaked| <= 1 && (leaked != {} <==> sz < KERNBASE && FreshLoses(Up(sz), |old(free)| - KPAGES))
    {
      ghost var m := M();
      var ok, g, r;
      ok, g, leaked := Setupkvm(dataAddr);
      if !ok {
        return;
      }
      ghost var n := M();
      NewSpaceIs(m, n, g, dataAddr);
      forall v: nat | v < Up(sz) && sz < KERNBASE ensures !Mapped(tables, g, v) { assert CopyAt(n, n, g, g, 0, v); }
      r, leaked := Allocuvm(g, 0, sz);
      ghost var k := M();
      BuiltAndGrown(m, n, k, g, dataAddr, leaked);
      if sz < KERNBASE { FreshLosesIff(n.tables, g, Up(sz), |n.free|); }
      Freevm(g);
      GivenUp(m, k, M(), g, leaked);
    }
  }
}
