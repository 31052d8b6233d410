/** vm.c: building, growing, shrinking, copying and tearing down address spaces. */
module AddressSpace {
  import opened PageTable

  const WORD := 0x1_0000_0000 // 2^32
  const EXTMEM := 0x100000
  const PHYSTOP := 0xE000000
  const DEVSPACE := 0xFE000000
  const KERNLINK := KERNBASE + EXTMEM

  type Bytes = seq<bv8>

  function ZeroPage(): Bytes { seq(PGSIZE, _ => 0) }

  // The first page number at or above sz.
  function Up(sz: nat): nat { (sz + PGSIZE - 1) / PGSIZE }

  // ---------- Memory as a value ----------

  datatype Mem = Mem(tables: Tables, data: map<Page, Bytes>, owner: Owners, free: set<Page>)

  predicate DataAt(m: Mem, p: Page) { p in m.owner && m.owner[p].role.User? ==> p in m.data }

  // The page tables are sound and no page is both free and in use. (Quantified over an unused z so that
  // the verifier unfolds it only where asked to.)
  ghost predicate Good(m: Mem) { forall z {:trigger GoodAt(m, z)} :: GoodAt(m, z) }

  ghost predicate GoodAt(m: Mem, z: int) {
    && Inv(m.tables, m.owner) && m.free !! m.owner.Keys && 0 !in m.free && 0 !in m.owner.Keys
    && forall p {:trigger DataAt(m, p)} :: DataAt(m, p)
  }

  // Free pages and pages in use, together.
  function Pages(m: Mem): set<Page> { m.free + m.owner.Keys }

  function V(m: Mem, g: Page, v: nat): Pte { View(m.tables, g, v) }

  // Page p of an address space other than g is as it was, and g has taken no page from another.
  predicate KeepsAt(m: Mem, n: Mem, g: Page, p: Page) {
    && (p in m.owner && m.owner[p].space != g ==>
          && p in n.owner && n.owner[p] == m.owner[p]
          && (p in m.tables ==> p in n.tables && n.tables[p] == m.tables[p])
          && (p in m.data ==> p in n.data && n.data[p] == m.data[p]))
    && (p in n.owner && n.owner[p].space != g ==> p in m.owner && m.owner[p] == n.owner[p])
  }

  ghost predicate Keeps(m: Mem, n: Mem, g: Page) {
    forall p {:trigger KeepsAt(m, n, g, p)} :: KeepsAt(m, n, g, p)
  }

  lemma KeepsOn(m: Mem, n: Mem, k: Mem, g: Page)
    requires Keeps(m, n, g) && Keeps(n, k, g)
    ensures Keeps(m, k, g)
  {
    forall p ensures KeepsAt(m, k, g, p) { assert KeepsAt(m, n, g, p) && KeepsAt(n, k, g, p); }
  }

  /** What is done to one address space changes no translation and no byte of another. */
  lemma OthersKept(m: Mem, n: Mem, g: Page, h: Page, v: nat)
    requires Good(m) && Good(n) && Keeps(m, n, g) && h != g && IsRoot(m.owner, h)
    ensures IsRoot(n.owner, h) && V(n, h, v) == V(m, h, v)
    ensures v < USERPAGES && Mapped(m.tables, h, v) ==>
              var p := V(m, h, v).page;
              p in m.data && p in n.data && n.data[p] == m.data[p]
  {
    assert GoodAt(m, 0) && GoodAt(n, 0);
    assert KeepsAt(m, n, g, h) && OwnAt(m.tables, m.owner, h) && OwnAt(n.tables, n.owner, h);
    var d := PDX(v);
    if DirPresent(m.tables, h, d) {
      TableOf(m.tables, m.owner, h, d);
      assert KeepsAt(m, n, g, m.tables[h][d].page);
    }
    if v < USERPAGES && Mapped(m.tables, h, v) {
      var p := V(m, h, v).page;
      assert UserAt(m.tables, m.owner, h, v) && KeepsAt(m, n, g, p) && DataAt(m, p);
    }
  }

  // ---------- Steps ----------

  // Virtual pages a .. b of g now map to the pages from pa on; the others are as they were.
  predicate MapsAt(m: Mem, n: Mem, g: Page, a: nat, b: nat, pa: Page, perm: set<Flag>, v: nat) {
    V(n, g, v) == if a <= v < b then Pte(pa + (v - a), perm + {P}) else V(m, g, v)
  }

  ghost predicate Maps(m: Mem, n: Mem, g: Page, a: nat, b: nat, pa: Page, perm: set<Flag>) {
    forall v {:trigger MapsAt(m, n, g, a, b, pa, perm, v)} :: MapsAt(m, n, g, a, b, pa, perm, v)
  }

  predicate SameAt(m: Mem, n: Mem, g: Page, v: nat) { V(n, g, v) == V(m, g, v) }

  ghost predicate Same(m: Mem, n: Mem, g: Page) { forall v {:trigger SameAt(m, n, g, v)} :: SameAt(m, n, g, v) }

  function WithTable(m: Mem, g: Page, d: nat, p: Page): Mem
    requires g in m.tables && d < |m.tables[g]|
  {
    m.(tables := NewTable(m.tables, g, d, p), owner := m.owner[p := Own(g, Table(d))], free := m.free - {p})
  }

  predicate TabledAt(m: Mem, n: Mem, g: Page, e: nat, d: nat) {
    DirPresent(n.tables, g, d) == (DirPresent(m.tables, g, d) || d == e)
  }

  // g's page tables are those it had, and the e'th.
  ghost predicate Tabled(m: Mem, n: Mem, g: Page, e: nat) {
    forall d {:trigger TabledAt(m, n, g, e, d)} :: TabledAt(m, n, g, e, d)
  }

  lemma TableStep(m: Mem, g: Page, d: nat, p: Page)
    requires Good(m) && IsRoot(m.owner, g) && d < ENTRIES && !DirPresent(m.tables, g, d) && p in m.free
    ensures Full(m.tables, g) && var n := WithTable(m, g, d, p);
      && Good(n) && Same(m, n, g) && Keeps(m, n, g) && Pages(n) == Pages(m)
      && IsRoot(n.owner, g) && DirPresent(n.tables, g, d) && n.tables[g][d].page == p && Full(n.tables, p)
      && Tabled(m, n, g, d) && |n.free| == |m.free| - 1
  {
    assert GoodAt(m, 0);
    assert OwnAt(m.tables, m.owner, g);
    var n := WithTable(m, g, d, p);
    NewTableKeeps(m.tables, m.owner, g, d, p);
    forall q ensures DataAt(n, q) { assert DataAt(m, q); }
    forall q ensures KeepsAt(m, n, g, q) {}
    forall v ensures SameAt(m, n, g, v) { NewTableLook(m.tables, m.owner, g, d, p, g, v); }
    forall e ensures TabledAt(m, n, g, d, e) { NewTableDir(m.tables, m.owner, g, d, p, g, e); }
  }

  // An entry for virtual page v, where nothing was mapped.
  function WithPte(m: Mem, g: Page, v: nat, e: Pte): Mem
    requires DirPresent(m.tables, g, PDX(v)) && Full(m.tables, m.tables[g][PDX(v)].page)
  {
    m.(tables := SetPte(m.tables, g, v, e),
       owner := if v < USERPAGES then m.owner[e.page := Own(g, User(v))] else m.owner)
  }

  predicate InTransit(m: Mem, p: Page) { p !in Pages(m) && p != 0 && p in m.data }

  lemma PteStep(m: Mem, g: Page, v: nat, e: Pte)
    requires Good(m) && IsRoot(m.owner, g) && DirPresent(m.tables, g, PDX(v))
    requires Full(m.tables, m.tables[g][PDX(v)].page)
    requires P in e.flags && !Mapped(m.tables, g, v) && (v < USERPAGES ==> InTransit(m, e.page))
    ensures var n := WithPte(m, g, v, e);
      && Good(n) && Keeps(m, n, g) && IsRoot(n.owner, g) && V(n, g, v) == e
      && (forall w {:trigger SameAt(m, n, g, w)} :: w != v ==> SameAt(m, n, g, w))
      && Pages(n) == Pages(m) + (if v < USERPAGES then {e.page} else {})
      && Tabled(m, n, g, PDX(v))
  {
    assert GoodAt(m, 0);
    var n := WithPte(m, g, v, e);
    TableOf(m.tables, m.owner, g, PDX(v));
    SetPteKeeps(m.tables, m.owner, g, v, e, n.owner);
    SetPteLook(m.tables, m.owner, g, v, e, g, v);
    forall q ensures DataAt(n, q) { assert DataAt(m, q); }
    forall q ensures KeepsAt(m, n, g, q) {}
    forall w ensures w != v ==> SameAt(m, n, g, w) { SetPteLook(m.tables, m.owner, g, v, e, g, w); }
    var dir := PDX(v);
    forall d ensures TabledAt(m, n, g, dir, d) { SetPteDir(m.tables, m.owner, g, v, e, g, d); }
  }

  function WithoutPte(m: Mem, g: Page, v: nat): Mem
    requires DirPresent(m.tables, g, PDX(v)) && Full(m.tables, m.tables[g][PDX(v)].page)
  {
    var p := Look(m.tables, g, v).page;
    m.(tables := SetPte(m.tables, g, v, EMPTY), owner := m.owner - {p}, free := m.free + {p})
  }

  lemma FreeStep(m: Mem, g: Page, v: nat)
    requires Good(m) && IsRoot(m.owner, g) && v < USERPAGES && Mapped(m.tables, g, v)
    ensures DirPresent(m.tables, g, PDX(v)) && Full(m.tables, m.tables[g][PDX(v)].page)
    ensures var n, p := WithoutPte(m, g, v), Look(m.tables, g, v).page;
      && p in m.owner && m.owner[p] == Own(g, User(v))
      && Good(n) && Keeps(m, n, g) && IsRoot(n.owner, g) && V(n, g, v) == EMPTY && Pages(n) == Pages(m)
      && (forall w {:trigger SameAt(m, n, g, w)} :: w != v ==> SameAt(m, n, g, w))
      && (forall d :: DirPresent(n.tables, g, d) == DirPresent(m.tables, g, d))
  {
    assert GoodAt(m, 0);
    TableOf(m.tables, m.owner, g, PDX(v));
    var n := WithoutPte(m, g, v);
    assert UserAt(m.tables, m.owner, g, v);
    SetPteKeeps(m.tables, m.owner, g, v, EMPTY, n.owner);
    SetPteLook(m.tables, m.owner, g, v, EMPTY, g, v);
    forall q ensures DataAt(n, q) { assert DataAt(m, q); }
    forall q ensures KeepsAt(m, n, g, q) {}
    forall w ensures w != v ==> SameAt(m, n, g, w) { SetPteLook(m.tables, m.owner, g, v, EMPTY, g, w); }
    forall d ensures DirPresent(n.tables, g, d) == DirPresent(m.tables, g, d) {
      SetPteDir(m.tables, m.owner, g, v, EMPTY, g, d);
    }
  }

  // ---------- What deallocuvm clears ----------

  ghost predicate Quiet(t: Tables, g: Page, lo: nat, hi: nat) {
    forall d {:trigger DirPresent(t, g, d)} :: lo <= d < hi ==> !DirPresent(t, g, d)
  }

  // deallocuvm steps 4MB past a missing table without realigning: pages low in the first table it
  // then meets, below the offset it started from, are never looked at.
  ghost predicate Skipped(t: Tables, g: Page, start: nat, v: nat) {
    PDX(start) < PDX(v) && Quiet(t, g, PDX(start), PDX(v)) && PTX(v) < PTX(start)
  }

  ghost predicate Cleared(t: Tables, g: Page, start: nat, a: nat, v: nat) { start <= v < a && !Skipped(t, g, start, v) }

  ghost predicate ClearAt(m: Mem, n: Mem, g: Page, start: nat, a: nat, v: nat) {
    V(n, g, v) == if Cleared(m.tables, g, start, a, v) then EMPTY else V(m, g, v)
  }

  ghost predicate ReleasedAt(m: Mem, n: Mem, g: Page, start: nat, a: nat, p: Page) {
    && (p in n.owner ==> p in m.owner && n.owner[p] == m.owner[p])
    && (p in m.owner ==> (p !in n.owner <==>
          m.owner[p].space == g && m.owner[p].role.User? && Cleared(m.tables, g, start, a, m.owner[p].role.v)))
  }

  // From start up to a, g's pages are unmapped and free again; nothing else has changed.
  ghost predicate Clears(m: Mem, n: Mem, g: Page, start: nat, a: nat) {
    && (forall v {:trigger ClearAt(m, n, g, start, a, v)} :: ClearAt(m, n, g, start, a, v))
    && (forall p {:trigger ReleasedAt(m, n, g, start, a, p)} :: ReleasedAt(m, n, g, start, a, p))
    && (forall d {:trigger DirPresent(n.tables, g, d)} {:trigger DirPresent(m.tables, g, d)} ::
          DirPresent(n.tables, g, d) == DirPresent(m.tables, g, d))
    && Pages(n) == Pages(m) && Keeps(m, n, g)
  }

  // Where the scan can stand.
  ghost predicate Position(t: Tables, g: Page, start: nat, a: nat) {
    && start <= a && (PTX(a) == 0 || PTX(a) == PTX(start) || DirPresent(t, g, PDX(a)))
    && (Quiet(t, g, PDX(start), PDX(a)) ==> PTX(a) >= PTX(start))
    && (!Quiet(t, g, PDX(start), PDX(a)) ==> PTX(a) == 0 || DirPresent(t, g, PDX(a)))
  }

  lemma StepPosition(t: Tables, g: Page, start: nat, a: nat)
    requires Position(t, g, start, a)
    ensures DirPresent(t, g, PDX(a)) ==> Position(t, g, start, a + 1) && !Skipped(t, g, start, a)
    ensures !DirPresent(t, g, PDX(a)) ==> Position(t, g, start, a + ENTRIES)
    ensures !DirPresent(t, g, PDX(a)) ==>
      forall v :: a <= v < a + ENTRIES ==> PDX(v) == PDX(a) || Skipped(t, g, start, v)
  {
    if DirPresent(t, g, PDX(a)) {
      if PTX(a) == ENTRIES - 1 { assert PDX(a + 1) == PDX(a) + 1 && PTX(a + 1) == 0; }
      else { assert PDX(a + 1) == PDX(a) && PTX(a + 1) == PTX(a) + 1; }
    } else {
      assert PDX(a + ENTRIES) == PDX(a) + 1 && PTX(a + ENTRIES) == PTX(a);
    }
  }

  // Nothing to free at a: the page is not mapped.
  lemma ClearNothing(m: Mem, n: Mem, g: Page, start: nat, a: nat, b: nat)
    requires Good(m) && Good(n) && Clears(m, n, g, start, a) && IsRoot(m.owner, g) && start <= a <= b
    requires forall v :: a <= v < b ==> !Mapped(n.tables, g, v) || Skipped(m.tables, g, start, v)
    ensures Clears(m, n, g, start, b)
  {
    assert GoodAt(m, 0) && GoodAt(n, 0);
    forall v ensures ClearAt(m, n, g, start, b, v) { assert ClearAt(m, n, g, start, a, v); }
    forall p ensures ReleasedAt(m, n, g, start, b, p) {
      assert ReleasedAt(m, n, g, start, a, p) && OwnAt(m.tables, m.owner, p) && OwnAt(n.tables, n.owner, p);
    }
  }

  lemma ClearOne(m: Mem, n: Mem, g: Page, start: nat, a: nat)
    requires Good(m) && Good(n) && Clears(m, n, g, start, a) && IsRoot(m.owner, g) && IsRoot(n.owner, g)
    requires start <= a < USERPAGES
    requires Mapped(n.tables, g, a) && !Skipped(m.tables, g, start, a)
    ensures DirPresent(n.tables, g, PDX(a)) && Full(n.tables, n.tables[g][PDX(a)].page)
    ensures Look(n.tables, g, a).page !in n.free && Look(n.tables, g, a).page != 0
    ensures var k := WithoutPte(n, g, a); Good(k) && IsRoot(k.owner, g) && Clears(m, k, g, start, a + 1)
  {
    assert GoodAt(n, 0);
    FreeStep(n, g, a);
    var k, b := WithoutPte(n, g, a), a + 1;
    KeepsOn(m, n, k, g);
    forall v ensures ClearAt(m, k, g, start, b, v) {
      assert ClearAt(m, n, g, start, a, v) && (v == a || SameAt(n, k, g, v));
    }
    forall p ensures ReleasedAt(m, k, g, start, b, p) {
      assert ReleasedAt(m, n, g, start, a, p) && OwnAt(n.tables, n.owner, p);
    }
  }

  lemma StartClear(m: Mem, g: Page, start: nat)
    ensures Clears(m, m, g, start, start) && Position(m.tables, g, start, start)
  {
    forall v ensures ClearAt(m, m, g, start, start, v) {}
    forall p ensures ReleasedAt(m, m, g, start, start, p) {}
    forall p ensures KeepsAt(m, m, g, p) {}
  }

  /**
   deallocuvm unmaps every page from start to end exactly when no mapped page in that range lies below
   the starting offset in the first present table after a run of missing ones.
   */
  lemma ClearsAllIff(m: Mem, n: Mem, g: Page, start: nat, end: nat)
    requires Clears(m, n, g, start, end)
    ensures (forall v | start <= v < end :: !Mapped(n.tables, g, v)) <==>
            (forall v | start <= v < end :: Mapped(m.tables, g, v) ==> !Skipped(m.tables, g, start, v))
  {
    forall v | start <= v < end
      ensures Mapped(n.tables, g, v) == (Mapped(m.tables, g, v) && Skipped(m.tables, g, start, v))
    {
      assert ClearAt(m, n, g, start, end, v);
    }
  }

  /** The condition matters: with the first table missing, shrinking to one page leaves page 1024 mapped. */
  lemma SkipCanMiss() returns (m: Mem, g: Page)
    ensures Good(m) && IsRoot(m.owner, g) && Mapped(m.tables, g, 1024) && Skipped(m.tables, g, 1, 1024)
    ensures forall n, end {:trigger Clears(m, n, g, 1, end)} :: Clears(m, n, g, 1, end) ==> Mapped(n.tables, g, 1024)
  {
    g := 1;
    var root := seq(ENTRIES, d => if d == 1 then Pte(2, {P}) else EMPTY);
    var table := seq(ENTRIES, i => if i == 0 then Pte(3, {P}) else EMPTY);
    m := Mem(map[1 := root, 2 := table], map[3 := ZeroPage()],
      map[1 := Own(1, Root), 2 := Own(1, Table(1)), 3 := Own(1, User(1024))], {});
    assert root[1] == Pte(2, {P}) && table[0] == Pte(3, {P});
    forall d ensures DirPresent(m.tables, 1, d) <==> d == 1 {}
    forall v ensures Mapped(m.tables, 1, v) <==> v == 1024 {}
    assert Look(m.tables, 1, 1024) == Pte(3, {P});
    forall p ensures OwnAt(m.tables, m.owner, p) {}
    forall p ensures DataAt(m, p) {}
    forall n, end | Clears(m, n, g, 1, end) ensures Mapped(n.tables, g, 1024) { assert ClearAt(m, n, g, 1, end, 1024); }
  }

  // An address space with exactly the user pages below size mapped.
  ghost predicate Contiguous(m: Mem, g: Page, size: nat) {
    forall v: nat {:trigger V(m, g, v)} :: v < USERPAGES ==> (Mapped(m.tables, g, v) <==> v < size)
  }

  /** The 4MB step never jumps a mapped page of a contiguous address space: what is left is contiguous. */
  lemma ShrinksContiguous(m: Mem, n: Mem, g: Page, size: nat, start: nat, end: nat)
    requires Clears(m, n, g, start, end) && Contiguous(m, g, size) && size <= end <= USERPAGES
    ensures Contiguous(n, g, if start < size then start else size)
  {
    forall v: nat | v < USERPAGES ensures Mapped(n.tables, g, v) <==> v < size && v < start {
      assert ClearAt(m, n, g, start, end, v);
      assert V(m, g, v) == V(m, g, v) && V(m, g, start) == V(m, g, start);
      if start <= v < size {
        assert Mapped(m.tables, g, start) && DirPresent(m.tables, g, PDX(start));
        assert !Skipped(m.tables, g, start, v);
      }
    }
  }

  // The pages of the address space g, and the owners without them.
  function Of(o: Owners, g: Page): set<Page> { set p | p in o && o[p].space == g }

  function Without(o: Owners, g: Page): Owners { map p | p in o && o[p].space != g :: o[p] }

  lemma DropSpace(m: Mem, g: Page)
    requires Good(m) && IsRoot(m.owner, g)
    ensures Good(m.(owner := Without(m.owner, g)))
  {
    assert GoodAt(m, 0);
    var n := m.(owner := Without(m.owner, g));
    forall p ensures OwnAt(n.tables, n.owner, p) { assert OwnAt(m.tables, m.owner, p); }
    forall h, d ensures DirAt(n.tables, n.owner, h, d) { assert DirAt(m.tables, m.owner, h, d); }
    forall h, v ensures UserAt(n.tables, n.owner, h, v) { assert UserAt(m.tables, m.owner, h, v); }
    forall p ensures DataAt(n, p) { assert DataAt(m, p); }
  }

  // The pages of a dropped space given back.
  lemma GiveBack(m: Mem, g: Page)
    requires Good(m) && IsRoot(m.owner, g)
    ensures Good(m.(owner := Without(m.owner, g), free := m.free + Of(m.owner, g)))
  {
    DropSpace(m, g);
    var d, n := m.(owner := Without(m.owner, g)), m.(owner := Without(m.owner, g), free := m.free + Of(m.owner, g));
    assert GoodAt(m, 0) && GoodAt(d, 0);
    forall p ensures DataAt(n, p) { assert DataAt(d, p); }
  }

  // deallocuvm of everything, and then giving back what is left, gives back all.
  lemma ClearedFirst(m: Mem, n: Mem, g: Page)
    requires Good(m) && Good(n) && Clears(m, n, g, 0, USERPAGES)
    ensures Without(n.owner, g) == Without(m.owner, g) && n.free + Of(n.owner, g) == m.free + Of(m.owner, g)
    ensures forall p :: p in n.owner && n.owner[p].space == g ==> !n.owner[p].role.User?
  {
    assert GoodAt(m, 0);
    forall p ensures p in n.owner ==> p in m.owner && n.owner[p] == m.owner[p] {
      assert ReleasedAt(m, n, g, 0, USERPAGES, p);
    }
    forall p | p in m.owner ensures p in n.owner <==> !(m.owner[p].space == g && m.owner[p].role.User?) {
      assert ReleasedAt(m, n, g, 0, USERPAGES, p) && OwnAt(m.tables, m.owner, p);
    }
    forall p ensures p in n.free + Of(n.owner, g) <==> p in m.free + Of(m.owner, g) {
      assert GoodAt(n, 0) && (p in Pages(n) <==> p in Pages(m));
    }
  }
}
