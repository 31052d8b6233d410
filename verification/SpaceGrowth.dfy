/**
 What building and growing an address space does to memory, and how many pages it takes. Each relation
 below joins two states of memory by one loop of vm.c; like Good they are quantified over an unused z so
 that the verifier unfolds them only where asked to.
 */
module SpaceGrowth {
  import opened PageTable
  import opened AddressSpace

  // ---------- How many pages it takes ----------

  // v is the first page of the range from a on that needs a page table g does not have.
  predicate Opens(t: Tables, g: Page, a: nat, v: nat) {
    !DirPresent(t, g, PDX(v)) && (v <= a || PDX(v - 1) != PDX(v))
  }

  // The page tables that g is missing for the virtual pages a .. b.
  function Opened(t: Tables, g: Page, a: nat, b: nat): nat {
    if b <= a then 0 else Opened(t, g, a, b - 1) + if Opens(t, g, a, b - 1) then 1 else 0
  }

  // The pages that new memory for the virtual pages a .. b takes: one each, and the missing tables.
  function Need(t: Tables, g: Page, a: nat, b: nat): nat { if b <= a then 0 else b - a + Opened(t, g, a, b) }

  lemma {:induction false} OpenedGrows(t: Tables, g: Page, a: nat, v: nat, b: nat)
    requires a <= v < b
    ensures Opened(t, g, a, v) + (if Opens(t, g, a, v) then 1 else 0) <= Opened(t, g, a, b)
    decreases b
  {
    if v < b - 1 { OpenedGrows(t, g, a, v, b - 1); }
  }

  function Missing(t: Tables, g: Page, lo: nat, hi: nat): set<nat> { set d: nat | lo <= d < hi && !DirPresent(t, g, d) }

  /** Need is one page for each virtual page, and one for each page table missing in the range. */
  lemma {:induction false} NeedCounts(t: Tables, g: Page, a: nat, b: nat)
    requires a < b
    ensures Need(t, g, a, b) == b - a + |Missing(t, g, PDX(a), PDX(b - 1) + 1)|
    decreases b
  {
    var lo, hi := PDX(a), PDX(b - 1);
    if b - 1 == a {
      MissingOne(t, g, lo, lo);
      assert Missing(t, g, lo, lo) == {} && Opened(t, g, a, b - 1) == 0;
    } else {
      NeedCounts(t, g, a, b - 1);
      if PDX(b - 2) != hi {
        assert PDX(b - 2) + 1 == hi;
        MissingOne(t, g, lo, hi);
      }
    }
  }

  lemma MissingOne(t: Tables, g: Page, lo: nat, hi: nat)
    requires lo <= hi
    ensures |Missing(t, g, lo, hi + 1)| == |Missing(t, g, lo, hi)| + if DirPresent(t, g, hi) then 0 else 1
  {
    var was, now := Missing(t, g, lo, hi), Missing(t, g, lo, hi + 1);
    forall d ensures d in now <==> d in was || (d == hi && !DirPresent(t, g, hi)) {}
    if DirPresent(t, g, hi) { assert now == was; } else { assert now == was + {hi} && hi !in was; }
  }

  // The tables of the range below lo are there, the others are not.
  lemma {:induction false} OpenedRun(t: Tables, g: Page, a: nat, b: nat, lo: nat)
    requires a < b && PDX(a) <= lo <= PDX(b - 1) + 1
    requires forall d: nat {:trigger DirPresent(t, g, d)} :: PDX(a) <= d <= PDX(b - 1) ==>
      (DirPresent(t, g, d) <==> d < lo)
    ensures Opened(t, g, a, b) == PDX(b - 1) + 1 - lo
    decreases b
  {
    if b - 1 > a {
      OpenedRun(t, g, a, b - 1, if lo <= PDX(b - 2) + 1 then lo else PDX(b - 2) + 1);
    }
  }

  predicate DirsAt(m: Mem, n: Mem, g: Page, a: nat, v: nat, d: nat) {
    DirPresent(n.tables, g, d) == (DirPresent(m.tables, g, d) || (a < v && PDX(a) <= d <= PDX(v - 1)))
  }

  // g has the page tables it had, and those for the virtual pages a .. v.
  ghost predicate Dirs(m: Mem, n: Mem, g: Page, a: nat, v: nat) {
    forall d {:trigger DirsAt(m, n, g, a, v, d)} :: DirsAt(m, n, g, a, v, d)
  }

  // With this many free pages one is allocated for a virtual page, but none is left for its table.
  ghost predicate Loses(t: Tables, g: Page, a: nat, b: nat, pages: nat) {
    exists v :: a <= v < b && Opens(t, g, a, v) && pages == Need(t, g, a, v) + 1
  }

  // That happens at the last page of the range.
  predicate LosesLast(t: Tables, g: Page, a: nat, b: nat, pages: nat) {
    a < b && Opens(t, g, a, b - 1) && pages == Need(t, g, a, b) - 1
  }

  lemma EnoughLosesNone(t: Tables, g: Page, a: nat, v: nat, b: nat, pages: nat)
    requires a <= v <= b
    requires if v < b then pages == Need(t, g, a, v) else pages >= Need(t, g, a, v)
    ensures !Loses(t, g, a, b, pages) && !LosesLast(t, g, a, b, pages) && (v < b ==> pages < Need(t, g, a, b))
  {
    forall w | a <= w < b && Opens(t, g, a, w) ensures pages != Need(t, g, a, w) + 1 {
      if w < v { OpenedGrows(t, g, a, w, v); } else if v < w { OpenedGrows(t, g, a, v, w); }
    }
    if v < b { OpenedGrows(t, g, a, v, b); }
  }

  lemma LostAt(t: Tables, g: Page, a: nat, v: nat, b: nat, pages: nat)
    requires a <= v < b && Opens(t, g, a, v) && pages == Need(t, g, a, v) + 1
    ensures Loses(t, g, a, b, pages) && pages < Need(t, g, a, b) && (LosesLast(t, g, a, b, pages) <==> v == b - 1)
  {
    OpenedGrows(t, g, a, v, b);
    if v < b - 1 { OpenedGrows(t, g, a, v, b - 1); }
  }

  // ---------- One state of memory from another ----------

  ghost predicate FromAt(m: Mem, n: Mem, g: Page, gained: set<Page>, lost: set<Page>, z: int) {
    && Good(n) && IsRoot(n.owner, g) && Keeps(m, n, g)
    && Pages(n) + lost == Pages(m) + gained && lost !! Pages(n)
  }

  // n is m after work on g alone. Of the pages of m and the gained ones, the lost ones are now neither
  // free nor in use, and all others are one or the other.
  ghost predicate From(m: Mem, n: Mem, g: Page, gained: set<Page>, lost: set<Page>) {
    forall z {:trigger FromAt(m, n, g, gained, lost, z)} :: FromAt(m, n, g, gained, lost, z)
  }

  lemma FromSelf(m: Mem, g: Page)
    requires Good(m) && IsRoot(m.owner, g)
    ensures From(m, m, g, {}, {})
  {
    forall p ensures KeepsAt(m, m, g, p) {}
  }

  lemma FromIsGood(m: Mem, n: Mem, g: Page, gained: set<Page>, lost: set<Page>)
    requires From(m, n, g, gained, lost)
    ensures Good(n) && IsRoot(n.owner, g) && Keeps(m, n, g)
  {
    assert FromAt(m, n, g, gained, lost, 0);
  }

  lemma FromOn(m: Mem, n: Mem, k: Mem, g: Page, gained: set<Page>, more: set<Page>, lost: set<Page>, all: set<Page>)
    requires From(m, n, g, gained, {}) && From(n, k, g, more, lost) && all == gained + more
    ensures From(m, k, g, all, lost)
  {
    assert FromAt(m, n, g, gained, {}, 0) && FromAt(n, k, g, more, lost, 0);
    KeepsOn(m, n, k, g);
  }

  // deallocuvm after that.
  lemma FromCleared(m: Mem, n: Mem, k: Mem, g: Page, lost: set<Page>, start: nat, end: nat)
    requires From(m, n, g, {}, lost) && Clears(n, k, g, start, end) && Good(k) && IsRoot(k.owner, g)
    ensures From(m, k, g, {}, lost)
  {
    assert FromAt(m, n, g, {}, lost, 0);
    KeepsOn(m, n, k, g);
  }

  lemma OnlyOthers(m: Mem, n: Mem, g: Page)
    requires Keeps(m, n, g) && Good(m) && g !in m.owner
    ensures Without(n.owner, g) == m.owner
  {
    assert GoodAt(m, 0);
    forall p ensures p in m.owner ==> m.owner[p].space != g { assert OwnAt(m.tables, m.owner, p); }
    forall p ensures p in Without(n.owner, g) <==> p in m.owner { assert KeepsAt(m, n, g, p); }
    forall p | p in m.owner ensures Without(n.owner, g)[p] == m.owner[p] { assert KeepsAt(m, n, g, p); }
  }

  // ---------- A page table ----------

  ghost predicate TableForAt(m: Mem, n: Mem, g: Page, e: nat, z: int) {
    && From(m, n, g, {}, {}) && Same(m, n, g) && Tabled(m, n, g, e) && n.free <= m.free && n.data == m.data
    && |n.free| == |m.free| - if DirPresent(m.tables, g, e) then 0 else 1
  }

  // walkpgdir has seen to the e'th page table.
  ghost predicate TableFor(m: Mem, n: Mem, g: Page, e: nat) {
    forall z {:trigger TableForAt(m, n, g, e, z)} :: TableForAt(m, n, g, e, z)
  }

  lemma TableThere(m: Mem, g: Page, e: nat)
    requires Good(m) && IsRoot(m.owner, g) && DirPresent(m.tables, g, e)
    ensures TableFor(m, m, g, e)
  {
    FromSelf(m, g);
    forall v ensures SameAt(m, m, g, v) {}
    forall d ensures TabledAt(m, m, g, e, d) {}
  }

  lemma TableMade(m: Mem, g: Page, e: nat, p: Page)
    requires Good(m) && IsRoot(m.owner, g) && e < ENTRIES && !DirPresent(m.tables, g, e) && p in m.free
    ensures Full(m.tables, g) && var n := WithTable(m, g, e, p);
      && TableFor(m, n, g, e) && Good(n) && IsRoot(n.owner, g)
      && DirPresent(n.tables, g, e) && n.tables[g][e].page == p && Full(n.tables, p)
  {
    TableStep(m, g, e, p);
    assert FromAt(m, WithTable(m, g, e, p), g, {}, {}, 0);
  }

  // ---------- mappages ----------

  // The pages behind the user part of virtual pages a .. b.
  predicate Backs(a: nat, pa: Page, p: Page) { a + p < USERPAGES + pa }

  function Taken(a: nat, b: nat, pa: Page): set<Page> { set p | pa <= p < pa + b - a && Backs(a, pa, p) }

  lemma TakenOn(a: nat, v: nat, pa: Page)
    requires a <= v
    ensures Taken(a, v + 1, pa) == Taken(a, v, pa) + if v < USERPAGES then {pa + (v - a)} else {}
  {
  }

  lemma NoUserPages(a: nat, b: nat, pa: Page)
    requires USERPAGES <= a
    ensures Taken(a, b, pa) == {}
  {
  }

  ghost predicate RangedAt(m: Mem, n: Mem, g: Page, a: nat, b: nat, pa: Page, perm: set<Flag>, z: int) {
    && From(m, n, g, Taken(a, b, pa), {}) && Maps(m, n, g, a, b, pa, perm) && Dirs(m, n, g, a, b)
    && n.free <= m.free && n.data == m.data && |n.free| + Opened(m.tables, g, a, b) == |m.free|
  }

  // Virtual pages a .. b of g are mapped to the pages from pa on; only missing page tables took memory.
  ghost predicate Ranged(m: Mem, n: Mem, g: Page, a: nat, b: nat, pa: Page, perm: set<Flag>) {
    forall z {:trigger RangedAt(m, n, g, a, b, pa, perm, z)} :: RangedAt(m, n, g, a, b, pa, perm, z)
  }

  lemma RangedNone(m: Mem, g: Page, a: nat, pa: Page, perm: set<Flag>)
    requires Good(m) && IsRoot(m.owner, g)
    ensures Ranged(m, m, g, a, a, pa, perm)
  {
    FromSelf(m, g);
    assert Taken(a, a, pa) == {};
    forall w ensures MapsAt(m, m, g, a, a, pa, perm, w) {}
    forall d ensures DirsAt(m, m, g, a, a, d) {}
  }

  // An entry where there was none.
  lemma PteFrom(n: Mem, g: Page, v: nat, pa: Page, perm: set<Flag>)
    requires Good(n) && IsRoot(n.owner, g) && !Mapped(n.tables, g, v) && (v < USERPAGES ==> InTransit(n, pa))
    requires DirPresent(n.tables, g, PDX(v)) && Full(n.tables, n.tables[g][PDX(v)].page)
    ensures var k := WithPte(n, g, v, Pte(pa, perm + {P}));
      From(n, k, g, Taken(v, v + 1, pa), {}) && Maps(n, k, g, v, v + 1, pa, perm) && Tabled(n, k, g, PDX(v))
  {
    var e, b := Pte(pa, perm + {P}), v + 1;
    var k := WithPte(n, g, v, e);
    PteStep(n, g, v, e);
    assert Taken(v, b, pa) == if v < USERPAGES then {pa} else {};
    assert FromAt(n, k, g, Taken(v, b, pa), {}, 0);
    forall w ensures MapsAt(n, k, g, v, b, pa, perm, w) { assert w == v || SameAt(n, k, g, w); }
  }

  // A page table for v if there was none, then its entry.
  lemma RangedOne(m: Mem, n: Mem, g: Page, v: nat, pa: Page, perm: set<Flag>)
    requires TableFor(m, n, g, PDX(v)) && Good(n) && IsRoot(n.owner, g) && !Mapped(m.tables, g, v)
    requires v < USERPAGES ==> InTransit(m, pa)
    requires DirPresent(n.tables, g, PDX(v)) && Full(n.tables, n.tables[g][PDX(v)].page)
    ensures Ranged(m, WithPte(n, g, v, Pte(pa, perm + {P})), g, v, v + 1, pa, perm)
  {
    var k, d, b := WithPte(n, g, v, Pte(pa, perm + {P})), PDX(v), v + 1;
    TableKeeps(m, n, g, v, pa);
    PteFrom(n, g, v, pa, perm);
    FromOn(m, n, k, g, {}, Taken(v, b, pa), {}, Taken(v, b, pa));
    forall w ensures MapsAt(m, k, g, v, b, pa, perm, w) {
      assert SameAt(m, n, g, w) && MapsAt(n, k, g, v, b, pa, perm, w);
    }
    forall c ensures DirsAt(m, k, g, v, b, c) { assert TabledAt(m, n, g, d, c) && TabledAt(n, k, g, d, c); }
    assert Opened(m.tables, g, v, v) == 0;
  }

  lemma TableKeeps(m: Mem, n: Mem, g: Page, v: nat, pa: Page)
    requires TableFor(m, n, g, PDX(v))
    ensures From(m, n, g, {}, {}) && Same(m, n, g) && Tabled(m, n, g, PDX(v)) && n.free <= m.free && n.data == m.data
    ensures |n.free| == |m.free| - if DirPresent(m.tables, g, PDX(v)) then 0 else 1
    ensures (Mapped(n.tables, g, v) <==> Mapped(m.tables, g, v)) && (InTransit(m, pa) ==> InTransit(n, pa))
  {
    var d := PDX(v);
    assert TableForAt(m, n, g, d, 0) && FromAt(m, n, g, {}, {}, 0) && SameAt(m, n, g, v);
  }

  lemma MapsOn(m: Mem, n: Mem, k: Mem, g: Page, a: nat, v: nat, pa: Page, perm: set<Flag>)
    requires a <= v && Maps(m, n, g, a, v, pa, perm) && Maps(n, k, g, v, v + 1, pa + (v - a), perm)
    ensures Maps(m, k, g, a, v + 1, pa, perm)
  {
    var p, b := pa + (v - a), v + 1;
    forall w ensures MapsAt(m, k, g, a, b, pa, perm, w) {
      assert MapsAt(m, n, g, a, v, pa, perm, w) && MapsAt(n, k, g, v, b, p, perm, w);
    }
  }

  lemma RangedMaps(m: Mem, n: Mem, g: Page, a: nat, b: nat, pa: Page, perm: set<Flag>)
    requires Ranged(m, n, g, a, b, pa, perm)
    ensures Good(n) && IsRoot(n.owner, g) && From(m, n, g, Taken(a, b, pa), {}) && Maps(m, n, g, a, b, pa, perm)
    ensures Dirs(m, n, g, a, b) && n.free <= m.free && n.data == m.data
    ensures |n.free| + Opened(m.tables, g, a, b) == |m.free|
  {
    assert RangedAt(m, n, g, a, b, pa, perm, 0);
    FromIsGood(m, n, g, Taken(a, b, pa), {});
  }

  // What the loop meets at the next page.
  lemma RangedNext(m: Mem, n: Mem, g: Page, a: nat, v: nat, pa: Page, perm: set<Flag>)
    requires a <= v && Ranged(m, n, g, a, v, pa, perm)
    ensures Mapped(n.tables, g, v) <==> Mapped(m.tables, g, v)
    ensures !DirPresent(n.tables, g, PDX(v)) <==> Opens(m.tables, g, a, v)
    ensures InTransit(m, pa + (v - a)) ==> InTransit(n, pa + (v - a))
  {
    var e := PDX(v);
    assert RangedAt(m, n, g, a, v, pa, perm, 0) && FromAt(m, n, g, Taken(a, v, pa), {}, 0);
    assert MapsAt(m, n, g, a, v, pa, perm, v) && DirsAt(m, n, g, a, v, e);
  }

  lemma TakenJoin(a: nat, v: nat, pa: Page)
    requires a <= v
    ensures Taken(a, v + 1, pa) == Taken(a, v, pa) + Taken(v, v + 1, pa + (v - a))
  {
    var p := pa + (v - a);
    TakenOn(a, v, pa);
    assert Taken(v, v + 1, p) == if v < USERPAGES then {p} else {};
  }

  lemma DirsJoin(m: Mem, n: Mem, k: Mem, g: Page, a: nat, v: nat)
    requires a <= v && Dirs(m, n, g, a, v) && Dirs(n, k, g, v, v + 1)
    ensures Dirs(m, k, g, a, v + 1)
    ensures Opened(n.tables, g, v, v + 1) == if DirPresent(n.tables, g, PDX(v)) then 0 else 1
  {
    var b := v + 1;
    forall d ensures DirsAt(m, k, g, a, b, d) { assert DirsAt(m, n, g, a, v, d) && DirsAt(n, k, g, v, b, d); }
    assert Opened(n.tables, g, v, v) == 0;
  }

  lemma RangedOn(m: Mem, n: Mem, k: Mem, g: Page, a: nat, v: nat, pa: Page, perm: set<Flag>)
    requires a <= v && Ranged(m, n, g, a, v, pa, perm) && Ranged(n, k, g, v, v + 1, pa + (v - a), perm)
    ensures Ranged(m, k, g, a, v + 1, pa, perm)
  {
    var b, p := v + 1, pa + (v - a);
    RangedNext(m, n, g, a, v, pa, perm);
    RangedMaps(m, n, g, a, v, pa, perm);
    RangedMaps(n, k, g, v, b, p, perm);
    TakenJoin(a, v, pa);
    FromOn(m, n, k, g, Taken(a, v, pa), Taken(v, b, p), {}, Taken(a, b, pa));
    MapsOn(m, n, k, g, a, v, pa, perm);
    DirsJoin(m, n, k, g, a, v);
  }

  // ---------- kalloc, then mappages ----------

  // A page just allocated and filled, not mapped yet.
  function WithPage(m: Mem, p: Page, bytes: Bytes): Mem { m.(free := m.free - {p}, data := m.data[p := bytes]) }

  lemma PageStep(m: Mem, g: Page, p: Page, bytes: Bytes)
    requires Good(m) && IsRoot(m.owner, g) && p in m.free
    ensures var n := WithPage(m, p, bytes);
      Good(n) && IsRoot(n.owner, g) && Keeps(m, n, g) && Same(m, n, g) && InTransit(n, p) && Pages(n) == Pages(m) - {p}
  {
    assert GoodAt(m, 0);
    var n := WithPage(m, p, bytes);
    forall q ensures KeepsAt(m, n, g, q) {}
    forall q ensures DataAt(n, q) { assert DataAt(m, q); }
    forall v ensures SameAt(m, n, g, v) {}
  }

  ghost predicate AddedAt(m: Mem, n: Mem, g: Page, v: nat, p: Page, bytes: Bytes, perm: set<Flag>, z: int) {
    && From(m, n, g, {}, {}) && p in m.free && Maps(m, n, g, v, v + 1, p, perm) && Dirs(m, n, g, v, v + 1)
    && n.free <= m.free && n.data == m.data[p := bytes]
    && |n.free| + 1 + (if DirPresent(m.tables, g, PDX(v)) then 0 else 1) == |m.free|
  }

  // Virtual page v has a page of its own, p, with these bytes.
  ghost predicate Added(m: Mem, n: Mem, g: Page, v: nat, p: Page, bytes: Bytes, perm: set<Flag>) {
    forall z {:trigger AddedAt(m, n, g, v, p, bytes, perm, z)} :: AddedAt(m, n, g, v, p, bytes, perm, z)
  }

  ghost predicate LostPageAt(m: Mem, n: Mem, g: Page, v: nat, p: Page, bytes: Bytes, z: int) {
    && From(m, n, g, {}, {p}) && m.free == {p} && n.free == {} && !DirPresent(m.tables, g, PDX(v))
    && Same(m, n, g) && n.data == m.data[p := bytes]
  }

  // The last free page was allocated for v, with none left for the page table.
  ghost predicate LostPage(m: Mem, n: Mem, g: Page, v: nat, p: Page, bytes: Bytes) {
    forall z {:trigger LostPageAt(m, n, g, v, p, bytes, z)} :: LostPageAt(m, n, g, v, p, bytes, z)
  }

  lemma AddedFrom(m: Mem, n: Mem, k: Mem, g: Page, p: Page, gained: set<Page>)
    requires From(n, k, g, gained, {}) && gained == {p} && p in m.free && Keeps(m, n, g) && Pages(n) == Pages(m) - {p}
    ensures From(m, k, g, {}, {})
  {
    assert FromAt(n, k, g, gained, {}, 0);
    KeepsOn(m, n, k, g);
    assert Pages(k) == Pages(m);
  }

  lemma AddedStep(m: Mem, k: Mem, g: Page, v: nat, p: Page, bytes: Bytes, perm: set<Flag>)
    requires Good(m) && IsRoot(m.owner, g) && p in m.free && v < USERPAGES
    requires Ranged(WithPage(m, p, bytes), k, g, v, v + 1, p, perm)
    ensures Added(m, k, g, v, p, bytes, perm)
  {
    var n, b := WithPage(m, p, bytes), v + 1;
    PageStep(m, g, p, bytes);
    RangedMaps(n, k, g, v, b, p, perm);
    assert Taken(v, b, p) == {p};
    AddedFrom(m, n, k, g, p, Taken(v, b, p));
    forall w ensures MapsAt(m, k, g, v, b, p, perm, w) {
      assert SameAt(m, n, g, w) && MapsAt(n, k, g, v, b, p, perm, w);
    }
    forall d ensures DirsAt(m, k, g, v, b, d) { assert DirsAt(n, k, g, v, b, d); }
    assert Opened(n.tables, g, v, v) == 0;
  }

  lemma LostPageStep(m: Mem, k: Mem, g: Page, v: nat, p: Page, bytes: Bytes, perm: set<Flag>)
    requires Good(m) && IsRoot(m.owner, g) && p in m.free && k.free == {}
    requires Ranged(WithPage(m, p, bytes), k, g, v, v, p, perm) && Opens(m.tables, g, v, v)
    ensures LostPage(m, k, g, v, p, bytes)
  {
    var n := WithPage(m, p, bytes);
    PageStep(m, g, p, bytes);
    RangedMaps(n, k, g, v, v, p, perm);
    assert Taken(v, v, p) == {} && Opened(n.tables, g, v, v) == 0;
    assert FromAt(n, k, g, {}, {}, 0);
    KeepsOn(m, n, k, g);
    assert n.free == {} && m.free == {p};
    assert FromAt(m, k, g, {}, {p}, 0);
    forall w ensures SameAt(m, k, g, w) { assert SameAt(m, n, g, w) && MapsAt(n, k, g, v, v, p, perm, w); }
  }

  // ---------- allocuvm ----------

  // Virtual pages a .. b of g are new, zeroed, writable user pages; the others are as they were.
  predicate GrowAt(m: Mem, n: Mem, g: Page, a: nat, b: nat, v: nat) {
    var e := V(n, g, v);
    if a <= v < b then e.flags == {P, W, U} && e.page in m.free && e.page in n.data && n.data[e.page] == ZeroPage()
    else e == V(m, g, v)
  }

  ghost predicate Grows(m: Mem, n: Mem, g: Page, a: nat, b: nat) {
    forall v {:trigger GrowAt(m, n, g, a, b, v)} :: GrowAt(m, n, g, a, b, v)
  }

  ghost predicate GrownAt(m: Mem, n: Mem, g: Page, a: nat, b: nat, z: int) {
    && From(m, n, g, {}, {}) && Grows(m, n, g, a, b) && Dirs(m, n, g, a, b)
    && n.free <= m.free && |n.free| + Need(m.tables, g, a, b) == |m.free|
  }

  // The loop of allocuvm has done a .. b.
  ghost predicate Grown(m: Mem, n: Mem, g: Page, a: nat, b: nat) {
    forall z {:trigger GrownAt(m, n, g, a, b, z)} :: GrownAt(m, n, g, a, b, z)
  }

  ghost predicate CutShortAt(m: Mem, n: Mem, g: Page, a: nat, b: nat, p: Page, z: int) {
    && From(m, n, g, {}, {p}) && Grows(m, n, g, a, b) && n.free == {}
    && Opens(m.tables, g, a, b) && |m.free| == Need(m.tables, g, a, b) + 1
  }

  // It has done a .. b and lost the page p that was to be b's.
  ghost predicate CutShort(m: Mem, n: Mem, g: Page, a: nat, b: nat, p: Page) {
    forall z {:trigger CutShortAt(m, n, g, a, b, p, z)} :: CutShortAt(m, n, g, a, b, p, z)
  }

  lemma GrownNone(m: Mem, g: Page, a: nat)
    requires Good(m) && IsRoot(m.owner, g)
    ensures Grown(m, m, g, a, a)
  {
    FromSelf(m, g);
    forall w ensures GrowAt(m, m, g, a, a, w) {}
    forall d ensures DirsAt(m, m, g, a, a, d) {}
  }

  lemma GrownNext(m: Mem, n: Mem, g: Page, a: nat, b: nat)
    requires a <= b && Grown(m, n, g, a, b)
    ensures Good(n) && IsRoot(n.owner, g) && Grows(m, n, g, a, b) && From(m, n, g, {}, {})
    ensures Mapped(n.tables, g, b) <==> Mapped(m.tables, g, b)
    ensures !DirPresent(n.tables, g, PDX(b)) <==> Opens(m.tables, g, a, b)
    ensures |n.free| + Need(m.tables, g, a, b) == |m.free|
  {
    var e := PDX(b);
    assert GrownAt(m, n, g, a, b, 0);
    FromIsGood(m, n, g, {}, {});
    assert GrowAt(m, n, g, a, b, b) && DirsAt(m, n, g, a, b, e);
  }

  lemma GrownOn(m: Mem, n: Mem, k: Mem, g: Page, a: nat, b: nat, p: Page)
    requires a <= b && Grown(m, n, g, a, b) && Added(n, k, g, b, p, ZeroPage(), {W, U})
    ensures Grown(m, k, g, a, b + 1)
  {
    var c := b + 1;
    GrownNext(m, n, g, a, b);
    assert GrownAt(m, n, g, a, b, 0) && AddedAt(n, k, g, b, p, ZeroPage(), {W, U}, 0);
    FromOn(m, n, k, g, {}, {}, {}, {});
    assert p in m.free && k.free <= m.free;
    forall v ensures GrowAt(m, k, g, a, c, v) {
      assert GrowAt(m, n, g, a, b, v) && MapsAt(n, k, g, b, c, p, {W, U}, v);
    }
    DirsJoin(m, n, k, g, a, b);
    assert Need(m.tables, g, a, c) == Need(m.tables, g, a, b) + 1 + if Opens(m.tables, g, a, b) then 1 else 0;
  }

  lemma GrownLost(m: Mem, n: Mem, k: Mem, g: Page, a: nat, b: nat, p: Page)
    requires a <= b && Grown(m, n, g, a, b) && LostPage(n, k, g, b, p, ZeroPage())
    ensures CutShort(m, k, g, a, b, p)
  {
    GrownNext(m, n, g, a, b);
    assert GrownAt(m, n, g, a, b, 0) && LostPageAt(n, k, g, b, p, ZeroPage(), 0);
    FromOn(m, n, k, g, {}, {}, {p}, {});
    forall v ensures GrowAt(m, k, g, a, b, v) { assert GrowAt(m, n, g, a, b, v) && SameAt(n, k, g, v); }
  }

  lemma CutShortIs(m: Mem, n: Mem, g: Page, a: nat, b: nat, p: Page)
    requires CutShort(m, n, g, a, b, p)
    ensures Good(n) && IsRoot(n.owner, g) && From(m, n, g, {}, {p}) && Grows(m, n, g, a, b) && n.free == {}
    ensures Opens(m.tables, g, a, b) && |m.free| == Need(m.tables, g, a, b) + 1
  {
    assert CutShortAt(m, n, g, a, b, p, 0);
    FromIsGood(m, n, g, {}, {p});
  }

  // When memory runs out, deallocuvm takes back exactly what had been added.
  lemma GrowUndone(m: Mem, n: Mem, k: Mem, g: Page, a: nat, b: nat, end: nat)
    requires a <= b <= end && Grows(m, n, g, a, b) && Clears(n, k, g, a, end)
    requires forall v: nat {:trigger Mapped(m.tables, g, v)} :: a <= v < end ==> !Mapped(m.tables, g, v)
    ensures Same(m, k, g)
  {
    forall v: nat ensures SameAt(m, k, g, v) {
      assert GrowAt(m, n, g, a, b, v) && ClearAt(n, k, g, a, end, v) && GrowAt(m, n, g, a, b, a);
      assert a <= v < end ==> !Mapped(m.tables, g, v);
      if a < b { assert Mapped(n.tables, g, a) && !Skipped(n.tables, g, a, v); }
    }
  }

  // Out of memory with nothing lost.
  lemma NoneLeft(m: Mem, n: Mem, k: Mem, g: Page, a: nat, v: nat, end: nat)
    requires a <= v < end && Grown(m, n, g, a, v) && n.free == {} && Clears(n, k, g, a, end) && Good(k)
    requires IsRoot(k.owner, g)
    requires forall w: nat {:trigger Mapped(m.tables, g, w)} :: a <= w < end ==> !Mapped(m.tables, g, w)
    ensures Same(m, k, g) && From(m, k, g, {}, {})
    ensures !Loses(m.tables, g, a, end, |m.free|) && !LosesLast(m.tables, g, a, end, |m.free|)
    ensures |m.free| < Need(m.tables, g, a, end)
  {
    GrownNext(m, n, g, a, v);
    GrowUndone(m, n, k, g, a, v, end);
    FromCleared(m, n, k, g, {}, a, end);
    EnoughLosesNone(m.tables, g, a, v, end, |m.free|);
  }

  // Out of memory after a page was lost before the last one.
  lemma CutBack(m: Mem, n: Mem, k: Mem, g: Page, a: nat, b: nat, p: Page, end: nat)
    requires a <= b < end - 1 && CutShort(m, n, g, a, b, p) && Clears(n, k, g, a, end) && Good(k) && IsRoot(k.owner, g)
    requires forall w: nat {:trigger Mapped(m.tables, g, w)} :: a <= w < end ==> !Mapped(m.tables, g, w)
    ensures Same(m, k, g) && From(m, k, g, {}, {p})
    ensures Loses(m.tables, g, a, end, |m.free|) && !LosesLast(m.tables, g, a, end, |m.free|)
    ensures |m.free| < Need(m.tables, g, a, end)
  {
    CutShortIs(m, n, g, a, b, p);
    GrowUndone(m, n, k, g, a, b, end);
    FromCleared(m, n, k, g, {p}, a, end);
    LostAt(m.tables, g, a, b, end, |m.free|);
  }

  // The next page is as it was at the start.
  lemma StillUnmapped(m: Mem, n: Mem, g: Page, a: nat, b: nat, v: nat, p: Page, whole: bool)
    requires a <= b <= v && (if whole then Grown(m, n, g, a, b) else CutShort(m, n, g, a, b, p))
    ensures (Mapped(n.tables, g, v) <==> Mapped(m.tables, g, v)) && (!whole ==> n.free == {})
  {
    if whole { GrownNext(m, n, g, a, b); } else { CutShortIs(m, n, g, a, b, p); }
    assert GrowAt(m, n, g, a, b, v);
  }

  // Whether allocuvm reports success.
  predicate CanGrow(m: Mem, g: Page, a: nat, b: nat) {
    |m.free| >= Need(m.tables, g, a, b) || LosesLast(m.tables, g, a, b, |m.free|)
  }

  // ---------- The size of a process ----------

  lemma GrownSize(m: Mem, n: Mem, g: Page, sz: nat, want: nat, r: nat, whole: bool)
    requires Contiguous(m, g, Up(sz)) && sz < want && (!whole ==> Up(sz) < Up(want))
    requires want >= KERNBASE ==> n == m && r == 0
    requires want < KERNBASE && r == want ==> Grows(m, n, g, Up(sz), if whole then Up(want) else Up(want) - 1)
    requires want < KERNBASE && r != want ==> r == 0 && Same(m, n, g)
    ensures r == 0 ==> Contiguous(n, g, Up(sz))
    ensures r != 0 ==> (Contiguous(n, g, Up(want)) <==> whole)
  {
    if want < KERNBASE && r == want {
      var a, b := Up(sz), if whole then Up(want) else Up(want) - 1;
      forall v: nat | v < USERPAGES ensures Mapped(n.tables, g, v) <==> v < (if a <= b then b else a) {
        assert GrowAt(m, n, g, a, b, v) && V(m, g, v) == V(m, g, v);
      }
      if !whole { assert V(n, g, b) == V(n, g, b); }
    } else {
      forall v: nat | v < USERPAGES ensures Mapped(n.tables, g, v) <==> v < Up(sz) {
        assert V(m, g, v) == V(m, g, v);
        if want < KERNBASE { assert SameAt(m, n, g, v); }
      }
    }
  }

  // No user page is mapped from page size on.
  ghost predicate Within(m: Mem, g: Page, size: nat) {
    forall v: nat {:trigger V(m, g, v)} :: size <= v < USERPAGES ==> !Mapped(m.tables, g, v)
  }

  lemma ContiguousWithin(m: Mem, g: Page, size: nat)
    requires Contiguous(m, g, size)
    ensures Within(m, g, size)
  {
    forall v: nat | size <= v < USERPAGES ensures !Mapped(m.tables, g, v) { assert V(m, g, v) == V(m, g, v); }
  }

  // deallocuvm jumps a mapped page from a to b.
  ghost predicate Jumps(m: Mem, g: Page, a: nat, b: nat) {
    exists v: nat :: a <= v < b && Mapped(m.tables, g, v) && Skipped(m.tables, g, a, v)
  }

  lemma GrownWithin(m: Mem, n: Mem, g: Page, sz: nat, want: nat, r: nat, whole: bool)
    requires Within(m, g, Up(sz)) && sz < want && (!whole ==> Up(sz) < Up(want))
    requires want >= KERNBASE ==> n == m && r == 0
    requires want < KERNBASE && r == want ==> Grows(m, n, g, Up(sz), if whole then Up(want) else Up(want) - 1)
    requires want < KERNBASE && r != want ==> r == 0 && Same(m, n, g)
    ensures Within(n, g, Up(if r == 0 then sz else r))
  {
    if want < KERNBASE && r == want {
      var a, b := Up(sz), if whole then Up(want) else Up(want) - 1;
      forall v: nat | Up(want) <= v < USERPAGES ensures !Mapped(n.tables, g, v) {
        assert GrowAt(m, n, g, a, b, v) && V(m, g, v) == V(m, g, v);
      }
    } else {
      forall v: nat | Up(sz) <= v < USERPAGES ensures !Mapped(n.tables, g, v) {
        assert V(m, g, v) == V(m, g, v);
        if want < KERNBASE { assert SameAt(m, n, g, v); }
      }
    }
  }

  lemma ShrunkSize(m: Mem, n: Mem, g: Page, sz: nat, want: nat)
    requires Contiguous(m, g, Up(sz)) && want < sz < KERNBASE && Clears(m, n, g, Up(want), Up(sz))
    ensures Contiguous(n, g, Up(want))
    ensures want == 0 ==> !Contiguous(n, g, Up(sz))
  {
    ShrinksContiguous(m, n, g, Up(sz), Up(want), Up(sz));
    if want == 0 { assert V(n, g, 0) == V(n, g, 0); }
  }

  lemma ShrunkWithin(m: Mem, n: Mem, g: Page, sz: nat, want: nat)
    requires Within(m, g, Up(sz)) && want < sz < KERNBASE && Clears(m, n, g, Up(want), Up(sz))
    ensures Within(n, g, Up(sz)) && (Within(n, g, Up(want)) <==> !Jumps(m, g, Up(want), Up(sz)))
    ensures Contiguous(m, g, Up(sz)) ==> Contiguous(n, g, Up(want)) && (want == 0 ==> !Contiguous(n, g, Up(sz)))
  {
    var a, b := Up(want), Up(sz);
    forall v: nat
      ensures Mapped(n.tables, g, v) <==> Mapped(m.tables, g, v) && (!(a <= v < b) || Skipped(m.tables, g, a, v)) {
      assert ClearAt(m, n, g, a, b, v);
    }
    forall v: nat | b <= v < USERPAGES ensures !Mapped(n.tables, g, v) { assert V(m, g, v) == V(m, g, v); }
    if Contiguous(m, g, b) { ShrunkSize(m, n, g, sz, want); }
    if Jumps(m, g, a, b) {
      var v: nat :| a <= v < b && Mapped(m.tables, g, v) && Skipped(m.tables, g, a, v);
      assert V(n, g, v) == V(n, g, v);
    }
  }

  // ---------- copyuvm ----------

  function WithRoot(m: Mem, g: Page): Mem {
    m.(tables := m.tables[g := seq(ENTRIES, _ => EMPTY)], owner := m.owner[g := Own(g, Root)], free := m.free - {g})
  }

  lemma RootStep(m: Mem, g: Page)
    requires Good(m) && g in m.free
    ensures var n := WithRoot(m, g);
      && Good(n) && IsRoot(n.owner, g) && Keeps(m, n, g) && Pages(n) == Pages(m) && Without(n.owner, g) == m.owner
      && forall v {:trigger V(n, g, v)} :: V(n, g, v) == EMPTY
  {
    assert GoodAt(m, 0);
    var n := WithRoot(m, g);
    forall p | p in m.owner ensures m.owner[p].space != g { assert OwnAt(m.tables, m.owner, p); }
    forall p ensures KeepsAt(m, n, g, p) {}
    forall p ensures DataAt(n, p) { assert DataAt(m, p); }
    forall h, d ensures DirAt(n.tables, n.owner, h, d) { assert DirAt(m.tables, m.owner, h, d); }
    forall h, v | h != g && IsRoot(m.owner, h) ensures Look(n.tables, h, v) == Look(m.tables, h, v) {
      if DirPresent(m.tables, h, PDX(v)) { TableOf(m.tables, m.owner, h, PDX(v)); }
    }
    forall p ensures OwnAt(n.tables, n.owner, p) { assert OwnAt(m.tables, m.owner, p); }
    forall h, v ensures UserAt(n.tables, n.owner, h, v) { assert UserAt(m.tables, m.owner, h, v); }
  }

  // Page v of d is a copy of page v of g, for v below b.
  predicate CopyAt(m: Mem, n: Mem, g: Page, d: Page, b: nat, v: nat) {
    var e, c := V(m, g, v), V(n, d, v);
    if v < b then c.flags == e.flags && c.page in m.free && c.page in n.data && e.page in m.data
      && n.data[c.page] == m.data[e.page]
    else v < USERPAGES ==> c == EMPTY
  }

  ghost predicate Copies(m: Mem, n: Mem, g: Page, d: Page, b: nat) {
    forall v {:trigger CopyAt(m, n, g, d, b, v)} :: CopyAt(m, n, g, d, b, v)
  }

  lemma CopyOne(m: Mem, n: Mem, k: Mem, g: Page, d: Page, b: nat, p: Page)
    requires Good(m) && Good(n) && Keeps(m, n, d) && IsRoot(m.owner, g) && g != d && IsRoot(n.owner, d) && b < USERPAGES
    requires Copies(m, n, g, d, b) && p in m.free && p in n.free && Mapped(m.tables, g, b)
    requires V(m, g, b).page in n.data && k.data == n.data[p := n.data[V(m, g, b).page]]
    requires Maps(n, k, d, b, b + 1, p, V(m, g, b).flags)
    ensures Copies(m, k, g, d, b + 1)
  {
    assert GoodAt(n, 0);
    var c := b + 1;
    OthersKept(m, n, d, g, b);
    forall v: nat ensures CopyAt(m, k, g, d, c, v) {
      assert CopyAt(m, n, g, d, b, v) && MapsAt(n, k, d, b, c, p, V(m, g, b).flags, v);
      if v < b { assert UserAt(n.tables, n.owner, d, v); }
    }
  }

  // The pages that n pages of user memory take in a space without page tables for it.
  function UserPages(n: nat): nat { n + (n + ENTRIES - 1) / ENTRIES }

  lemma FreshNeed(t: Tables, g: Page, n: nat)
    requires n <= USERPAGES && Quiet(t, g, 0, PDX(USERPAGES))
    ensures Need(t, g, 0, n) == UserPages(n)
  {
    if n > 0 {
      assert PDX(n - 1) < PDX(USERPAGES);
      OpenedRun(t, g, 0, n, 0);
    }
  }

  lemma FreshOpens(t: Tables, g: Page, v: nat)
    requires v < USERPAGES && Quiet(t, g, 0, PDX(USERPAGES))
    ensures Opens(t, g, 0, v) <==> v % ENTRIES == 0
  {
    assert PDX(v) < PDX(USERPAGES);
  }

  // With this many free pages beside the kernel's, copying or building n user pages loses one.
  ghost predicate FreshLoses(n: nat, pages: int) {
    exists v: nat :: v < n && v % ENTRIES == 0 && pages == UserPages(v) + 1
  }

  lemma FreshLosesIff(t: Tables, g: Page, n: nat, pages: nat)
    requires n <= USERPAGES && Quiet(t, g, 0, PDX(USERPAGES))
    ensures Loses(t, g, 0, n, pages) <==> FreshLoses(n, pages)
  {
    forall v: nat | v < n
      ensures (Opens(t, g, 0, v) && pages == Need(t, g, 0, v) + 1) <==>
        (v % ENTRIES == 0 && pages == UserPages(v) + 1) {
      FreshNeed(t, g, v);
      FreshOpens(t, g, v);
    }
  }
}
