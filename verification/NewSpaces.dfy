/** A new address space: the kernel's half that setupkvm makes, and the user half that copyuvm fills. */
module NewSpaces {
  import opened PageTable
  import opened AddressSpace
  import opened SpaceGrowth

  // A row of the kernel's table of mappings.
  datatype Range = Range(virt: nat, start: nat, end: nat, perm: set<Flag>)

  // The size of a row: an unsigned difference, since the last row ends at 2^32, written 0.
  function Size(r: Range): nat { (r.end - r.start) % WORD }

  // dataAddr is where the linker puts the kernel's data segment.
  function Kmap(dataAddr: nat): seq<Range>
    requires KERNBASE <= dataAddr
  {
    [Range(KERNBASE, 0, EXTMEM, {W}),
     Range(KERNLINK, KERNLINK - KERNBASE, dataAddr - KERNBASE, {}),
     Range(dataAddr, dataAddr - KERNBASE, PHYSTOP, {W}),
     Range(DEVSPACE, DEVSPACE, 0, {W})]
  }

  // What the first n rows of the table map.
  function Rows(ks: seq<Range>, n: nat, v: nat): Pte
    requires n <= |ks|
  {
    if n == 0 then EMPTY
    else
      var r := ks[n - 1];
      var first := r.virt / PGSIZE;
      if first <= v < first + Size(r) / PGSIZE then Pte(r.start / PGSIZE + (v - first), r.perm + {P})
      else Rows(ks, n - 1, v)
  }

  predicate Linked(dataAddr: nat) { KERNLINK < dataAddr < KERNBASE + PHYSTOP && dataAddr % PGSIZE == 0 }

  predicate RowsAt(m: Mem, g: Page, ks: seq<Range>, n: nat, v: nat) { n <= |ks| && V(m, g, v) == Rows(ks, n, v) }

  ghost predicate HasRows(m: Mem, g: Page, ks: seq<Range>, n: nat) {
    forall v {:trigger RowsAt(m, g, ks, n, v)} :: RowsAt(m, g, ks, n, v)
  }

  // The virtual pages of row k.
  function RowStart(D: nat, k: nat): nat {
    if k == 0 then 0x80000 else if k == 1 then 0x80100 else if k == 2 then D else 0xFE000
  }

  function RowEnd(D: nat, k: nat): nat {
    if k == 0 then 0x80100 else if k == 1 then D else if k == 2 then 0x8E000 else 0x100000
  }

  lemma RowPages(dataAddr: nat, k: nat)
    requires Linked(dataAddr) && k < 4
    ensures var r, D := Kmap(dataAddr)[k], dataAddr / PGSIZE;
      && r.virt / PGSIZE == RowStart(D, k) && r.virt % PGSIZE == 0 && Size(r) % PGSIZE == 0
      && RowStart(D, k) + Size(r) / PGSIZE == RowEnd(D, k) && 0x80100 < D < 0x8E000
  {
    var D := dataAddr / PGSIZE;
    assert dataAddr == D * PGSIZE;
  }

  // A row is page aligned, fits in 32 bits, maps kernel addresses only and overlaps no row before it.
  lemma RowFits(dataAddr: nat, i: nat)
    requires Linked(dataAddr) && i < 4
    ensures var r := Kmap(dataAddr)[i];
      0 < Size(r) && r.virt + Size(r) <= WORD && Up(r.virt + Size(r)) == r.virt / PGSIZE + Size(r) / PGSIZE
        && USERPAGES <= r.virt / PGSIZE
  {
    RowPages(dataAddr, i);
  }

  lemma RowFree(dataAddr: nat, i: nat, v: nat)
    requires Linked(dataAddr) && i < 4
    requires var r := Kmap(dataAddr)[i]; r.virt / PGSIZE <= v < r.virt / PGSIZE + Size(r) / PGSIZE
    ensures Rows(Kmap(dataAddr), i, v) == EMPTY
  {
    var ks := Kmap(dataAddr);
    if i >= 3 { assert Rows(ks, 3, v) == Rows(ks, 2, v); }
    if i >= 2 { assert Rows(ks, 2, v) == Rows(ks, 1, v); }
    if i >= 1 { assert Rows(ks, 1, v) == Rows(ks, 0, v); }
  }

  lemma RowsOn(m: Mem, n: Mem, g: Page, ks: seq<Range>, i: nat)
    requires i < |ks| && HasRows(m, g, ks, i)
    requires var r := ks[i]; var a := r.virt / PGSIZE; Maps(m, n, g, a, a + Size(r) / PGSIZE, r.start / PGSIZE, r.perm)
    ensures HasRows(n, g, ks, i + 1)
  {
    var r, j := ks[i], i + 1;
    var a := r.virt / PGSIZE;
    var b, pa := a + Size(r) / PGSIZE, r.start / PGSIZE;
    forall v ensures RowsAt(n, g, ks, j, v) { assert RowsAt(m, g, ks, i, v) && MapsAt(m, n, g, a, b, pa, r.perm, v); }
  }

  /** The kernel's half of every address space, as the comment over kmap draws it; user memory is empty. */
  lemma KernelLayout(dataAddr: nat, v: nat)
    requires Linked(dataAddr)
    ensures Rows(Kmap(dataAddr), 4, v) ==
            if 0x80000 <= v < 0x80100 then Pte(v - 0x80000, {P, W})
            else if 0x80100 <= v < dataAddr / PGSIZE then Pte(v - 0x80000, {P})
            else if dataAddr / PGSIZE <= v < 0x8E000 then Pte(v - 0x80000, {P, W})
            else if 0xFE000 <= v < 0x100000 then Pte(v, {P, W})
            else EMPTY
  {
    var ks := Kmap(dataAddr);
    assert {W} + {P} == {P, W} && {} + {P} == {P};
    if !(0xFE000 <= v < 0x100000) {
      assert Rows(ks, 4, v) == Rows(ks, 3, v);
      if !(dataAddr / PGSIZE <= v < 0x8E000) {
        assert Rows(ks, 3, v) == Rows(ks, 2, v);
        if !(0x80100 <= v < dataAddr / PGSIZE) {
          assert Rows(ks, 2, v) == Rows(ks, 1, v);
          if !(0x80000 <= v < 0x80100) { assert Rows(ks, 1, v) == Rows(ks, 0, v); }
        }
      }
    }
  }

  // The kernel's part of an address space.
  ghost predicate HasKernel(m: Mem, g: Page, ks: seq<Range>) {
    |ks| == 4 && forall v {:trigger RowsAt(m, g, ks, 4, v)} :: v >= USERPAGES ==> RowsAt(m, g, ks, 4, v)
  }

  lemma KernelKept(m: Mem, n: Mem, g: Page, ks: seq<Range>, b: nat, p: Page, perm: set<Flag>)
    requires HasKernel(m, g, ks) && b < USERPAGES && Maps(m, n, g, b, b + 1, p, perm)
    ensures HasKernel(n, g, ks)
  {
    var c := b + 1;
    forall v: nat ensures v >= USERPAGES ==> RowsAt(n, g, ks, 4, v) {
      assert MapsAt(m, n, g, b, c, p, perm, v) && (v < USERPAGES || RowsAt(m, g, ks, 4, v));
    }
  }

  // An empty directory.
  lemma StartRows(n: Mem, g: Page, dataAddr: nat)
    requires Linked(dataAddr) && g in n.tables && n.tables[g] == seq(ENTRIES, _ => EMPTY)
    ensures HasRows(n, g, Kmap(dataAddr), 0) && RowDirs(n, g, dataAddr / PGSIZE, 0)
  {
    var D := dataAddr / PGSIZE;
    forall v ensures RowsAt(n, g, Kmap(dataAddr), 0, v) {}
    forall d ensures RowDirAt(n, g, D, 0, d) {}
  }

  // A new address space has no user memory.
  lemma StartCopy(m: Mem, n: Mem, g: Page, d: Page, dataAddr: nat)
    requires Linked(dataAddr) && HasRows(n, d, Kmap(dataAddr), 4)
    ensures Copies(m, n, g, d, 0) && HasKernel(n, d, Kmap(dataAddr))
  {
    forall v: nat ensures CopyAt(m, n, g, d, 0, v) {
      assert RowsAt(n, d, Kmap(dataAddr), 4, v);
      KernelLayout(dataAddr, v);
    }
  }

  // ---------- The kernel's page tables ----------

  // The pages an address space takes before it has user memory: the directory and the kernel's tables.
  const KTABLES := 64
  const KPAGES := 1 + KTABLES

  // Whether the first k rows need the d'th page table, and how many tables they need; D is the page of dataAddr.
  predicate InRows(D: nat, k: nat, d: nat)
    requires D > 0
  {
    && k > 0
    && ((512 <= d <= if k == 1 then 512 else if k == 2 then PDX(D - 1) else 567) || (k > 3 && 1016 <= d <= 1023))
  }

  function RowCount(D: nat, k: nat): int
    requires D > 0
  {
    if k == 0 then 0 else if k == 1 then 1 else if k == 2 then PDX(D - 1) - 511 else if k == 3 then 56 else KTABLES
  }

  predicate RowDirAt(m: Mem, g: Page, D: nat, k: nat, d: nat) {
    D > 0 && (DirPresent(m.tables, g, d) <==> InRows(D, k, d))
  }

  ghost predicate RowDirs(m: Mem, g: Page, D: nat, k: nat) {
    forall d {:trigger RowDirAt(m, g, D, k, d)} :: RowDirAt(m, g, D, k, d)
  }

  // What row k adds.
  lemma RowTables(m: Mem, g: Page, dataAddr: nat, k: nat)
    requires Linked(dataAddr) && k < 4 && RowDirs(m, g, dataAddr / PGSIZE, k)
    ensures var r, D := Kmap(dataAddr)[k], dataAddr / PGSIZE;
      Opened(m.tables, g, r.virt / PGSIZE, r.virt / PGSIZE + Size(r) / PGSIZE) == RowCount(D, k + 1) - RowCount(D, k)
  {
    var D := dataAddr / PGSIZE;
    RowPages(dataAddr, k);
    OpenedRow(m, g, D, k);
  }

  lemma OpenedRow(m: Mem, g: Page, D: nat, k: nat)
    requires 0x80100 < D < 0x8E000 && k < 4 && RowDirs(m, g, D, k)
    ensures Opened(m.tables, g, RowStart(D, k), RowEnd(D, k)) == RowCount(D, k + 1) - RowCount(D, k)
  {
    var a, b := RowStart(D, k), RowEnd(D, k);
    var lo := if k == 0 then 512 else if k == 1 then 513 else if k == 2 then PDX(D - 1) + 1 else 1016;
    forall d: nat | PDX(a) <= d <= PDX(b - 1) ensures DirPresent(m.tables, g, d) <==> d < lo {
      assert RowDirAt(m, g, D, k, d);
    }
    OpenedRun(m.tables, g, a, b, lo);
  }

  lemma RowDirsOn(m: Mem, n: Mem, g: Page, dataAddr: nat, k: nat)
    requires Linked(dataAddr) && k < 4 && RowDirs(m, g, dataAddr / PGSIZE, k)
    requires var r := Kmap(dataAddr)[k]; Dirs(m, n, g, r.virt / PGSIZE, r.virt / PGSIZE + Size(r) / PGSIZE)
    ensures RowDirs(n, g, dataAddr / PGSIZE, k + 1)
  {
    var D, j := dataAddr / PGSIZE, k + 1;
    RowPages(dataAddr, k);
    var a, b := RowStart(D, k), RowEnd(D, k);
    forall d: nat ensures RowDirAt(n, g, D, j, d) { assert RowDirAt(m, g, D, k, d) && DirsAt(m, n, g, a, b, d); }
  }

  lemma RowNotMapped(n: Mem, g: Page, dataAddr: nat, k: nat, b: nat)
    requires Linked(dataAddr) && k < 4 && HasRows(n, g, Kmap(dataAddr), k)
    requires var r := Kmap(dataAddr)[k]; r.virt / PGSIZE <= b < r.virt / PGSIZE + Size(r) / PGSIZE
    ensures !Mapped(n.tables, g, b)
  {
    RowFree(dataAddr, k, b);
    assert RowsAt(n, g, Kmap(dataAddr), k, b);
  }

  // mappages of row k, all of it or up to where no page was left for a table.
  lemma RowDone(n: Mem, m: Mem, g: Page, dataAddr: nat, k: nat, b: nat, ok: bool)
    requires Linked(dataAddr) && k < 4 && HasRows(n, g, Kmap(dataAddr), k) && RowDirs(n, g, dataAddr / PGSIZE, k)
    requires var r := Kmap(dataAddr)[k];
      var a, end := r.virt / PGSIZE, r.virt / PGSIZE + Size(r) / PGSIZE;
      && Ranged(n, m, g, a, b, r.start / PGSIZE, r.perm) && USERPAGES <= a <= b
      && if ok then b == end else b < end && m.free == {} && Opens(n.tables, g, a, b)
    ensures From(n, m, g, {}, {}) && m.free <= n.free
    ensures var D := dataAddr / PGSIZE;
      && (ok <==> |n.free| >= RowCount(D, k + 1) - RowCount(D, k))
      && (ok ==> HasRows(m, g, Kmap(dataAddr), k + 1) && RowDirs(m, g, D, k + 1))
      && (ok ==> |m.free| == |n.free| - (RowCount(D, k + 1) - RowCount(D, k)))
  {
    var r := Kmap(dataAddr)[k];
    var a, pa := r.virt / PGSIZE, r.start / PGSIZE;
    var end := a + Size(r) / PGSIZE;
    RangedMaps(n, m, g, a, b, pa, r.perm);
    NoUserPages(a, b, pa);
    RowTables(n, g, dataAddr, k);
    if ok {
      RowsOn(n, m, g, Kmap(dataAddr), k);
      RowDirsOn(n, m, g, dataAddr, k);
    } else {
      OpenedGrows(n.tables, g, a, b, end);
    }
  }

  lemma RowCountGrows(dataAddr: nat, k: nat)
    requires Linked(dataAddr) && k <= 4
    ensures RowCount(dataAddr / PGSIZE, k) <= KTABLES
  {
  }

  ghost predicate NewSpaceAt(m: Mem, n: Mem, g: Page, dataAddr: nat, z: int) {
    && Linked(dataAddr) && From(m, n, g, {}, {}) && g in m.free && g !in m.owner && Without(n.owner, g) == m.owner
    && n.free <= m.free && |n.free| == |m.free| - KPAGES
    && HasRows(n, g, Kmap(dataAddr), 4) && RowDirs(n, g, dataAddr / PGSIZE, 4)
  }

  // n is m with the new address space g: exactly the kernel's mappings, in KPAGES pages that were free.
  ghost predicate NewSpace(m: Mem, n: Mem, g: Page, dataAddr: nat) {
    forall z {:trigger NewSpaceAt(m, n, g, dataAddr, z)} :: NewSpaceAt(m, n, g, dataAddr, z)
  }

  lemma RootFrom(m: Mem, k: Mem, g: Page)
    requires Good(m) && g in m.free && From(WithRoot(m, g), k, g, {}, {})
    ensures From(m, k, g, {}, {}) && g !in m.owner && Without(k.owner, g) == m.owner
  {
    RootStep(m, g);
    assert FromAt(m, WithRoot(m, g), g, {}, {}, 0);
    FromOn(m, WithRoot(m, g), k, g, {}, {}, {}, {});
    assert FromAt(m, k, g, {}, {}, 0) && GoodAt(m, 0);
    OnlyOthers(m, k, g);
  }

  lemma KernelBuilt(m: Mem, k: Mem, g: Page, dataAddr: nat, ok: bool)
    requires Good(m) && g in m.free && Linked(dataAddr) && From(WithRoot(m, g), k, g, {}, {}) && k.free <= m.free - {g}
    requires ok ==>
      HasRows(k, g, Kmap(dataAddr), 4) && RowDirs(k, g, dataAddr / PGSIZE, 4) && |k.free| == |m.free| - KPAGES
    requires !ok ==> k.free == {}
    ensures ok ==> NewSpace(m, k, g, dataAddr)
    ensures !ok ==> Without(k.owner, g) == m.owner && Of(k.owner, g) == m.free
    ensures !ok ==> Good(k.(owner := Without(k.owner, g))) && Keeps(m, k.(owner := Without(k.owner, g)), g)
  {
    RootFrom(m, k, g);
    if !ok {
      assert FromAt(m, k, g, {}, {}, 0);
      DropSpace(k, g);
      AllLost(m, k, g);
    }
  }

  // The dropped space had every page that was free.
  lemma AllLost(m: Mem, k: Mem, g: Page)
    requires Good(m) && Good(k) && k.free == {} && Pages(k) == Pages(m) && Without(k.owner, g) == m.owner
    requires Keeps(m, k, g)
    ensures Of(k.owner, g) == m.free && Keeps(m, k.(owner := m.owner), g)
  {
    assert GoodAt(m, 0);
    forall p ensures p in Of(k.owner, g) <==> p in m.free {
      assert p in Pages(k) <==> p in Pages(m);
      assert p in k.owner && k.owner[p].space != g <==> p in Without(k.owner, g);
    }
    var n := k.(owner := m.owner);
    forall p ensures KeepsAt(m, n, g, p) { assert KeepsAt(m, k, g, p); }
  }

  lemma NewSpaceIs(m: Mem, n: Mem, g: Page, dataAddr: nat)
    requires Linked(dataAddr) && NewSpace(m, n, g, dataAddr)
    ensures Good(n) && IsRoot(n.owner, g) && Keeps(m, n, g) && Copies(n, n, g, g, 0) && HasKernel(n, g, Kmap(dataAddr))
    ensures Quiet(n.tables, g, 0, PDX(USERPAGES)) && |n.free| == |m.free| - KPAGES
  {
    var D := dataAddr / PGSIZE;
    assert NewSpaceAt(m, n, g, dataAddr, 0);
    FromIsGood(m, n, g, {}, {});
    StartCopy(n, n, g, g, dataAddr);
    forall d: nat | 0 <= d < PDX(USERPAGES) ensures !DirPresent(n.tables, g, d) { assert RowDirAt(n, g, D, 4, d); }
  }

  /** In a new address space with one page left, the first page a process asks for is lost. */
  lemma LastPageCanBeLost(m: Mem, n: Mem, g: Page, dataAddr: nat)
    requires Linked(dataAddr) && NewSpace(m, n, g, dataAddr) && |m.free| == KPAGES + 1
    ensures Good(n) && IsRoot(n.owner, g) && Contiguous(n, g, 0)
    ensures Loses(n.tables, g, 0, 1, |n.free|) && LosesLast(n.tables, g, 0, 1, |n.free|)
  {
    NewSpaceIs(m, n, g, dataAddr);
    forall v: nat | v < USERPAGES ensures !Mapped(n.tables, g, v) { assert CopyAt(n, n, g, g, 0, v); }
    FreshNeed(n.tables, g, 1);
    FreshOpens(n.tables, g, 0);
    assert Opens(n.tables, g, 0, 0) && Need(n.tables, g, 0, 0) == 0;
  }

  lemma BuiltAndGrown(m: Mem, n: Mem, k: Mem, g: Page, dataAddr: nat, lost: set<Page>)
    requires NewSpace(m, n, g, dataAddr) && From(n, k, g, {}, lost)
    ensures From(m, k, g, {}, lost) && g !in m.owner
  {
    assert NewSpaceAt(m, n, g, dataAddr, 0);
    FromOn(m, n, k, g, {}, {}, lost, {});
  }

  // ---------- copyuvm ----------

  ghost predicate CopiedAt(m: Mem, built: Mem, n: Mem, g: Page, d: Page, b: nat, dataAddr: nat, z: int)
    requires Linked(dataAddr)
  {
    && NewSpace(m, built, d, dataAddr) && Good(m) && IsRoot(m.owner, g)
    && From(m, n, d, {}, {}) && Copies(m, n, g, d, b) && HasKernel(n, d, Kmap(dataAddr))
    && n.free <= m.free && Dirs(built, n, d, 0, b) && |n.free| + Need(built.tables, d, 0, b) == |built.free|
  }

  // The loop of copyuvm has copied the pages below b of g to the new space d.
  ghost predicate Copied(m: Mem, built: Mem, n: Mem, g: Page, d: Page, b: nat, dataAddr: nat)
    requires Linked(dataAddr)
  {
    forall z {:trigger CopiedAt(m, built, n, g, d, b, dataAddr, z)} :: CopiedAt(m, built, n, g, d, b, dataAddr, z)
  }

  lemma CopiedIs(m: Mem, built: Mem, n: Mem, g: Page, d: Page, b: nat, dataAddr: nat)
    requires Linked(dataAddr) && Copied(m, built, n, g, d, b, dataAddr)
    ensures NewSpace(m, built, d, dataAddr) && Good(m) && IsRoot(m.owner, g) && g != d && d in m.free && d !in m.owner
    ensures From(m, n, d, {}, {}) && Good(n) && IsRoot(n.owner, d) && Keeps(m, n, d)
    ensures Copies(m, n, g, d, b) && HasKernel(n, d, Kmap(dataAddr)) && n.free <= m.free && Dirs(built, n, d, 0, b)
    ensures |n.free| + KPAGES + Need(built.tables, d, 0, b) == |m.free| && Quiet(built.tables, d, 0, PDX(USERPAGES))
  {
    assert CopiedAt(m, built, n, g, d, b, dataAddr, 0) && NewSpaceAt(m, built, d, dataAddr, 0);
    FromIsGood(m, n, d, {}, {});
    NewSpaceIs(m, built, d, dataAddr);
  }

  lemma StartCopied(m: Mem, built: Mem, g: Page, d: Page, dataAddr: nat)
    requires Linked(dataAddr) && NewSpace(m, built, d, dataAddr) && Good(m) && IsRoot(m.owner, g)
    ensures Copied(m, built, built, g, d, 0, dataAddr)
  {
    assert NewSpaceAt(m, built, d, dataAddr, 0);
    StartCopy(m, built, g, d, dataAddr);
    forall e ensures DirsAt(built, built, d, 0, 0, e) {}
  }

  // The first of the pages below end that is not mapped, or end.
  function FirstHole(t: Tables, g: Page, end: nat): (r: nat)
    ensures r <= end && (forall v: nat {:trigger Mapped(t, g, v)} :: v < r ==> Mapped(t, g, v))
    ensures r < end ==> !Mapped(t, g, r)
  {
    if end == 0 then 0
    else
      var r := FirstHole(t, g, end - 1);
      if r == end - 1 && Mapped(t, g, r) then end else r
  }

  /** After a growth that lost the last of its pages, that page is the first hole. */
  lemma LostPageIsHole(m: Mem, n: Mem, g: Page, a: nat, b: nat)
    requires Contiguous(m, g, a) && a < b <= USERPAGES && Grows(m, n, g, a, b - 1)
    ensures FirstHole(n.tables, g, b) == b - 1
  {
    var last := b - 1;
    forall v: nat | v < b ensures Mapped(n.tables, g, v) <==> v < last {
      assert GrowAt(m, n, g, a, last, v) && V(m, g, v) == V(m, g, v);
    }
    assert !Mapped(n.tables, g, last);
  }

  // What the loop meets at page v.
  lemma CopiedNext(m: Mem, built: Mem, n: Mem, g: Page, d: Page, v: nat, dataAddr: nat)
    requires Linked(dataAddr) && Copied(m, built, n, g, d, v, dataAddr) && v < USERPAGES
    ensures Good(n) && IsRoot(n.owner, d) && IsRoot(n.owner, g) && V(n, g, v) == V(m, g, v)
    ensures Mapped(n.tables, g, v) <==> Mapped(m.tables, g, v)
    ensures Mapped(m.tables, g, v) ==>
      V(m, g, v).page in m.data && V(m, g, v).page in n.data && n.data[V(m, g, v).page] == m.data[V(m, g, v).page]
    ensures !Mapped(n.tables, d, v) && (!DirPresent(n.tables, d, PDX(v)) <==> v % ENTRIES == 0)
    ensures |n.free| + KPAGES + UserPages(v) == |m.free|
  {
    var e := PDX(v);
    CopiedIs(m, built, n, g, d, v, dataAddr);
    OthersKept(m, n, d, g, v);
    assert CopyAt(m, n, g, d, v, v) && DirsAt(built, n, d, 0, v, e);
    assert e < PDX(USERPAGES);
    FreshNeed(built.tables, d, v);
    FreshOpens(built.tables, d, v);
  }

  lemma CopiedOn(m: Mem, built: Mem, n: Mem, k: Mem, g: Page, d: Page, v: nat, p: Page, bytes: Bytes, perm: set<Flag>,
                 dataAddr: nat)
    requires Linked(dataAddr) && Copied(m, built, n, g, d, v, dataAddr) && v < USERPAGES && Mapped(m.tables, g, v)
    requires V(m, g, v).page in n.data && bytes == n.data[V(m, g, v).page] && perm == V(m, g, v).flags
    requires Added(n, k, d, v, p, bytes, perm)
    ensures Copied(m, built, k, g, d, v + 1, dataAddr)
  {
    var b := v + 1;
    CopiedIs(m, built, n, g, d, v, dataAddr);
    assert CopiedAt(m, built, n, g, d, v, dataAddr, 0) && AddedAt(n, k, d, v, p, bytes, perm, 0);
    assert p in m.free && k.free <= m.free;
    FromOn(m, n, k, d, {}, {}, {}, {});
    CopyOne(m, n, k, g, d, v, p);
    KernelKept(n, k, d, Kmap(dataAddr), v, p, perm);
    DirsJoin(built, n, k, d, 0, v);
    CopiedNext(m, built, n, g, d, v, dataAddr);
    FreshNeed(built.tables, d, v);
    FreshNeed(built.tables, d, b);
  }

  lemma UserPagesGrow(v: nat, b: nat)
    requires v < b
    ensures UserPages(v) + (if v % ENTRIES == 0 then 2 else 1) <= UserPages(b)
  {
  }

  lemma FreshStops(v: nat, end: nat, pages: nat)
    requires v <= end && (if v < end then pages == UserPages(v) else pages >= UserPages(v))
    ensures !FreshLoses(end, pages) && (v < end ==> pages < UserPages(end))
  {
    forall w: nat | w < end && w % ENTRIES == 0 ensures pages != UserPages(w) + 1 {
      if w < v { UserPagesGrow(w, v); } else if v < w { UserPagesGrow(v, w); }
    }
    if v < end { UserPagesGrow(v, end); }
  }

  // No page for the copy of page v.
  lemma CopyStopped(m: Mem, built: Mem, n: Mem, g: Page, d: Page, v: nat, end: nat, dataAddr: nat)
    requires Linked(dataAddr) && Copied(m, built, n, g, d, v, dataAddr) && v < end <= USERPAGES
    requires Mapped(m.tables, g, v) && n.free == {}
    ensures From(m, n, d, {}, {}) && d !in m.owner && KPAGES <= |m.free| < KPAGES + UserPages(end)
    ensures !FreshLoses(end, |m.free| - KPAGES)
  {
    CopiedNext(m, built, n, g, d, v, dataAddr);
    CopiedIs(m, built, n, g, d, v, dataAddr);
    FreshStops(v, end, |m.free| - KPAGES);
  }

  // A page for the copy of page v, but none for its page table.
  lemma CopyLost(m: Mem, built: Mem, n: Mem, k: Mem, g: Page, d: Page, v: nat, end: nat, p: Page, bytes: Bytes,
                 dataAddr: nat)
    requires Linked(dataAddr) && Copied(m, built, n, g, d, v, dataAddr) && v < end <= USERPAGES
    requires Mapped(m.tables, g, v)
    requires LostPage(n, k, d, v, p, bytes)
    ensures From(m, k, d, {}, {p}) && d !in m.owner && KPAGES <= |m.free| < KPAGES + UserPages(end)
    ensures FreshLoses(end, |m.free| - KPAGES)
  {
    CopiedNext(m, built, n, g, d, v, dataAddr);
    CopiedIs(m, built, n, g, d, v, dataAddr);
    assert LostPageAt(n, k, d, v, p, bytes, 0);
    FromOn(m, n, k, d, {}, {}, {p}, {});
    assert |n.free| == 1;
    UserPagesGrow(v, end);
  }

  // Page v is missing when the loop comes to it.
  lemma CopyMissing(m: Mem, built: Mem, n: Mem, g: Page, d: Page, v: nat, dataAddr: nat)
    requires Linked(dataAddr) && Copied(m, built, n, g, d, v, dataAddr) && v < USERPAGES
    ensures |m.free| >= KPAGES + UserPages(v) && !FreshLoses(v, |m.free| - KPAGES) && Keeps(m, n, d)
  {
    CopiedNext(m, built, n, g, d, v, dataAddr);
    CopiedIs(m, built, n, g, d, v, dataAddr);
    FreshStops(v, v, |m.free| - KPAGES);
  }

  lemma CopyDone(m: Mem, built: Mem, n: Mem, g: Page, d: Page, end: nat, dataAddr: nat)
    requires Linked(dataAddr) && Copied(m, built, n, g, d, end, dataAddr) && end <= USERPAGES
    ensures |m.free| >= KPAGES + UserPages(end) && !FreshLoses(end, |m.free| - KPAGES) && d in m.free && Keeps(m, n, d)
    ensures IsRoot(n.owner, d) && Without(n.owner, d) == m.owner && Pages(n) == Pages(m) && Copies(m, n, g, d, end)
    ensures HasKernel(n, d, Kmap(dataAddr))
  {
    CopiedIs(m, built, n, g, d, end, dataAddr);
    assert FromAt(m, n, d, {}, {}, 0);
    OnlyOthers(m, n, d);
    FreshNeed(built.tables, d, end);
    FreshStops(end, end, |m.free| - KPAGES);
  }

  // freevm of a space that was not there at the start.
  lemma GivenUp(m: Mem, k: Mem, f: Mem, d: Page, lost: set<Page>)
    requires Good(m) && From(m, k, d, {}, lost) && d !in m.owner && Keeps(k, f, d)
    requires f.owner == Without(k.owner, d) && f.free == k.free + Of(k.owner, d)
    ensures f.owner == m.owner && f.free + lost == m.free && lost !! f.free && Keeps(m, f, d)
  {
    assert FromAt(m, k, d, {}, lost, 0) && GoodAt(m, 0) && GoodAt(k, 0);
    OnlyOthers(m, k, d);
    KeepsOn(m, k, f, d);
    forall p ensures p in f.free + lost <==> p in m.free {
      assert p in Pages(k) + lost <==> p in Pages(m);
      assert p in k.owner && k.owner[p].space != d <==> p in Without(k.owner, d);
    }
  }
}
