/**
 Two-level page tables. Memory is a map from page-table pages to their entries; `Owners` says, for
 every page an address space took from the allocator, what the space uses it for. The invariant ties
 the two together, so that no page serves two purposes.
 */
module PageTable {

  // A physical page number.
  type Page = nat

  const ENTRIES := 1024
  const PGSIZE := 4096
  const KERNBASE := 0x80000000
  // Virtual page numbers below this are user memory.
  const USERPAGES := 0x80000

  // The flag bits of an entry: present, writable, user, and the others.
  datatype Flag = P | W | U | Bit(n: nat)

  datatype Pte = Pte(page: Page, flags: set<Flag>)

  const EMPTY := Pte(0, {})

  type Tables = map<Page, seq<Pte>>

  datatype Role = Root | Table(d: nat) | User(v: nat)

  // A page of the address space whose page directory is `space`.
  datatype Own = Own(space: Page, role: Role)

  type Owners = map<Page, Own>

  function PDX(v: nat): nat { v / ENTRIES }

  function PTX(v: nat): (i: nat)
    ensures i < ENTRIES
  {
    v % ENTRIES
  }

  predicate DirPresent(t: Tables, g: Page, d: nat) { g in t && d < |t[g]| && P in t[g][d].flags }

  predicate Full(t: Tables, p: Page) { p in t && |t[p]| == ENTRIES }

  // The entry that the hardware finds for virtual page v.
  function Look(t: Tables, g: Page, v: nat): Pte {
    if DirPresent(t, g, PDX(v)) && Full(t, t[g][PDX(v)].page) then t[t[g][PDX(v)].page][PTX(v)] else EMPTY
  }

  predicate Mapped(t: Tables, g: Page, v: nat) { P in Look(t, g, v).flags }

  // What a translation of v gives: its page and permissions, or EMPTY for a fault.
  function View(t: Tables, g: Page, v: nat): Pte { if Mapped(t, g, v) then Look(t, g, v) else EMPTY }

  // ---------- The invariant ----------

  predicate IsRoot(o: Owners, g: Page) { g in o && o[g] == Own(g, Root) }

  predicate DirAt(t: Tables, o: Owners, g: Page, d: nat) {
    IsRoot(o, g) && DirPresent(t, g, d) ==> t[g][d].page in o && o[t[g][d].page] == Own(g, Table(d))
  }

  predicate UserAt(t: Tables, o: Owners, g: Page, v: nat) {
    IsRoot(o, g) && v < USERPAGES && Mapped(t, g, v) ==>
      Look(t, g, v).page in o && o[Look(t, g, v).page] == Own(g, User(v))
  }

  predicate OwnAt(t: Tables, o: Owners, p: Page) {
    p in o ==>
      var g := o[p].space;
      && IsRoot(o, g)
      && match o[p].role
         case Root => p == g && Full(t, p)
         case Table(d) => Full(t, p) && DirPresent(t, g, d) && t[g][d].page == p
         case User(v) => v < USERPAGES && Mapped(t, g, v) && Look(t, g, v).page == p
  }

  ghost predicate Inv(t: Tables, o: Owners) {
    && (forall p {:trigger OwnAt(t, o, p)} :: OwnAt(t, o, p))
    && (forall g, d {:trigger DirAt(t, o, g, d)} :: DirAt(t, o, g, d))
    && (forall g, v {:trigger UserAt(t, o, g, v)} :: UserAt(t, o, g, v))
  }

  lemma TableOf(t: Tables, o: Owners, g: Page, d: nat)
    requires Inv(t, o) && IsRoot(o, g) && DirPresent(t, g, d)
    ensures d < ENTRIES && Full(t, g) && Full(t, t[g][d].page)
    ensures t[g][d].page in o && o[t[g][d].page] == Own(g, Table(d))
  {
    assert OwnAt(t, o, g) && DirAt(t, o, g, d) && OwnAt(t, o, t[g][d].page);
  }

  // ---------- A new page-table page ----------

  function NewTable(t: Tables, g: Page, d: nat, p: Page): Tables
    requires g in t && d < |t[g]|
  {
    t[p := seq(ENTRIES, _ => EMPTY)][g := t[g][d := Pte(p, {P, W, U})]]
  }

  lemma NewTableDir(t: Tables, o: Owners, g: Page, d: nat, p: Page, g': Page, d': nat)
    requires Inv(t, o) && IsRoot(o, g) && d < ENTRIES && !DirPresent(t, g, d) && p !in o && IsRoot(o, g')
    ensures Full(t, g) && DirPresent(NewTable(t, g, d, p), g', d') == (DirPresent(t, g', d') || (g' == g && d' == d))
    ensures Full(t, g') && d' < ENTRIES ==>
      NewTable(t, g, d, p)[g'][d'] == if g' == g && d' == d then Pte(p, {P, W, U}) else t[g'][d']
  {
    assert OwnAt(t, o, g) && OwnAt(t, o, g');
  }

  lemma NewTableLook(t: Tables, o: Owners, g: Page, d: nat, p: Page, g': Page, v: nat)
    requires Inv(t, o) && IsRoot(o, g) && d < ENTRIES && !DirPresent(t, g, d) && p !in o && IsRoot(o, g')
    ensures Full(t, g) && Look(NewTable(t, g, d, p), g', v) == Look(t, g', v)
  {
    NewTableDir(t, o, g, d, p, g', PDX(v));
    if DirPresent(t, g', PDX(v)) { TableOf(t, o, g', PDX(v)); }
  }

  lemma NewTableKeeps(t: Tables, o: Owners, g: Page, d: nat, p: Page)
    requires Inv(t, o) && IsRoot(o, g) && d < ENTRIES && !DirPresent(t, g, d) && p !in o
    ensures Full(t, g) && Inv(NewTable(t, g, d, p), o[p := Own(g, Table(d))])
  {
    assert OwnAt(t, o, g);
    var t', o' := NewTable(t, g, d, p), o[p := Own(g, Table(d))];
    forall q ensures OwnAt(t', o', q) {
      assert OwnAt(t, o, q);
      if q in o {
        var h := o[q].space;
        match o[q].role
        case Root =>
        case Table(e) => NewTableDir(t, o, g, d, p, h, e); TableOf(t, o, h, e);
        case User(v) => NewTableLook(t, o, g, d, p, h, v);
      }
    }
    forall h, e ensures DirAt(t', o', h, e) {
      if IsRoot(o', h) { NewTableDir(t, o, g, d, p, h, e); assert DirAt(t, o, h, e); assert OwnAt(t, o, h); }
    }
    forall h, v ensures UserAt(t', o', h, v) {
      if IsRoot(o', h) { NewTableLook(t, o, g, d, p, h, v); assert UserAt(t, o, h, v); }
    }
  }

  // ---------- Writing one entry ----------

  function SetPte(t: Tables, g: Page, v: nat, e: Pte): Tables
    requires DirPresent(t, g, PDX(v)) && Full(t, t[g][PDX(v)].page)
  {
    var p := t[g][PDX(v)].page;
    t[p := t[p][PTX(v) := e]]
  }

  lemma SetPteDir(t: Tables, o: Owners, g: Page, v: nat, e: Pte, g': Page, d: nat)
    requires Inv(t, o) && IsRoot(o, g) && DirPresent(t, g, PDX(v)) && IsRoot(o, g')
    ensures Full(t, t[g][PDX(v)].page) && DirPresent(SetPte(t, g, v, e), g', d) == DirPresent(t, g', d)
    ensures DirPresent(t, g', d) ==> SetPte(t, g, v, e)[g'][d] == t[g'][d]
  {
    TableOf(t, o, g, PDX(v));
  }

  lemma SetPteLook(t: Tables, o: Owners, g: Page, v: nat, e: Pte, g': Page, w: nat)
    requires Inv(t, o) && IsRoot(o, g) && DirPresent(t, g, PDX(v)) && IsRoot(o, g')
    ensures Full(t, t[g][PDX(v)].page)
    ensures Look(SetPte(t, g, v, e), g', w) == if g' == g && w == v then e else Look(t, g', w)
  {
    TableOf(t, o, g, PDX(v));
    SetPteDir(t, o, g, v, e, g', PDX(w));
    if DirPresent(t, g', PDX(w)) { TableOf(t, o, g', PDX(w)); }
  }

  // Writing an entry keeps the invariant when the owners change with it: o' gains the new page of a
  // user entry and loses the old one.
  lemma SetPteKeeps(t: Tables, o: Owners, g: Page, v: nat, e: Pte, o': Owners)
    requires Inv(t, o) && IsRoot(o, g) && DirPresent(t, g, PDX(v)) && Full(t, t[g][PDX(v)].page)
    requires v >= USERPAGES ==> o' == o
    requires v < USERPAGES && P in e.flags ==> !Mapped(t, g, v) && e.page !in o && o' == o[e.page := Own(g, User(v))]
    requires v < USERPAGES && P !in e.flags ==> Mapped(t, g, v) && o' == o - {Look(t, g, v).page}
    ensures Inv(SetPte(t, g, v, e), o')
  {
    var t' := SetPte(t, g, v, e);
    assert UserAt(t, o, g, v);
    forall q ensures OwnAt(t', o', q) {
      assert OwnAt(t, o, q);
      if q in o && q in o' {
        var h := o[q].space;
        match o[q].role
        case Root =>
        case Table(d) => SetPteDir(t, o, g, v, e, h, d);
        case User(w) => SetPteLook(t, o, g, v, e, h, w);
      }
      SetPteLook(t, o, g, v, e, g, v);
    }
    forall h, d ensures DirAt(t', o', h, d) {
      if IsRoot(o', h) { SetPteDir(t, o, g, v, e, h, d); assert DirAt(t, o, h, d); }
    }
    forall h, w ensures UserAt(t', o', h, w) {
      if IsRoot(o', h) { SetPteLook(t, o, g, v, e, h, w); assert UserAt(t, o, h, w); }
    }
  }

  /** No physical page backs two user pages, in one address space or in two. */
  lemma NoSharing(t: Tables, o: Owners, g: Page, v: nat, g': Page, v': nat)
    requires Inv(t, o) && IsRoot(o, g) && IsRoot(o, g') && v < USERPAGES && v' < USERPAGES
    requires Mapped(t, g, v) && Mapped(t, g', v') && (g, v) != (g', v')
    ensures View(t, g, v).page != View(t, g', v').page
  {
    assert UserAt(t, o, g, v) && UserAt(t, o, g', v');
  }
}
