/**
 Which sectors the inode layer hands to log_write, and how many: what a transaction of fs.c takes of
 the log, against the MAXOPBLOCKS sectors that begin_op reserves for it.
 */
module LogUse {
  import opened FileBlocks
  import opened Bitmap

  const IPB := 8 // inodes in a sector

  datatype Sector = BitmapSector(n: int) | InodeSector(n: int) | BlockSector(b: int)

  function Distinct(log: seq<Sector>): set<Sector> { set x | x in log }

  // The sectors of balloc.
  function BallocLog(a: int): seq<Sector> { [BitmapSector(a / BPB), BlockSector(a)] }

  function One(b: bool): nat { if b then 1 else 0 }

  // ---------- What bmap allocates and logs ----------

  // The bitmap's sectors when the m lowest of the free blocks are taken.
  ghost function Maps(free: set<int>, m: nat): set<Sector> {
    if m == 0 then {}
    else
      var r := Left(free, m - 1);
      Maps(free, m - 1) + if r == {} then {} else {BitmapSector(Lowest(r) / BPB)}
  }

  lemma {:induction false} MapsMore(free: set<int>, m: nat, c: nat)
    ensures Maps(free, m + c) == Maps(free, m) + Maps(Left(free, m), c)
    decreases c
  {
    if c > 0 {
      MapsMore(free, m, c - 1);
      LeftMore(free, m, c - 1);
      assert m + c - 1 == m + (c - 1);
    }
  }

  // m blocks are taken and then c more.
  lemma TakenOn(free0: set<int>, m: nat, free: set<int>, c: nat, n: nat)
    requires m <= |free0| && free == Left(free0, m) && n == m + c
    ensures Left(free0, n) == Left(free, c) && Maps(free0, n) == Maps(free0, m) + Maps(free, c) && |free| == |free0| - m
  {
    LeftMore(free0, m, c);
    MapsMore(free0, m, c);
    LeftCount(free0, m);
  }

  // How many blocks bmap allocates for slot k: one for the slot, and the indirect block if it is missing.
  function NewAt(f: Files, i: int, k: int): nat
    requires HasInode(f, i) && 0 <= k < MAXFILE
  {
    One(Addr(f, i, k) == 0) + One(k >= NDIRECT && Addr(f, i, IND) == 0)
  }

  predicate FillsAt(f: Files, g: Files, i: int, k: int, l: int) {
    HasInode(f, i) && HasInode(g, i) && 0 <= l <= IND ==>
      (Addr(g, i, l) == 0 <==> Addr(f, i, l) == 0 && l != k && !(l == IND && k >= NDIRECT))
  }

  // Slot k is filled and, for one of its slots, the indirect block; no other slot of the inode is.
  ghost predicate Fills(f: Files, g: Files, i: int, k: int) {
    forall l {:trigger FillsAt(f, g, i, k, l)} :: FillsAt(f, g, i, k, l)
  }

  // The sectors bmap logs for slot k: f before it, with the free blocks free, and g after it.
  ghost function BmapSectors(f: Files, free: set<int>, g: Files, i: int, k: int): set<Sector>
    requires HasInode(f, i) && HasInode(g, i) && 0 <= k < MAXFILE
  {
    Maps(free, NewAt(f, i, k)) + SlotSector(f, g, i, k) + EntrySector(f, g, i, k)
  }

  function SlotSector(f: Files, g: Files, i: int, k: int): set<Sector>
    requires HasInode(f, i) && HasInode(g, i) && 0 <= k < MAXFILE
  {
    if Addr(f, i, k) == 0 then {BlockSector(Addr(g, i, k))} else {}
  }

  function EntrySector(f: Files, g: Files, i: int, k: int): set<Sector>
    requires HasInode(f, i) && HasInode(g, i) && 0 <= k < MAXFILE
  {
    if k >= NDIRECT && Addr(f, i, k) == 0 then {BlockSector(Addr(g, i, IND))} else {}
  }

  // bmap of slot k has filled it from the lowest free blocks and logged what it changed. (Like others below,
  // it is quantified over an unused z so that the verifier unfolds it only where asked to.)
  ghost predicate BmapLog(f: Files, free: set<int>, g: Files, free': set<int>, i: int, k: int, log: seq<Sector>) {
    forall z {:trigger BmapLogAt(f, free, g, free', i, k, log, z)} :: BmapLogAt(f, free, g, free', i, k, log, z)
  }

  ghost predicate BmapLogAt(f: Files, free: set<int>, g: Files, free': set<int>, i: int, k: int, log: seq<Sector>,
                            z: int) {
    && HasInode(f, i) && HasInode(g, i) && 0 <= k < MAXFILE && Fills(f, g, i, k)
    && NewAt(f, i, k) <= |free| && free' == Left(free, NewAt(f, i, k))
    && Distinct(log) == BmapSectors(f, free, g, i, k)
    && |log| == 2 * NewAt(f, i, k) + One(k >= NDIRECT && Addr(f, i, k) == 0)
  }

  predicate SetsAt(f: Files, g: Files, i: int, k: int, a: int, l: int) {
    HasInode(f, i) && HasInode(g, i) && 0 <= l <= IND ==> Addr(g, i, l) == if l == k then a else Addr(f, i, l)
  }

  lemma LinkDirectSets(f: Files, reserved: set<int>, i: int, k: int, a: int)
    requires Owned(f, reserved) && Fresh(f, reserved, a) && i in f.inodes && (0 <= k < NDIRECT || k == IND)
    requires Addr(f, i, k) == 0
    ensures Sets(f, LinkDirect(f, i, k, a), i, k, a)
  {
    var g := LinkDirect(f, i, k, a);
    forall l ensures SetsAt(f, g, i, k, a, l) { if 0 <= l <= IND { LinkDirectAddr(f, reserved, i, k, a, i, l); } }
  }

  lemma LinkIndirectSets(f: Files, reserved: set<int>, i: int, k: int, a: int)
    requires Owned(f, reserved) && Fresh(f, reserved, a) && i in f.inodes && NDIRECT <= k < MAXFILE
    requires Addr(f, i, k) == 0 && Addr(f, i, IND) != 0
    ensures f.inodes[i].addrs[NDIRECT] in f.disk && Sets(f, LinkIndirect(f, i, k, a), i, k, a)
  {
    LinkIndirectAddr(f, reserved, i, k, a, i, k);
    var g := LinkIndirect(f, i, k, a);
    forall l ensures SetsAt(f, g, i, k, a, l) { if 0 <= l <= IND { LinkIndirectAddr(f, reserved, i, k, a, i, l); } }
  }

  // Slot k has got the address a.
  ghost predicate Sets(f: Files, g: Files, i: int, k: int, a: int) {
    forall l {:trigger SetsAt(f, g, i, k, a, l)} :: SetsAt(f, g, i, k, a, l)
  }

  lemma TakeOne(free: set<int>)
    requires free != {}
    ensures Left(free, 1) == free - {Lowest(free)} && Maps(free, 1) == {BitmapSector(Lowest(free) / BPB)}
    ensures Lowest(free) in free && |Left(free, 1)| == |free| - 1
  {
    assert Left(free, 0) == free;
    LowestIn(free);
  }

  lemma DistinctPlus(a: seq<Sector>, b: seq<Sector>)
    ensures Distinct(a + b) == Distinct(a) + Distinct(b)
  {
  }

  // A slot that is filled already, and so is the indirect block for one of its slots.
  lemma NothingNew(f: Files, free: set<int>, i: int, k: int)
    requires HasInode(f, i) && 0 <= k < MAXFILE
    requires Addr(f, i, k) != 0 && (k >= NDIRECT ==> Addr(f, i, IND) != 0)
    ensures BmapLog(f, free, f, free, i, k, [])
  {
    forall l ensures FillsAt(f, f, i, k, l) {}
  }

  // A direct slot, filled.
  lemma DirectNew(f: Files, free: set<int>, g: Files, i: int, k: int, a: int)
    requires HasInode(f, i) && HasInode(g, i) && 0 <= k < NDIRECT
    requires Addr(f, i, k) == 0 && Sets(f, g, i, k, a) && a != 0 && free != {} && a == Lowest(free)
    ensures BmapLog(f, free, g, free - {a}, i, k, BallocLog(a))
  {
    TakeOne(free);
    forall l ensures FillsAt(f, g, i, k, l) { assert SetsAt(f, g, i, k, a, l); }
    assert SetsAt(f, g, i, k, a, k);
    assert Distinct(BallocLog(a)) == {BitmapSector(a / BPB), BlockSector(a)};
  }

  // A slot of an indirect block that is there, filled.
  lemma EntryNew(f: Files, free: set<int>, g: Files, i: int, k: int, a: int)
    requires HasInode(f, i) && HasInode(g, i) && NDIRECT <= k < MAXFILE
    requires Addr(f, i, k) == 0 && Addr(f, i, IND) != 0 && Sets(f, g, i, k, a) && a != 0 && free != {}
    requires a == Lowest(free)
    ensures BmapLog(f, free, g, free - {a}, i, k, BallocLog(a) + [BlockSector(Addr(f, i, IND))])
  {
    TakeOne(free);
    forall l ensures FillsAt(f, g, i, k, l) { assert SetsAt(f, g, i, k, a, l); }
    assert SetsAt(f, g, i, k, a, k) && SetsAt(f, g, i, k, a, IND);
    var ind := BlockSector(Addr(f, i, IND));
    assert Distinct(BallocLog(a) + [ind]) == {BitmapSector(a / BPB), BlockSector(a), ind};
  }

  lemma BothFill(f: Files, g: Files, h: Files, i: int, k: int, a: int)
    requires HasInode(f, i) && HasInode(g, i) && HasInode(h, i) && NDIRECT <= k < MAXFILE && Addr(f, i, IND) == 0
    requires a != 0
    requires Sets(f, g, i, IND, a) && Fills(g, h, i, k) && KeptAt(g, h, i, IND)
    ensures Fills(f, h, i, k) && Addr(h, i, IND) == a && Addr(g, i, k) == Addr(f, i, k)
    ensures NewAt(f, i, k) == 1 + NewAt(g, i, k)
  {
    assert SetsAt(f, g, i, IND, a, k) && SetsAt(f, g, i, IND, a, IND);
    forall l ensures FillsAt(f, h, i, k, l) { assert SetsAt(f, g, i, IND, a, l) && FillsAt(g, h, i, k, l); }
  }

  // The indirect block a, allocated into f to give g, and then slot k, giving h.
  lemma BothNew(f: Files, free: set<int>, g: Files, mid: set<int>, h: Files, free': set<int>, i: int, k: int, a: int,
                second: seq<Sector>)
    requires HasInode(f, i) && HasInode(g, i) && HasInode(h, i) && NDIRECT <= k < MAXFILE
    requires Addr(f, i, IND) == 0 && Addr(f, i, k) == 0 && Sets(f, g, i, IND, a) && a != 0 && free != {}
    requires a == Lowest(free)
    requires mid == free - {a} && BmapLog(g, mid, h, free', i, k, second) && KeptAt(g, h, i, IND)
    ensures BmapLog(f, free, h, free', i, k, BallocLog(a) + second)
  {
    assert BmapLogAt(g, mid, h, free', i, k, second, 0);
    BothFill(f, g, h, i, k, a);
    TakeOne(free);
    TakenOn(free, 1, mid, NewAt(g, i, k), NewAt(f, i, k));
    DistinctPlus(BallocLog(a), second);
    var map1, slot, ind := {BitmapSector(a / BPB)}, BlockSector(Addr(h, i, k)), BlockSector(a);
    assert Distinct(BallocLog(a)) == map1 + {ind};
    Shuffle(map1, ind, Maps(mid, NewAt(g, i, k)), slot);
  }

  lemma Shuffle<T>(map1: set<T>, ind: T, maps: set<T>, slot: T)
    ensures map1 + {ind} + (maps + {slot} + {ind}) == map1 + maps + {slot} + {ind}
  {
  }

  // The same blocks in the same slots.
  ghost predicate SameSlots(f: Files, g: Files, i: int) {
    && HasInode(f, i) && HasInode(g, i) && g.disk.Keys == f.disk.Keys && g.owner == f.owner
    && forall k :: 0 <= k <= IND ==> Addr(g, i, k) == Addr(f, i, k)
  }

  // ---------- The loop of writei ----------

  // The blocks that slot k costs a write which began at slot lo, judged by the files before the write:
  // the indirect block is allocated at the first of its slots that the write comes to.
  function NewHere(f: Files, i: int, lo: int, k: int): nat
    requires HasInode(f, i) && 0 <= k < MAXFILE
  {
    One(Addr(f, i, k) == 0) + One(k >= NDIRECT && Addr(f, i, IND) == 0 && (k == lo || k == NDIRECT))
  }

  // The blocks a write of slots lo .. hi allocates.
  function NewBlocks(f: Files, i: int, lo: int, hi: int): nat
    requires HasInode(f, i) && 0 <= lo && hi <= MAXFILE
  {
    if hi <= lo then 0 else NewBlocks(f, i, lo, hi - 1) + NewHere(f, i, lo, hi - 1)
  }

  // How many of those slots are new in the indirect block.
  function NewEntries(f: Files, i: int, lo: int, hi: int): nat
    requires HasInode(f, i) && 0 <= lo && hi <= MAXFILE
  {
    if hi <= lo then 0 else NewEntries(f, i, lo, hi - 1) + One(hi - 1 >= NDIRECT && Addr(f, i, hi - 1) == 0)
  }

  function DataSectors(f: Files, i: int, lo: int, hi: int): set<Sector>
    requires HasInode(f, i) && 0 <= lo && hi <= MAXFILE
  {
    if hi <= lo then {} else DataSectors(f, i, lo, hi - 1) + {BlockSector(Addr(f, i, hi - 1))}
  }

  predicate SinceAt(f0: Files, f: Files, i: int, lo: int, hi: int, l: int) {
    HasInode(f0, i) && HasInode(f, i) && 0 <= l <= IND ==>
      (Addr(f, i, l) == 0 <==> Addr(f0, i, l) == 0 && !(lo <= l < hi) && !(l == IND && hi > NDIRECT && hi > lo))
  }

  // What is empty since a write began in f0 and filled the slots lo .. hi.
  ghost predicate Since(f0: Files, f: Files, i: int, lo: int, hi: int) {
    forall l {:trigger SinceAt(f0, f, i, lo, hi, l)} :: SinceAt(f0, f, i, lo, hi, l)
  }

  // The indirect block, if it got an entry.
  function IndSectors(f0: Files, f: Files, i: int, lo: int, hi: int): set<Sector>
    requires HasInode(f0, i) && HasInode(f, i) && 0 <= lo && hi <= MAXFILE
  {
    if NewEntries(f0, i, lo, hi) > 0 then {BlockSector(Addr(f, i, IND))} else {}
  }

  // The sectors logged for slots lo .. hi: the data, the bitmap blocks and the indirect block if it changed.
  ghost function SlotSectors(f0: Files, free0: set<int>, f: Files, i: int, lo: int, hi: int): set<Sector>
    requires HasInode(f0, i) && HasInode(f, i) && 0 <= lo && hi <= MAXFILE
  {
    DataSectors(f, i, lo, hi) + Maps(free0, NewBlocks(f0, i, lo, hi)) + IndSectors(f0, f, i, lo, hi)
  }

  // A write that began in f0 with the blocks free0 free has filled and logged the slots lo .. hi.
  ghost predicate LogTo(f0: Files, free0: set<int>, f: Files, free: set<int>, i: int, lo: int, hi: int,
                        log: seq<Sector>) {
    forall z {:trigger LogToAt(f0, free0, f, free, i, lo, hi, log, z)} :: LogToAt(f0, free0, f, free, i, lo, hi, log, z)
  }

  ghost predicate LogToAt(f0: Files, free0: set<int>, f: Files, free: set<int>, i: int, lo: int, hi: int,
                          log: seq<Sector>, z: int) {
    && HasInode(f0, i) && HasInode(f, i) && 0 <= lo <= hi <= MAXFILE && Since(f0, f, i, lo, hi)
    && NewBlocks(f0, i, lo, hi) <= |free0| && free == Left(free0, NewBlocks(f0, i, lo, hi))
    && Distinct(log) == SlotSectors(f0, free0, f, i, lo, hi)
    && |log| == hi - lo + 2 * NewBlocks(f0, i, lo, hi) + NewEntries(f0, i, lo, hi)
  }

  lemma LogBegins(f: Files, free: set<int>, i: int, lo: int)
    requires HasInode(f, i) && 0 <= lo <= MAXFILE
    ensures LogTo(f, free, f, free, i, lo, lo, [])
  {
    forall l ensures SinceAt(f, f, i, lo, lo, l) {}
  }

  lemma {:induction false} DataStays(f: Files, g: Files, i: int, lo: int, hi: int)
    requires HasInode(f, i) && HasInode(g, i) && 0 <= lo <= hi <= MAXFILE
    requires forall k :: lo <= k < hi ==> Addr(g, i, k) == Addr(f, i, k)
    ensures DataSectors(g, i, lo, hi) == DataSectors(f, i, lo, hi)
    decreases hi
  {
    if hi > lo { DataStays(f, g, i, lo, hi - 1); }
  }

  // What bmap allocates now is what was counted before the write.
  lemma NewIsHere(f0: Files, f: Files, i: int, lo: int, k: int)
    requires HasInode(f0, i) && HasInode(f, i) && 0 <= lo <= k < MAXFILE && Since(f0, f, i, lo, k)
    ensures NewAt(f, i, k) == NewHere(f0, i, lo, k) && (Addr(f, i, k) == 0 <==> Addr(f0, i, k) == 0)
  {
    assert SinceAt(f0, f, i, lo, k, k) && SinceAt(f0, f, i, lo, k, IND);
  }

  lemma SinceOn(f0: Files, f: Files, g: Files, h: Files, i: int, lo: int, k: int)
    requires 0 <= lo <= k < MAXFILE && HasInode(f, i) && Since(f0, f, i, lo, k) && Fills(f, g, i, k)
    requires SameSlots(g, h, i)
    ensures Since(f0, h, i, lo, k + 1)
  {
    var hi := k + 1;
    forall l ensures SinceAt(f0, h, i, lo, hi, l) { assert SinceAt(f0, f, i, lo, k, l) && FillsAt(f, g, i, k, l); }
  }

  // The indirect block that has changed does not move.
  lemma {:induction false} EntriesMeanIndirect(f: Files, i: int, lo: int, hi: int)
    requires HasInode(f, i) && 0 <= lo && hi <= MAXFILE && NewEntries(f, i, lo, hi) > 0
    ensures hi > NDIRECT && hi > lo
    decreases hi
  {
    if hi - 1 < NDIRECT { EntriesMeanIndirect(f, i, lo, hi - 1); }
  }

  // The parts of the sectors, one turn on: the data, the bitmap and the indirect block.
  lemma DataOn(f0: Files, f: Files, g: Files, h: Files, i: int, lo: int, k: int)
    requires HasInode(f0, i) && HasInode(f, i) && 0 <= lo <= k < MAXFILE && Since(f0, f, i, lo, k)
    requires Allocates(f, g, i, k) && SameSlots(g, h, i)
    ensures DataSectors(h, i, lo, k + 1) == DataSectors(f, i, lo, k) + {BlockSector(Addr(g, i, k))}
  {
    forall l | lo <= l < k ensures Addr(h, i, l) == Addr(f, i, l) {
      assert SinceAt(f0, f, i, lo, k, l) && KeptAt(f, g, i, l);
    }
    DataStays(f, h, i, lo, k);
  }

  lemma IndOn(f0: Files, f: Files, g: Files, h: Files, i: int, lo: int, k: int)
    requires HasInode(f0, i) && HasInode(f, i) && 0 <= lo <= k < MAXFILE && Since(f0, f, i, lo, k)
    requires Allocates(f, g, i, k) && SameSlots(g, h, i)
    ensures IndSectors(f0, h, i, lo, k + 1) == IndSectors(f0, f, i, lo, k) + EntrySector(f, g, i, k)
  {
    NewIsHere(f0, f, i, lo, k);
    if NewEntries(f0, i, lo, k) > 0 {
      EntriesMeanIndirect(f0, i, lo, k);
      assert SinceAt(f0, f, i, lo, k, IND) && KeptAt(f, g, i, IND);
    }
  }

  lemma CallsOn(f0: Files, f: Files, i: int, lo: int, k: int)
    requires HasInode(f0, i) && HasInode(f, i) && 0 <= lo <= k < MAXFILE && Since(f0, f, i, lo, k)
    ensures NewBlocks(f0, i, lo, k + 1) == NewBlocks(f0, i, lo, k) + NewAt(f, i, k)
    ensures NewEntries(f0, i, lo, k + 1) == NewEntries(f0, i, lo, k) + One(k >= NDIRECT && Addr(f, i, k) == 0)
  {
    NewIsHere(f0, f, i, lo, k);
  }

  lemma Gather<T>(data: set<T>, maps: set<T>, ind: set<T>, x: set<T>, maps': set<T>, slot: set<T>, entry: set<T>)
    requires slot <= x
    ensures data + maps + ind + (maps' + slot + entry) + x == (data + x) + (maps + maps') + (ind + entry)
  {
  }

  // The sectors of one turn, added.
  lemma SectorsOn(f0: Files, free0: set<int>, f: Files, free: set<int>, g: Files, h: Files, i: int, lo: int, k: int)
    requires HasInode(f0, i) && HasInode(f, i) && 0 <= lo <= k < MAXFILE && Since(f0, f, i, lo, k)
    requires Allocates(f, g, i, k) && SameSlots(g, h, i) && NewBlocks(f0, i, lo, k) <= |free0|
    requires free == Left(free0, NewBlocks(f0, i, lo, k))
    ensures SlotSectors(f0, free0, f, i, lo, k) + BmapSectors(f, free, g, i, k) + {BlockSector(Addr(g, i, k))}
         == SlotSectors(f0, free0, h, i, lo, k + 1)
  {
    DataOn(f0, f, g, h, i, lo, k);
    IndOn(f0, f, g, h, i, lo, k);
    CallsOn(f0, f, i, lo, k);
    TakenOn(free0, NewBlocks(f0, i, lo, k), free, NewAt(f, i, k), NewBlocks(f0, i, lo, k + 1));
    Gather(DataSectors(f, i, lo, k), Maps(free0, NewBlocks(f0, i, lo, k)), IndSectors(f0, f, i, lo, k),
           {BlockSector(Addr(g, i, k))}, Maps(free, NewAt(f, i, k)), SlotSector(f, g, i, k), EntrySector(f, g, i, k));
  }

  lemma AllDistinct(log: seq<Sector>, more: seq<Sector>, x: Sector)
    ensures Distinct(log + more + [x]) == Distinct(log) + Distinct(more) + {x}
  {
  }

  // One turn: f before it, g after bmap, h with the data block stored and logged.
  lemma LogOn(f0: Files, free0: set<int>, f: Files, free: set<int>, g: Files, free': set<int>, h: Files, i: int,
              lo: int, k: int, log: seq<Sector>, more: seq<Sector>)
    requires LogTo(f0, free0, f, free, i, lo, k, log) && 0 <= k < MAXFILE && Allocates(f, g, i, k)
    requires BmapLog(f, free, g, free', i, k, more) && SameSlots(g, h, i)
    ensures LogTo(f0, free0, h, free', i, lo, k + 1, log + more + [BlockSector(Addr(g, i, k))])
  {
    assert LogToAt(f0, free0, f, free, i, lo, k, log, 0) && BmapLogAt(f, free, g, free', i, k, more, 0);
    SinceOn(f0, f, g, h, i, lo, k);
    SectorsOn(f0, free0, f, free, g, h, i, lo, k);
    CallsOn(f0, f, i, lo, k);
    TakenOn(free0, NewBlocks(f0, i, lo, k), free, NewAt(f, i, k), NewBlocks(f0, i, lo, k + 1));
    AllDistinct(log, more, BlockSector(Addr(g, i, k)));
  }

  // bmap finds no block: then the blocks of the write are more than there are.
  lemma LogStops(f0: Files, free0: set<int>, f: Files, free: set<int>, i: int, lo: int, k: int, hi: int,
                 log: seq<Sector>)
    requires LogTo(f0, free0, f, free, i, lo, k, log) && HasInode(f, i) && 0 <= k < hi <= MAXFILE
    requires NewAt(f, i, k) > |free|
    ensures HasInode(f0, i) && 0 <= lo && NewBlocks(f0, i, lo, hi) > |free0|
  {
    assert LogToAt(f0, free0, f, free, i, lo, k, log, 0);
    CallsOn(f0, f, i, lo, k);
    LeftCount(free0, NewBlocks(f0, i, lo, k));
    MoreBlocks(f0, i, lo, k + 1, hi);
  }

  lemma {:induction false} MoreBlocks(f: Files, i: int, lo: int, mid: int, hi: int)
    requires HasInode(f, i) && 0 <= lo <= mid <= hi <= MAXFILE
    ensures NewBlocks(f, i, lo, mid) <= NewBlocks(f, i, lo, hi)
    decreases hi
  {
    if mid < hi { MoreBlocks(f, i, lo, mid, hi - 1); }
  }

  // One more than the last slot of the tot bytes at off.
  function EndSlot(off: int, tot: int): int { if tot == 0 then off / BSIZE else (off + tot - 1) / BSIZE + 1 }

  lemma NextSlot(off: int, tot: int, m: int)
    requires 0 <= off && 0 <= tot && 0 < m && (tot == 0 || (off + tot) % BSIZE == 0) && (off + tot) % BSIZE + m <= BSIZE
    ensures EndSlot(off, tot) == (off + tot) / BSIZE && EndSlot(off, tot + m) == EndSlot(off, tot) + 1
  {
    assert (off + tot + m - 1) / BSIZE == (off + tot) / BSIZE;
    if tot > 0 { assert (off + tot - 1) / BSIZE + 1 == (off + tot) / BSIZE; }
  }

  lemma EndSlotFits(off: int, tot: int, n: int)
    requires 0 <= off && 0 <= tot <= n && off + n <= MAXBYTES
    ensures 0 <= off / BSIZE <= EndSlot(off, tot) <= EndSlot(off, n) <= MAXFILE
  {
  }

  // ---------- What writei logs ----------

  // Does a write of n bytes at off make inode i larger?
  predicate Grows(f: Files, i: int, off: int, n: int)
    requires i in f.inodes
  {
    n > 0 && off + n > f.inodes[i].size
  }

  // The slots and, when the file has grown, the inode: f0 and free0 before the write, f after it.
  ghost predicate WriteLog(f0: Files, free0: set<int>, f: Files, i: int, off: int, n: int, log: seq<Sector>) {
    forall z {:trigger WriteLogAt(f0, free0, f, i, off, n, log, z)} :: WriteLogAt(f0, free0, f, i, off, n, log, z)
  }

  ghost predicate WriteLogAt(f0: Files, free0: set<int>, f: Files, i: int, off: int, n: int, log: seq<Sector>, z: int) {
    var lo, hi := off / BSIZE, EndSlot(off, n);
    && HasInode(f0, i) && HasInode(f, i) && 0 <= lo <= hi <= MAXFILE && Since(f0, f, i, lo, hi)
    && NewBlocks(f0, i, lo, hi) <= |free0|
    && Distinct(log) == SlotSectors(f0, free0, f, i, lo, hi)
                        + (if Grows(f0, i, off, n) then {InodeSector(i / IPB)} else {})
    && |log| == WriteCalls(f0, i, off, n)
  }

  // Its calls of log_write.
  function WriteCalls(f: Files, i: int, off: int, n: int): nat
    requires HasInode(f, i) && 0 <= off / BSIZE <= EndSlot(off, n) <= MAXFILE
  {
    var lo, hi := off / BSIZE, EndSlot(off, n);
    hi - lo + 2 * NewBlocks(f, i, lo, hi) + NewEntries(f, i, lo, hi) + One(Grows(f, i, off, n))
  }

  // And its distinct sectors, all from the state before it.
  ghost function LogNeed(f: Files, free: set<int>, i: int, off: int, n: int): nat
    requires HasInode(f, i) && 0 <= off / BSIZE <= EndSlot(off, n) <= MAXFILE
  {
    var lo, hi := off / BSIZE, EndSlot(off, n);
    hi - lo + |Maps(free, NewBlocks(f, i, lo, hi))| + One(NewEntries(f, i, lo, hi) > 0) + One(Grows(f, i, off, n))
  }

  lemma LogEnds(f0: Files, free0: set<int>, f: Files, free: set<int>, g: Files, i: int, off: int, n: int,
                log: seq<Sector>, last: seq<Sector>)
    requires off / BSIZE <= EndSlot(off, n) && LogTo(f0, free0, f, free, i, off / BSIZE, EndSlot(off, n), log)
    requires i in f0.inodes && SameSlots(f, g, i) && last == if Grows(f0, i, off, n) then [InodeSector(i / IPB)] else []
    ensures WriteLog(f0, free0, g, i, off, n, log + last)
  {
    var lo, hi := off / BSIZE, EndSlot(off, n);
    assert LogToAt(f0, free0, f, free, i, lo, hi, log, 0);
    forall l ensures SinceAt(f0, g, i, lo, hi, l) { assert SinceAt(f0, f, i, lo, hi, l); }
    DataStays(f, g, i, lo, hi);
    DistinctPlus(log, last);
    assert Distinct(last) == if Grows(f0, i, off, n) then {InodeSector(i / IPB)} else {};
    assert WriteLogAt(f0, free0, g, i, off, n, log + last, 0);
  }

  // ---------- Counting sectors ----------

  function BitmapSectors(n: nat): set<Sector> { if n == 0 then {} else BitmapSectors(n - 1) + {BitmapSector(n - 1)} }

  lemma {:induction false} BitmapCount(n: nat)
    ensures |BitmapSectors(n)| == n && forall x :: x in BitmapSectors(n) <==> x.BitmapSector? && 0 <= x.n < n
  {
    if n > 0 { BitmapCount(n - 1); }
  }

  lemma {:induction false} DataMembers(f: Files, i: int, lo: int, hi: int, x: Sector)
    requires HasInode(f, i) && 0 <= lo && hi <= MAXFILE && x in DataSectors(f, i, lo, hi)
    ensures x.BlockSector? && exists k :: lo <= k < hi && x.b == Addr(f, i, k)
    decreases hi
  {
    if hi > lo && x != BlockSector(Addr(f, i, hi - 1)) { DataMembers(f, i, lo, hi - 1, x); }
  }

  // The blocks of different slots are different.
  lemma {:induction false} DataCount(f: Files, reserved: set<int>, i: int, lo: int, hi: int)
    requires Owned(f, reserved) && i in f.inodes && 0 <= lo <= hi <= MAXFILE
    requires forall k :: lo <= k < hi ==> Addr(f, i, k) != 0
    ensures |DataSectors(f, i, lo, hi)| == hi - lo && (forall x :: x in DataSectors(f, i, lo, hi) ==> x.BlockSector?)
    ensures Addr(f, i, IND) != 0 ==> BlockSector(Addr(f, i, IND)) !in DataSectors(f, i, lo, hi)
    decreases hi
  {
    if hi > lo {
      DataCount(f, reserved, i, lo, hi - 1);
      var x := BlockSector(Addr(f, i, hi - 1));
      assert OwnsAt(f, i, hi - 1) && OwnsAt(f, i, IND);
      forall k | lo <= k < hi - 1 ensures Addr(f, i, k) != x.b { assert OwnsAt(f, i, k); }
      if x in DataSectors(f, i, lo, hi - 1) { DataMembers(f, i, lo, hi - 1, x); }
    }
  }

  lemma SubsetCard(a: set<Sector>, b: set<Sector>)
    requires a <= b
    ensures |a| <= |b|
  {
    assert b == a + (b - a);
  }

  lemma {:induction false} MapsAreMaps(free: set<int>, m: nat)
    ensures forall x :: x in Maps(free, m) ==> x.BitmapSector?
  {
    if m > 0 { MapsAreMaps(free, m - 1); }
  }

  lemma CountParts(data: set<Sector>, maps: set<Sector>, ind: set<Sector>, ino: set<Sector>)
    requires (forall x :: x in data ==> x.BlockSector?) && (forall x :: x in ind ==> x.BlockSector?)
    requires (forall x :: x in maps ==> x.BitmapSector?) && (forall x :: x in ino ==> x.InodeSector?) && data !! ind
    ensures |data + maps + ind + ino| == |data| + |maps| + |ind| + |ino|
  {
    assert data !! maps && (data + maps) !! ind && (data + maps + ind) !! ino;
  }

  // The data sectors of a write are as many as its slots, and the indirect block is not among them.
  lemma DataParts(f0: Files, f: Files, reserved: set<int>, i: int, lo: int, hi: int)
    requires Owned(f, reserved) && i in f.inodes && HasInode(f0, i) && 0 <= lo <= hi <= MAXFILE
    requires Since(f0, f, i, lo, hi)
    ensures var data, ind := DataSectors(f, i, lo, hi), IndSectors(f0, f, i, lo, hi);
      && |data| == hi - lo && |ind| == One(NewEntries(f0, i, lo, hi) > 0) && data !! ind
      && (forall x :: x in data ==> x.BlockSector?) && forall x :: x in ind ==> x.BlockSector?
  {
    forall k | lo <= k < hi ensures Addr(f, i, k) != 0 { assert SinceAt(f0, f, i, lo, hi, k); }
    DataCount(f, reserved, i, lo, hi);
    if NewEntries(f0, i, lo, hi) > 0 {
      EntriesMeanIndirect(f0, i, lo, hi);
      assert SinceAt(f0, f, i, lo, hi, IND);
    }
  }

  /**
   A write of n bytes at off logs exactly as many distinct sectors as the files and the bitmap before it
   say: one for each block it touches, one for each bitmap block it allocates from, one for the
   indirect block if that gets an entry, and one for the inode if the file grows.
   */
  lemma WriteLogCount(f0: Files, free0: set<int>, f: Files, reserved: set<int>, i: int, off: int, n: int,
                      log: seq<Sector>)
    requires Owned(f, reserved) && WriteLog(f0, free0, f, i, off, n, log)
    ensures HasInode(f0, i) && 0 <= off / BSIZE <= EndSlot(off, n) <= MAXFILE
    ensures |Distinct(log)| == LogNeed(f0, free0, i, off, n) && |log| == WriteCalls(f0, i, off, n)
  {
    assert WriteLogAt(f0, free0, f, i, off, n, log, 0);
    var lo, hi := off / BSIZE, EndSlot(off, n);
    DataParts(f0, f, reserved, i, lo, hi);
    MapsAreMaps(free0, NewBlocks(f0, i, lo, hi));
    CountParts(DataSectors(f, i, lo, hi), Maps(free0, NewBlocks(f0, i, lo, hi)), IndSectors(f0, f, i, lo, hi),
               if Grows(f0, i, off, n) then {InodeSector(i / IPB)} else {});
  }

  // ---------- The count from off, n and the size ----------

  lemma {:induction false} NoneNew(f: Files, i: int, lo: int, hi: int)
    requires HasInode(f, i) && 0 <= lo <= hi <= MAXFILE && forall k :: lo <= k < hi ==> Addr(f, i, k) != 0
    ensures NewBlocks(f, i, lo, hi) == NewEntries(f, i, lo, hi) == 0
    decreases hi
  {
    if lo < hi { NoneNew(f, i, lo, hi - 1); }
  }

  /** Inside the file nothing is allocated: a write logs its blocks and nothing else. */
  lemma InsideNeed(f: Files, free: set<int>, i: int, off: int, n: int)
    requires HasInode(f, i) && NoHoles(f) && 0 <= off && 0 <= n && off + n <= f.inodes[i].size
    ensures 0 <= off / BSIZE <= EndSlot(off, n) <= MAXFILE
    ensures LogNeed(f, free, i, off, n) == WriteCalls(f, i, off, n) == EndSlot(off, n) - off / BSIZE
  {
    EndSlotFits(off, n, n);
    var lo, hi := off / BSIZE, EndSlot(off, n);
    forall k | lo <= k < hi ensures Addr(f, i, k) != 0 { assert FilledAt(f, i, k); }
    NoneNew(f, i, lo, hi);
  }

  predicate TightAt(f: Files, i: int, k: int) {
    HasInode(f, i) && 0 <= k < MAXFILE && Addr(f, i, k) != 0 ==> k * BSIZE < f.inodes[i].size
  }

  // No block lies past the end of the file, as long as no write has panicked.
  ghost predicate Tight(f: Files, i: int) { forall k {:trigger TightAt(f, i, k)} :: TightAt(f, i, k) }

  /** A write keeps it so. */
  lemma WriteKeepsTight(f0: Files, free0: set<int>, f: Files, i: int, off: int, n: int, log: seq<Sector>)
    requires WriteLog(f0, free0, f, i, off, n, log) && Tight(f0, i) && 0 <= off && 0 <= n && i in f0.inodes
    requires i in f.inodes
    requires f.inodes[i].size == Max(f0.inodes[i].size, off + n)
    ensures Tight(f, i)
  {
    assert WriteLogAt(f0, free0, f, i, off, n, log, 0);
    forall k ensures TightAt(f, i, k) {
      assert SinceAt(f0, f, i, off / BSIZE, EndSlot(off, n), k) && TightAt(f0, i, k);
    }
  }

  // The slots a file of this size fills.
  function SizeSlots(size: int): int { (size + BSIZE - 1) / BSIZE }

  // The distinct sectors of a write on a disk with one bitmap block.
  function FlatNeed(off: int, n: int, size: int): int {
    var blocks, hi := EndSlot(off, n) - off / BSIZE, EndSlot(off, n);
    blocks + One(hi > SizeSlots(size)) + One(hi > SizeSlots(size) && hi > NDIRECT) + One(n > 0 && off + n > size)
  }

  lemma {:induction false} LeftFrom(s: set<int>, m: nat)
    ensures Left(s, m) <= s
  {
    if m > 0 { LeftFrom(s, m - 1); }
  }

  lemma LowIsFirst(b: int)
    requires 0 <= b < BPB
    ensures b / BPB == 0
  {
  }

  lemma {:induction false} OneMap(free: set<int>, m: nat)
    requires m <= |free| && forall b :: b in free ==> 0 <= b < BPB
    ensures |Maps(free, m)| == One(m > 0) && Maps(free, m) <= {BitmapSector(0)}
  {
    if m > 0 {
      OneMap(free, m - 1);
      LeftCount(free, m - 1);
      LeftFrom(free, m - 1);
      var b := Lowest(Left(free, m - 1));
      LowIsFirst(b);
      assert Maps(free, m) == Maps(free, m - 1) + {BitmapSector(b / BPB)} == {BitmapSector(0)};
    }
  }

  /** There the count comes from off, n and the size alone. */
  lemma FlatNeedIs(f: Files, free: set<int>, i: int, off: int, n: int)
    requires HasInode(f, i) && NoHoles(f) && Tight(f, i) && 0 <= off <= f.inodes[i].size && 0 <= n
    requires off + n <= MAXBYTES
    requires EndSlot(off, n) <= MAXFILE && NewBlocks(f, i, off / BSIZE, EndSlot(off, n)) <= |free|
    requires forall b :: b in free ==> 0 <= b < BPB
    ensures LogNeed(f, free, i, off, n) == FlatNeed(off, n, f.inodes[i].size)
  {
    var lo, hi, full := off / BSIZE, EndSlot(off, n), SizeSlots(f.inodes[i].size);
    EndSlotFits(off, n, n);
    OneMap(free, NewBlocks(f, i, lo, hi));
    if hi <= full {
      forall k | lo <= k < hi ensures Addr(f, i, k) != 0 { assert FilledAt(f, i, k); }
      NoneNew(f, i, lo, hi);
    } else {
      assert lo <= full && TightAt(f, i, hi - 1);
      if hi <= NDIRECT && NewEntries(f, i, lo, hi) > 0 { EntriesMeanIndirect(f, i, lo, hi); }
    }
  }

  // The disk has at most this many bitmap blocks.
  ghost predicate Mapped(f: Files, bitmaps: nat) { forall b :: b in f.disk ==> 0 <= b < bitmaps * BPB }

  lemma BitmapIn(f: Files, bitmaps: nat, n: int)
    requires Mapped(f, bitmaps) && n * BPB in f.disk
    ensures BitmapSector(n) in BitmapSectors(bitmaps)
  {
    BitmapCount(bitmaps);
    assert 0 <= n * BPB < bitmaps * BPB;
  }

  // ---------- itrunc ----------

  // The blocks in slots below n of inode i.
  function Held(f: Files, i: int, n: int): nat
    requires HasInode(f, i) && n <= IND + 1
  {
    if n <= 0 then 0 else Held(f, i, n - 1) + (if Addr(f, i, n - 1) != 0 then 1 else 0)
  }

  function Blocks(f: Files, i: int, n: int): set<int> {
    set a | a in f.owner && f.owner[a].inum == i && f.owner[a].k < n
  }

  lemma {:induction false} HeldIsOwned(f: Files, reserved: set<int>, i: int, n: int)
    requires Owned(f, reserved) && i in f.inodes && 0 <= n <= IND + 1
    ensures Held(f, i, n) == |Blocks(f, i, n)|
  {
    var was, now := Blocks(f, i, n - 1), Blocks(f, i, n);
    if n == 0 {
      forall a | a in f.owner ensures a !in now { assert OwnedAt(f, reserved, a); }
      assert now == {};
    } else {
      HeldIsOwned(f, reserved, i, n - 1);
      var b := Addr(f, i, n - 1);
      assert OwnsAt(f, i, n - 1);
      forall a ensures a in now <==> a in was || (b != 0 && a == b) { assert OwnedAt(f, reserved, a); }
      assert now == if b != 0 then was + {b} else was;
    }
  }

  predicate FreeLogAt(f: Files, i: int, n: int, log: seq<Sector>, j: int) {
    && HasInode(f, i) && n <= IND + 1 && |log| == Held(f, i, n)
    && (0 <= j < |log| ==> log[j].BitmapSector? && log[j].n * BPB in f.disk)
  }

  // The log after the slots below n have been freed: one bitmap sector for each block.
  ghost predicate FreeLog(f: Files, i: int, n: int, log: seq<Sector>) {
    forall j {:trigger FreeLogAt(f, i, n, log, j)} :: FreeLogAt(f, i, n, log, j)
  }

  lemma NothingToLog(f: Files, i: int)
    requires HasInode(f, i)
    ensures FreeLog(f, i, 0, [])
  {
  }

  lemma FreeLogGrows(f: Files, i: int, n: int, log: seq<Sector>, more: seq<Sector>)
    requires FreeLog(f, i, n, log) && HasInode(f, i) && 0 <= n <= IND
    requires var a := Addr(f, i, n);
      if a == 0 then more == [] else more == [BitmapSector(a / BPB)] && forall b :: 0 <= b <= a ==> b in f.disk
    requires Addr(f, i, n) >= 0
    ensures FreeLog(f, i, n + 1, log + more)
  {
    var all, a := log + more, Addr(f, i, n);
    assert 0 <= a / BPB * BPB <= a;
    var m := n + 1;
    forall j ensures FreeLogAt(f, i, m, all, j) { assert FreeLogAt(f, i, n, log, j); }
  }

  lemma {:induction false} FreeLogSkips(f: Files, reserved: set<int>, i: int, n: int, log: seq<Sector>)
    requires Owned(f, reserved) && i in f.inodes && Addr(f, i, IND) == 0 && NDIRECT <= n <= IND + 1
    requires FreeLog(f, i, n, log)
    ensures FreeLog(f, i, IND + 1, log)
    decreases IND + 1 - n
  {
    if n <= IND {
      assert Addr(f, i, n) == 0 && log + [] == log;
      FreeLogGrows(f, i, n, log, []);
      FreeLogSkips(f, reserved, i, n + 1, log);
    }
  }

  // What itrunc logs: a bitmap sector for each of the inode's blocks, then the inode's sector.
  ghost predicate TruncLog(f: Files, i: int, log: seq<Sector>) {
    |log| > 0 && FreeLog(f, i, IND + 1, log[..|log| - 1]) && log[|log| - 1] == InodeSector(i / IPB)
  }

  /** itrunc calls log_write once for each block of the file and once more, but on few distinct sectors. */
  lemma TruncLogBounds(f: Files, reserved: set<int>, i: int, bitmaps: nat, log: seq<Sector>)
    requires Owned(f, reserved) && i in f.inodes && TruncLog(f, i, log) && Mapped(f, bitmaps)
    ensures |log| == |Blocks(f, i, IND + 1)| + 1 && |Distinct(log)| <= bitmaps + 1
  {
    var init, ino, all := log[..|log| - 1], InodeSector(i / IPB), IND + 1;
    HeldIsOwned(f, reserved, i, all);
    assert FreeLogAt(f, i, all, init, 0);
    BitmapCount(bitmaps);
    var some := BitmapSectors(bitmaps) + {ino};
    forall x | x in log ensures x in some {
      var j :| 0 <= j < |log| && log[j] == x;
      if j < |init| {
        assert FreeLogAt(f, i, all, init, j) && init[j] == x;
        BitmapIn(f, bitmaps, x.n);
      }
    }
    SubsetCard(Distinct(log), some);
  }
}
