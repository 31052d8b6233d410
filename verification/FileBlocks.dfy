/**
 How fs.c lays files out on disk blocks: direct and indirect addresses, which block belongs to
 which inode, and the bytes a file holds.
 */
module FileBlocks {

  const BSIZE := 512
  const NDIRECT := 12
  const NINDIRECT := 128
  const MAXFILE := NDIRECT + NINDIRECT

  // A file's data blocks are its slots 0..MAXFILE; its indirect block is slot IND.
  const IND := MAXFILE

  type Block = seq<int>

  predicate IsBlock(b: Block) { |b| == BSIZE && forall i :: 0 <= i < BSIZE ==> 0 <= b[i] < 256 }

  function Zeros(): (b: Block)
    ensures IsBlock(b) && forall i :: 0 <= i < BSIZE ==> b[i] == 0
  {
    seq(BSIZE, i => 0)
  }

  datatype Inode = Inode(size: int, addrs: seq<int>)

  datatype Slot = Slot(inum: int, k: int)

  // The disk as seen through the cache, the inodes, and (specification only) who owns each block.
  datatype Files = Files(disk: map<int, Block>, inodes: map<int, Inode>, owner: map<int, Slot>)

  // ---------- Little-endian words of an indirect block ----------

  const TWO32 := 0x1_0000_0000

  function Word(b: Block, j: int): (w: int)
    requires IsBlock(b) && 0 <= j < NINDIRECT
  {
    b[4 * j] + 256 * b[4 * j + 1] + 65536 * b[4 * j + 2] + 16777216 * b[4 * j + 3]
  }

  function SetWord(b: Block, j: int, v: int): (r: Block)
    requires IsBlock(b) && 0 <= j < NINDIRECT && 0 <= v < TWO32
    ensures IsBlock(r)
  {
    b[4 * j := v % 256][4 * j + 1 := v / 256 % 256][4 * j + 2 := v / 65536 % 256][4 * j + 3 := v / 16777216]
  }

  lemma WordOfSetWord(b: Block, j: int, v: int, i: int)
    requires IsBlock(b) && 0 <= j < NINDIRECT && 0 <= v < TWO32 && 0 <= i < NINDIRECT
    ensures Word(SetWord(b, j, v), i) == if i == j then v else Word(b, i)
  {
    var r := SetWord(b, j, v);
    if i == j {
      Digits(v);
      assert r[4 * j] == v % 256 && r[4 * j + 1] == v / 256 % 256 && r[4 * j + 2] == v / 65536 % 256
        && r[4 * j + 3] == v / 16777216;
    } else {
      assert forall x :: 0 <= x < BSIZE && x / 4 != j ==> r[x] == b[x];
    }
  }

  lemma Digits(v: int)
    requires 0 <= v
    ensures v == v % 256 + 256 * (v / 256 % 256) + 65536 * (v / 65536 % 256) + 16777216 * (v / 16777216)
  {
    assert v / 65536 == v / 256 / 256 && v / 16777216 == v / 65536 / 256;
  }

  // ---------- Block ownership ----------

  // The block number in a slot; 0 means none.
  function Addr(f: Files, i: int, k: int): int
    requires i in f.inodes && |f.inodes[i].addrs| == NDIRECT + 1 && 0 <= k <= IND
  {
    var a := f.inodes[i].addrs;
    if k < NDIRECT then a[k]
    else if k == IND then a[NDIRECT]
    else if a[NDIRECT] != 0 && a[NDIRECT] in f.disk && IsBlock(f.disk[a[NDIRECT]])
      then Word(f.disk[a[NDIRECT]], k - NDIRECT)
    else 0
  }

  ghost predicate Shape(f: Files) {
    && (forall i :: i in f.inodes ==> |f.inodes[i].addrs| == NDIRECT + 1)
    && forall a :: a in f.disk ==> 0 <= a < TWO32 && IsBlock(f.disk[a])
  }

  predicate OwnsAt(f: Files, i: int, k: int) {
    i in f.inodes && |f.inodes[i].addrs| == NDIRECT + 1 && 0 <= k <= IND && Addr(f, i, k) != 0 ==>
      Addr(f, i, k) in f.owner && f.owner[Addr(f, i, k)] == Slot(i, k)
  }

  predicate OwnedAt(f: Files, reserved: set<int>, a: int) {
    a in f.owner ==>
      var w := f.owner[a];
      && a != 0 && a in f.disk && a !in reserved
      && w.inum in f.inodes && |f.inodes[w.inum].addrs| == NDIRECT + 1 && 0 <= w.k <= IND && Addr(f, w.inum, w.k) == a
  }

  // Every block in use is in exactly one slot of exactly one inode.
  ghost predicate Owned(f: Files, reserved: set<int>) {
    && Shape(f) && 0 in reserved
    && (forall i, k {:trigger OwnsAt(f, i, k)} :: OwnsAt(f, i, k))
    && forall a {:trigger OwnedAt(f, reserved, a)} :: OwnedAt(f, reserved, a)
  }

  // ---------- Allocation into a slot ----------

  ghost predicate Fresh(f: Files, reserved: set<int>, b: int) {
    b in f.disk && b !in f.owner && b !in reserved
  }

  // ip->addrs[n] = balloc(): n is a direct slot or, for slot IND, index NDIRECT.
  function LinkDirect(f: Files, i: int, k: int, b: int): Files
    requires i in f.inodes && |f.inodes[i].addrs| == NDIRECT + 1 && (0 <= k < NDIRECT || k == IND)
  {
    var ip := f.inodes[i];
    f.(disk := f.disk[b := Zeros()], owner := f.owner[b := Slot(i, k)],
       inodes := f.inodes[i := ip.(addrs := ip.addrs[(if k == IND then NDIRECT else k) := b])])
  }

  // a[bn] = balloc() in the indirect block
  function LinkIndirect(f: Files, i: int, k: int, b: int): Files
    requires i in f.inodes && |f.inodes[i].addrs| == NDIRECT + 1 && NDIRECT <= k < MAXFILE && 0 <= b < TWO32
    requires f.inodes[i].addrs[NDIRECT] in f.disk && IsBlock(f.disk[f.inodes[i].addrs[NDIRECT]])
  {
    var ind := f.inodes[i].addrs[NDIRECT];
    f.(disk := f.disk[b := Zeros()][ind := SetWord(f.disk[ind], k - NDIRECT, b)], owner := f.owner[b := Slot(i, k)])
  }

  lemma ZeroWords(j: int)
    requires 0 <= j < NINDIRECT
    ensures IsBlock(Zeros()) && Word(Zeros(), j) == 0
  {
  }

  lemma LinkDirectAddr(f: Files, reserved: set<int>, i: int, k: int, b: int, i': int, k': int)
    requires Owned(f, reserved) && Fresh(f, reserved, b) && i in f.inodes && (0 <= k < NDIRECT || k == IND)
    requires Addr(f, i, k) == 0 && i' in f.inodes && 0 <= k' <= IND
    ensures Addr(LinkDirect(f, i, k, b), i', k') == if i' == i && k' == k then b else Addr(f, i', k')
  {
    assert OwnsAt(f, i', IND);
    if NDIRECT <= k' < IND { ZeroWords(k' - NDIRECT); }
  }

  lemma LinkDirectOwned(f: Files, reserved: set<int>, i: int, k: int, b: int)
    requires Owned(f, reserved) && Fresh(f, reserved, b) && i in f.inodes && (0 <= k < NDIRECT || k == IND)
    requires Addr(f, i, k) == 0
    ensures Owned(LinkDirect(f, i, k, b), reserved)
  {
    var f' := LinkDirect(f, i, k, b);
    ZeroWords(0);
    forall i', k' ensures OwnsAt(f', i', k') {
      if i' in f.inodes && 0 <= k' <= IND {
        LinkDirectAddr(f, reserved, i, k, b, i', k');
        assert OwnsAt(f, i', k');
      }
    }
    forall a ensures OwnedAt(f', reserved, a) {
      assert OwnedAt(f, reserved, a);
      if a in f'.owner { LinkDirectAddr(f, reserved, i, k, b, f'.owner[a].inum, f'.owner[a].k); }
    }
  }

  lemma LinkIndirectAddr(f: Files, reserved: set<int>, i: int, k: int, b: int, i': int, k': int)
    requires Owned(f, reserved) && Fresh(f, reserved, b) && i in f.inodes && NDIRECT <= k < MAXFILE
    requires Addr(f, i, k) == 0 && Addr(f, i, IND) != 0 && i' in f.inodes && 0 <= k' <= IND
    ensures f.inodes[i].addrs[NDIRECT] in f.disk
    ensures Addr(LinkIndirect(f, i, k, b), i', k') == if i' == i && k' == k then b else Addr(f, i', k')
  {
    assert OwnsAt(f, i, IND) && OwnsAt(f, i', IND);
    var ind := f.inodes[i].addrs[NDIRECT];
    assert OwnedAt(f, reserved, ind);
    if NDIRECT <= k' < IND { WordOfSetWord(f.disk[ind], k - NDIRECT, b, k' - NDIRECT); }
  }

  lemma LinkIndirectOwned(f: Files, reserved: set<int>, i: int, k: int, b: int)
    requires Owned(f, reserved) && Fresh(f, reserved, b) && i in f.inodes && NDIRECT <= k < MAXFILE
    requires Addr(f, i, k) == 0 && Addr(f, i, IND) != 0
    ensures f.inodes[i].addrs[NDIRECT] in f.disk
    ensures Owned(LinkIndirect(f, i, k, b), reserved)
  {
    LinkIndirectAddr(f, reserved, i, k, b, i, k);
    var f' := LinkIndirect(f, i, k, b);
    ZeroWords(0);
    forall i', k' ensures OwnsAt(f', i', k') {
      if i' in f.inodes && 0 <= k' <= IND {
        LinkIndirectAddr(f, reserved, i, k, b, i', k');
        assert OwnsAt(f, i', k');
      }
    }
    forall a ensures OwnedAt(f', reserved, a) {
      assert OwnedAt(f, reserved, a);
      if a in f'.owner { LinkIndirectAddr(f, reserved, i, k, b, f'.owner[a].inum, f'.owner[a].k); }
    }
  }

  // ---------- The bytes of a file ----------

  const MAXBYTES := MAXFILE * BSIZE

  predicate HasInode(f: Files, i: int) { i in f.inodes && |f.inodes[i].addrs| == NDIRECT + 1 }

  function Byte(f: Files, i: int, p: int): int
    requires HasInode(f, i) && 0 <= p < MAXBYTES
  {
    var a := Addr(f, i, p / BSIZE);
    if a != 0 && a in f.disk && IsBlock(f.disk[a]) then f.disk[a][p % BSIZE] else 0
  }

  function Content(f: Files, i: int): (c: seq<int>)
    requires HasInode(f, i) && 0 <= f.inodes[i].size <= MAXBYTES
    ensures |c| == f.inodes[i].size
  {
    seq(f.inodes[i].size, p requires 0 <= p < f.inodes[i].size => Byte(f, i, p))
  }

  predicate FilledAt(f: Files, i: int, k: int) {
    HasInode(f, i) && 0 <= k < MAXFILE && k * BSIZE < f.inodes[i].size ==> Addr(f, i, k) != 0
  }

  // Every block below the size has an address.
  ghost predicate NoHoles(f: Files) {
    && (forall i :: i in f.inodes ==> 0 <= f.inodes[i].size <= MAXBYTES)
    && forall i, k {:trigger FilledAt(f, i, k)} :: FilledAt(f, i, k)
  }

  // ---------- What allocation leaves alone ----------

  predicate KeptAt(f: Files, f': Files, i: int, k: int) {
    HasInode(f, i) && HasInode(f', i) && 0 <= k <= IND && Addr(f, i, k) != 0 ==> Addr(f', i, k) == Addr(f, i, k)
  }

  predicate SameByteAt(f: Files, f': Files, i: int, p: int) {
    HasInode(f, i) && HasInode(f', i) && 0 <= p < MAXBYTES && Addr(f, i, p / BSIZE) != 0 ==>
      Byte(f', i, p) == Byte(f, i, p)
  }

  predicate SameOwnerAt(f: Files, f': Files, i: int, k: int, a: int) {
    && (a in f.owner ==> a in f'.owner && f'.owner[a] == f.owner[a])
    && (a in f'.owner && a !in f.owner ==> f'.owner[a] == Slot(i, k) || f'.owner[a] == Slot(i, IND))
  }

  // f' is f with at most slot k of inode i and i's indirect block newly allocated.
  ghost predicate Allocates(f: Files, f': Files, i: int, k: int) {
    && f'.disk.Keys == f.disk.Keys && f'.inodes.Keys == f.inodes.Keys
    && (forall j :: j in f.inodes ==>
          |f.inodes[j].addrs| == |f'.inodes[j].addrs| && f'.inodes[j].size == f.inodes[j].size)
    && (forall j :: j in f.inodes && j != i ==> f'.inodes[j] == f.inodes[j])
    && (forall j, l {:trigger KeptAt(f, f', j, l)} :: KeptAt(f, f', j, l))
    && (forall j, p {:trigger SameByteAt(f, f', j, p)} :: SameByteAt(f, f', j, p))
    && (forall a {:trigger SameOwnerAt(f, f', i, k, a)} :: SameOwnerAt(f, f', i, k, a))
  }

  lemma AllocatesNothing(f: Files, i: int, k: int)
    ensures Allocates(f, f, i, k)
  {
  }

  lemma AllocatesTrans(f: Files, g: Files, h: Files, i: int, k: int)
    requires Shape(f) && Shape(g) && Shape(h) && Allocates(f, g, i, IND) && Allocates(g, h, i, k)
    ensures Allocates(f, h, i, k)
  {
    forall j, l ensures KeptAt(f, h, j, l) { assert KeptAt(f, g, j, l) && KeptAt(g, h, j, l); }
    forall j, p ensures SameByteAt(f, h, j, p) {
      assert SameByteAt(f, g, j, p) && SameByteAt(g, h, j, p) && KeptAt(f, g, j, p / BSIZE);
    }
    forall a ensures SameOwnerAt(f, h, i, k, a) {
      assert SameOwnerAt(f, g, i, IND, a) && SameOwnerAt(g, h, i, k, a);
    }
  }

  lemma LinkDirectAllocates(f: Files, reserved: set<int>, i: int, k: int, b: int)
    requires Owned(f, reserved) && Fresh(f, reserved, b) && i in f.inodes && (0 <= k < NDIRECT || k == IND)
    requires Addr(f, i, k) == 0
    ensures Allocates(f, LinkDirect(f, i, k, b), i, k)
  {
    var f' := LinkDirect(f, i, k, b);
    forall j, l ensures KeptAt(f, f', j, l) {
      if HasInode(f, j) && 0 <= l <= IND { LinkDirectAddr(f, reserved, i, k, b, j, l); }
    }
    forall j, p ensures SameByteAt(f, f', j, p) {
      if HasInode(f, j) && 0 <= p < MAXBYTES {
        LinkDirectAddr(f, reserved, i, k, b, j, p / BSIZE);
        assert OwnsAt(f, j, p / BSIZE);
      }
    }
    forall a ensures SameOwnerAt(f, f', i, k, a) {}
  }

  lemma LinkIndirectAllocates(f: Files, reserved: set<int>, i: int, k: int, b: int)
    requires Owned(f, reserved) && Fresh(f, reserved, b) && i in f.inodes && NDIRECT <= k < MAXFILE
    requires Addr(f, i, k) == 0 && Addr(f, i, IND) != 0
    ensures f.inodes[i].addrs[NDIRECT] in f.disk
    ensures Allocates(f, LinkIndirect(f, i, k, b), i, k)
  {
    LinkIndirectAddr(f, reserved, i, k, b, i, k);
    assert OwnsAt(f, i, IND);
    var f' := LinkIndirect(f, i, k, b);
    forall j, l ensures KeptAt(f, f', j, l) {
      if HasInode(f, j) && 0 <= l <= IND { LinkIndirectAddr(f, reserved, i, k, b, j, l); }
    }
    forall j, p ensures SameByteAt(f, f', j, p) {
      if HasInode(f, j) && 0 <= p < MAXBYTES {
        LinkIndirectAddr(f, reserved, i, k, b, j, p / BSIZE);
        assert OwnsAt(f, j, p / BSIZE);
      }
    }
    forall a ensures SameOwnerAt(f, f', i, k, a) {}
  }

  lemma AllocatesNoHoles(f: Files, f': Files, i: int, k: int)
    requires Shape(f) && Shape(f') && NoHoles(f) && Allocates(f, f', i, k)
    ensures NoHoles(f')
    ensures forall j :: j in f.inodes ==> j in f'.inodes && Content(f', j) == Content(f, j)
  {
    forall j, l ensures FilledAt(f', j, l) { assert FilledAt(f, j, l) && KeptAt(f, f', j, l); }
    forall j | j in f.inodes ensures Content(f', j) == Content(f, j) {
      forall p | 0 <= p < f.inodes[j].size ensures Content(f', j)[p] == Content(f, j)[p] {
        assert FilledAt(f, j, p / BSIZE) && SameByteAt(f, f', j, p);
      }
    }
  }

  // ---------- Writing into a data block ----------

  function WriteData(f: Files, a: int, blk: Block): Files {
    f.(disk := f.disk[a := blk])
  }

  lemma WriteDataAddr(f: Files, reserved: set<int>, i: int, k: int, blk: Block, i': int, k': int)
    requires Owned(f, reserved) && i in f.inodes && 0 <= k < MAXFILE && Addr(f, i, k) != 0 && IsBlock(blk)
    requires i' in f.inodes && 0 <= k' <= IND
    ensures Addr(WriteData(f, Addr(f, i, k), blk), i', k') == Addr(f, i', k')
  {
    assert OwnsAt(f, i, k) && OwnsAt(f, i', IND);
  }

  lemma WriteDataOwned(f: Files, reserved: set<int>, i: int, k: int, blk: Block)
    requires Owned(f, reserved) && i in f.inodes && 0 <= k < MAXFILE && Addr(f, i, k) != 0 && IsBlock(blk)
    ensures Owned(WriteData(f, Addr(f, i, k), blk), reserved)
  {
    var f' := WriteData(f, Addr(f, i, k), blk);
    assert OwnsAt(f, i, k);
    assert OwnedAt(f, reserved, Addr(f, i, k));
    forall i', k' ensures OwnsAt(f', i', k') {
      if i' in f.inodes && 0 <= k' <= IND { WriteDataAddr(f, reserved, i, k, blk, i', k'); assert OwnsAt(f, i', k'); }
    }
    forall a ensures OwnedAt(f', reserved, a) {
      assert OwnedAt(f, reserved, a);
      if a in f.owner { WriteDataAddr(f, reserved, i, k, blk, f.owner[a].inum, f.owner[a].k); }
    }
  }

  lemma WriteDataByte(f: Files, reserved: set<int>, i: int, k: int, blk: Block, i': int, p: int)
    requires Owned(f, reserved) && i in f.inodes && 0 <= k < MAXFILE && Addr(f, i, k) != 0 && IsBlock(blk)
    requires i' in f.inodes && 0 <= p < MAXBYTES
    ensures Byte(WriteData(f, Addr(f, i, k), blk), i', p)
         == if i' == i && p / BSIZE == k then blk[p % BSIZE] else Byte(f, i', p)
  {
    WriteDataAddr(f, reserved, i, k, blk, i', p / BSIZE);
    assert OwnsAt(f, i, k) && OwnsAt(f, i', p / BSIZE);
    assert OwnedAt(f, reserved, Addr(f, i, k));
  }

  // ---------- A whole write ----------

  function Overwrite(was: seq<int>, off: int, src: seq<int>): seq<int>
    requires 0 <= off <= |was|
  {
    was[..off] + src + (if off + |src| < |was| then was[off + |src|..] else [])
  }

  function Max(a: int, b: int): int { if a < b then b else a }

  predicate WrittenAt(f0: Files, f: Files, i: int, off: int, src: seq<int>, tot: int, p: int) {
    HasInode(f0, i) && HasInode(f, i) && 0 <= off && 0 <= tot <= |src| && off + tot <= MAXBYTES
      && f.inodes[i].size <= MAXBYTES
      && 0 <= p < Max(f.inodes[i].size, off + tot) ==>
      && Addr(f, i, p / BSIZE) != 0
      && Byte(f, i, p) == if off <= p < off + tot then src[p - off] else Byte(f0, i, p)
  }

  predicate OtherAt(f0: Files, f: Files, i: int, j: int, p: int) {
    j != i && HasInode(f0, j) && HasInode(f, j) && 0 <= p < MAXBYTES && p < f0.inodes[j].size ==>
      Addr(f, j, p / BSIZE) != 0 && Byte(f, j, p) == Byte(f0, j, p)
  }

  // The first tot bytes of src are in place at off; nothing else below any size has changed.
  ghost predicate Written(f0: Files, f: Files, i: int, off: int, src: seq<int>, tot: int) {
    && f.inodes.Keys == f0.inodes.Keys
    && (forall j :: j in f0.inodes ==> f.inodes[j].size == f0.inodes[j].size)
    && (forall j :: j in f0.inodes && j != i ==> f.inodes[j] == f0.inodes[j])
    && (forall p {:trigger WrittenAt(f0, f, i, off, src, tot, p)} :: WrittenAt(f0, f, i, off, src, tot, p))
    && (forall j, p {:trigger OtherAt(f0, f, i, j, p)} :: OtherAt(f0, f, i, j, p))
  }

  lemma WriteBegins(f: Files, i: int, off: int, src: seq<int>)
    requires Shape(f) && NoHoles(f) && i in f.inodes && 0 <= off <= f.inodes[i].size
    ensures Written(f, f, i, off, src, 0)
  {
    forall p ensures WrittenAt(f, f, i, off, src, 0, p) { assert FilledAt(f, i, p / BSIZE); }
    forall j, p ensures OtherAt(f, f, i, j, p) { assert FilledAt(f, j, p / BSIZE); }
  }

  function Patch(was: Block, r: int, piece: seq<int>): (b: Block)
    requires |was| == BSIZE && 0 <= r && r + |piece| <= BSIZE
    ensures |b| == BSIZE
  {
    was[..r] + piece + was[r + |piece|..]
  }

  // A file's bytes after one turn of writei's loop, which stored blk in slot k: f before it, g after bmap.
  lemma WriteStepOwn(f0: Files, f: Files, g: Files, reserved: set<int>, i: int, off: int, src: seq<int>, tot: int,
                     m: int, blk: Block)
    requires Shape(f0) && Shape(f) && Owned(g, reserved) && i in f0.inodes && i in g.inodes && 0 <= off && IsBlock(blk)
    requires 0 <= tot && 0 < m && tot + m <= |src| && off + tot + m <= MAXBYTES && (off + tot) % BSIZE + m <= BSIZE
    requires Written(f0, f, i, off, src, tot) && f0.inodes[i].size <= MAXBYTES
    requires var k := (off + tot) / BSIZE; Allocates(f, g, i, k) && Addr(g, i, k) != 0 && Addr(g, i, k) in g.disk
    requires blk == Patch(g.disk[Addr(g, i, (off + tot) / BSIZE)], (off + tot) % BSIZE, src[tot..tot + m])
    ensures var h, done := WriteData(g, Addr(g, i, (off + tot) / BSIZE), blk), tot + m;
      forall p {:trigger WrittenAt(f0, h, i, off, src, done, p)} :: WrittenAt(f0, h, i, off, src, done, p)
  {
    var k, done := (off + tot) / BSIZE, tot + m;
    var h := WriteData(g, Addr(g, i, k), blk);
    forall p ensures WrittenAt(f0, h, i, off, src, done, p) {
      if 0 <= p < Max(f0.inodes[i].size, off + done) {
        WriteDataByte(g, reserved, i, k, blk, i, p);
        WriteDataAddr(g, reserved, i, k, blk, i, p / BSIZE);
        assert WrittenAt(f0, f, i, off, src, tot, p) && KeptAt(f, g, i, p / BSIZE) && SameByteAt(f, g, i, p);
      }
    }
  }

  // And the other files' bytes.
  lemma WriteStepOther(f0: Files, f: Files, g: Files, reserved: set<int>, i: int, off: int, src: seq<int>, tot: int,
                       k: int, blk: Block)
    requires Shape(f0) && Shape(f) && Owned(g, reserved) && i in g.inodes && IsBlock(blk) && 0 <= k < MAXFILE
    requires Written(f0, f, i, off, src, tot) && Allocates(f, g, i, k) && Addr(g, i, k) != 0
    ensures forall j, p {:trigger OtherAt(f0, WriteData(g, Addr(g, i, k), blk), i, j, p)} ::
      OtherAt(f0, WriteData(g, Addr(g, i, k), blk), i, j, p)
  {
    var h := WriteData(g, Addr(g, i, k), blk);
    forall j, p ensures OtherAt(f0, h, i, j, p) {
      if j != i && j in f0.inodes && 0 <= p < MAXBYTES && p < f0.inodes[j].size {
        WriteDataByte(g, reserved, i, k, blk, j, p);
        WriteDataAddr(g, reserved, i, k, blk, j, p / BSIZE);
        assert OtherAt(f0, f, i, j, p) && KeptAt(f, g, j, p / BSIZE) && SameByteAt(f, g, j, p);
      }
    }
  }

  lemma PatchIsBlock(was: Block, r: int, src: seq<int>, tot: int, m: int)
    requires IsBlock(was) && 0 <= r && 0 <= tot && 0 <= m && r + m <= BSIZE && tot + m <= |src|
    requires forall x :: 0 <= x < |src| ==> 0 <= src[x] < 256
    ensures IsBlock(Patch(was, r, src[tot..tot + m]))
  {
  }

  // One turn of writei's loop: f before it, g after bmap, then the patched block stored.
  lemma WriteStep(f0: Files, f: Files, g: Files, reserved: set<int>, i: int, off: int, src: seq<int>, tot: int, m: int)
    requires Shape(f0) && Shape(f) && Owned(g, reserved) && NoHoles(f0) && i in f0.inodes
    requires 0 <= off <= f0.inodes[i].size
    requires 0 <= tot && 0 < m && tot + m <= |src| && off + tot + m <= MAXBYTES && (off + tot) % BSIZE + m <= BSIZE
    requires forall x :: 0 <= x < |src| ==> 0 <= src[x] < 256
    requires Written(f0, f, i, off, src, tot)
    requires var k := (off + tot) / BSIZE; Allocates(f, g, i, k) && Addr(g, i, k) != 0 && Addr(g, i, k) in g.disk
    ensures var k, r := (off + tot) / BSIZE, (off + tot) % BSIZE;
      var a := Addr(g, i, k);
      var blk := Patch(g.disk[a], r, src[tot..tot + m]);
      IsBlock(blk) && Owned(WriteData(g, a, blk), reserved) && Written(f0, WriteData(g, a, blk), i, off, src, tot + m)
  {
    var k, r := (off + tot) / BSIZE, (off + tot) % BSIZE;
    var a := Addr(g, i, k);
    var blk := Patch(g.disk[a], r, src[tot..tot + m]);
    PatchIsBlock(g.disk[a], r, src, tot, m);
    WriteDataOwned(g, reserved, i, k, blk);
    WriteStepOwn(f0, f, g, reserved, i, off, src, tot, m, blk);
    WriteStepOther(f0, f, g, reserved, i, off, src, tot, k, blk);
  }

  function SetSize(f: Files, i: int, size: int): Files
    requires i in f.inodes
  {
    f.(inodes := f.inodes[i := f.inodes[i].(size := size)])
  }

  lemma SetSizeOwned(f: Files, reserved: set<int>, i: int, size: int)
    requires Owned(f, reserved) && i in f.inodes
    ensures Owned(SetSize(f, i, size), reserved)
  {
    var f' := SetSize(f, i, size);
    forall j, k ensures OwnsAt(f', j, k) { assert OwnsAt(f, j, k); }
    forall a ensures OwnedAt(f', reserved, a) { assert OwnedAt(f, reserved, a); }
  }

  // The file now reads as its old bytes with src written over them at off; no other file changed.
  // (Quantified over an unused z so that the verifier unfolds it only where asked to.)
  ghost predicate WroteOnly(f: Files, f': Files, i: int, off: int, src: seq<int>)
    requires Shape(f) && Shape(f') && NoHoles(f) && NoHoles(f') && i in f.inodes && 0 <= off <= f.inodes[i].size
  {
    forall z {:trigger WroteOnlyAt(f, f', i, off, src, z)} :: WroteOnlyAt(f, f', i, off, src, z)
  }

  ghost predicate WroteOnlyAt(f: Files, f': Files, i: int, off: int, src: seq<int>, z: int)
    requires Shape(f) && Shape(f') && NoHoles(f) && NoHoles(f') && i in f.inodes && 0 <= off <= f.inodes[i].size
  {
    && f'.inodes.Keys == f.inodes.Keys
    && Content(f', i) == Overwrite(Content(f, i), off, src)
    && forall j :: j in f.inodes && j != i ==> f'.inodes[j] == f.inodes[j] && Content(f', j) == Content(f, j)
  }

  lemma WrittenContent(f0: Files, f: Files, i: int, off: int, src: seq<int>)
    requires Shape(f0) && Shape(f) && NoHoles(f0) && i in f0.inodes && 0 <= off <= f0.inodes[i].size
    requires off + |src| <= MAXBYTES
    requires Written(f0, f, i, off, src, |src|)
    ensures Content(SetSize(f, i, Max(f0.inodes[i].size, off + |src|)), i) == Overwrite(Content(f0, i), off, src)
  {
    var size := Max(f0.inodes[i].size, off + |src|);
    var c', c := Content(SetSize(f, i, size), i), Content(f0, i);
    forall p | 0 <= p < size ensures c'[p] == Overwrite(c, off, src)[p] {
      assert WrittenAt(f0, f, i, off, src, |src|, p);
      assert c'[p] == Byte(f, i, p);
      OverwriteAt(c, off, src, p);
    }
    assert |Overwrite(c, off, src)| == size;
  }

  lemma OverwriteAt(was: seq<int>, off: int, src: seq<int>, p: int)
    requires 0 <= off <= |was| && 0 <= p < Max(|was|, off + |src|)
    ensures |Overwrite(was, off, src)| == Max(|was|, off + |src|)
    ensures Overwrite(was, off, src)[p] == if off <= p < off + |src| then src[p - off] else was[p]
  {
  }

  lemma WriteDone(f0: Files, f: Files, i: int, off: int, src: seq<int>)
    requires Shape(f0) && Shape(f) && NoHoles(f0) && i in f0.inodes && 0 <= off <= f0.inodes[i].size
    requires off + |src| <= MAXBYTES
    requires Written(f0, f, i, off, src, |src|)
    ensures var f' := SetSize(f, i, Max(f0.inodes[i].size, off + |src|));
      Shape(f') && NoHoles(f') && WroteOnly(f0, f', i, off, src)
  {
    var size := Max(f0.inodes[i].size, off + |src|);
    var f' := SetSize(f, i, size);
    forall j, k ensures FilledAt(f', j, k) {
      assert WrittenAt(f0, f, i, off, src, |src|, k * BSIZE) && OtherAt(f0, f, i, j, k * BSIZE);
    }
    WrittenContent(f0, f, i, off, src);
    forall j | j in f0.inodes && j != i ensures Content(f', j) == Content(f0, j) {
      forall p | 0 <= p < f0.inodes[j].size ensures Content(f', j)[p] == Content(f0, j)[p] {
        assert OtherAt(f0, f, i, j, p);
      }
    }
  }

  // Writing in consecutive pieces is writing the whole.
  lemma OverwriteJoins(was: seq<int>, off: int, a: seq<int>, b: seq<int>)
    requires 0 <= off <= |was|
    ensures Overwrite(Overwrite(was, off, a), off + |a|, b) == Overwrite(was, off, a + b)
  {
  }

  lemma WroteOnlyJoins(f: Files, g: Files, h: Files, i: int, off: int, a: seq<int>, b: seq<int>)
    requires Shape(f) && Shape(g) && Shape(h) && NoHoles(f) && NoHoles(g) && NoHoles(h)
    requires i in f.inodes && 0 <= off <= f.inodes[i].size && WroteOnly(f, g, i, off, a)
    requires i in g.inodes && off + |a| <= g.inodes[i].size && WroteOnly(g, h, i, off + |a|, b)
    ensures WroteOnly(f, h, i, off, a + b)
  {
    assert WroteOnlyAt(f, g, i, off, a, 0) && WroteOnlyAt(g, h, i, off + |a|, b, 0);
    OverwriteJoins(Content(f, i), off, a, b);
  }

  lemma WroteSize(f: Files, g: Files, i: int, off: int, src: seq<int>)
    requires Shape(f) && Shape(g) && NoHoles(f) && NoHoles(g) && i in f.inodes && 0 <= off <= f.inodes[i].size
    requires WroteOnly(f, g, i, off, src)
    ensures g.inodes.Keys == f.inodes.Keys && g.inodes[i].size == Max(f.inodes[i].size, off + |src|)
  {
    assert WroteOnlyAt(f, g, i, off, src, 0);
  }

  lemma WroteNothing(f: Files, i: int, off: int)
    requires Shape(f) && NoHoles(f) && i in f.inodes && 0 <= off <= f.inodes[i].size
    ensures WroteOnly(f, f, i, off, [])
  {
    var c := Content(f, i);
    assert c[..off] + [] + (if off < |c| then c[off..] else []) == c;
  }

  ghost predicate PrefixAt(f: Files, g: Files, i: int, off: int, src: seq<int>, done: int, z: int)
    requires Shape(f) && Shape(g) && NoHoles(f) && NoHoles(g) && i in f.inodes && 0 <= off && 0 <= done <= |src|
  {
    if off <= f.inodes[i].size then
      WroteOnly(f, g, i, off, src[..done]) && i in g.inodes && off + done <= g.inodes[i].size
    else done == 0 && g == f
  }

  // The first done bytes of src have been written at off, or nothing has because off is past the
  // end; quantified over an unused z so that the verifier unfolds it only where asked to.
  ghost predicate WrotePrefix(f: Files, g: Files, i: int, off: int, src: seq<int>, done: int)
    requires Shape(f) && Shape(g) && NoHoles(f) && NoHoles(g) && i in f.inodes && 0 <= off && 0 <= done <= |src|
  {
    forall z {:trigger PrefixAt(f, g, i, off, src, done, z)} :: PrefixAt(f, g, i, off, src, done, z)
  }

  lemma PrefixStarts(f: Files, i: int, off: int, src: seq<int>)
    requires Shape(f) && NoHoles(f) && i in f.inodes && 0 <= off
    ensures WrotePrefix(f, f, i, off, src, 0)
  {
    if off <= f.inodes[i].size { WroteNothing(f, i, off); }
  }

  lemma PrefixBound(f: Files, g: Files, i: int, off: int, src: seq<int>, done: int)
    requires Shape(f) && Shape(g) && NoHoles(f) && NoHoles(g) && i in f.inodes && 0 <= off && 0 <= done <= |src|
    requires WrotePrefix(f, g, i, off, src, done)
    ensures i in g.inodes
    ensures if off <= f.inodes[i].size then off + done <= g.inodes[i].size else done == 0 && g == f
  {
    assert PrefixAt(f, g, i, off, src, done, 0);
  }

  lemma PrefixGrows(f: Files, g: Files, h: Files, i: int, off: int, src: seq<int>, done: int, n1: int)
    requires Shape(f) && Shape(g) && Shape(h) && NoHoles(f) && NoHoles(g) && NoHoles(h)
    requires i in f.inodes && i in g.inodes && 0 <= off && 0 <= done && 0 < n1 && done + n1 <= |src|
    requires WrotePrefix(f, g, i, off, src, done) && off + done <= g.inodes[i].size
    requires WroteOnly(g, h, i, off + done, src[done..done + n1])
    ensures WrotePrefix(f, h, i, off, src, done + n1)
  {
    var a, b := src[..done], src[done..done + n1];
    assert PrefixAt(f, g, i, off, src, done, 0);
    assert a + b == src[..done + n1];
    WroteSize(g, h, i, off + done, b);
    WroteOnlyJoins(f, g, h, i, off, a, b);
  }

  // ---------- Truncation ----------

  function Truncated(f: Files, i: int): Files
    requires i in f.inodes
  {
    f.(inodes := f.inodes[i := Inode(0, seq(NDIRECT + 1, n => 0))],
       owner := map a | a in f.owner && f.owner[a].inum != i :: f.owner[a])
  }

  lemma TruncatedAddr(f: Files, i: int, i': int, k: int)
    requires Shape(f) && i in f.inodes && i' in f.inodes && 0 <= k <= IND
    ensures HasInode(Truncated(f, i), i')
    ensures Addr(Truncated(f, i), i', k) == if i' == i then 0 else Addr(f, i', k)
  {
  }

  lemma TruncatedOwned(f: Files, reserved: set<int>, i: int)
    requires Owned(f, reserved) && i in f.inodes
    ensures Owned(Truncated(f, i), reserved)
  {
    var f' := Truncated(f, i);
    forall j, k ensures OwnsAt(f', j, k) {
      if j in f.inodes && 0 <= k <= IND { TruncatedAddr(f, i, j, k); assert OwnsAt(f, j, k); }
    }
    forall a ensures OwnedAt(f', reserved, a) {
      assert OwnedAt(f, reserved, a);
      if a in f'.owner { TruncatedAddr(f, i, f.owner[a].inum, f.owner[a].k); }
    }
  }

  lemma TruncatedContent(f: Files, i: int)
    requires Shape(f) && NoHoles(f) && i in f.inodes
    ensures var f' := Truncated(f, i);
      && Shape(f') && NoHoles(f') && f'.inodes.Keys == f.inodes.Keys && Content(f', i) == []
      && forall j :: j in f.inodes && j != i ==> Content(f', j) == Content(f, j)
  {
    var f' := Truncated(f, i);
    forall j, k ensures FilledAt(f', j, k) {
      if j in f.inodes && 0 <= k < MAXFILE { TruncatedAddr(f, i, j, k); assert FilledAt(f, j, k); }
    }
    forall j | j in f.inodes && j != i ensures Content(f', j) == Content(f, j) {
      forall p | 0 <= p < f.inodes[j].size ensures Content(f', j)[p] == Content(f, j)[p] {
        TruncatedAddr(f, i, j, p / BSIZE);
      }
    }
  }
}
