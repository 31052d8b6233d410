/**
 When a transaction of filewrite keeps to the MAXOPBLOCKS log sectors that begin_op reserves for it, and
 a write that does not.
 */
module Reservation {
  import opened FileBlocks
  import opened Bitmap
  import opened LogUse
  import opened FileSystem
  import LogDisk

  /**
   A transaction of filewrite fits what begin_op has reserved for it: inside the file, if and only if it
   touches at most MAXOPBLOCKS blocks; on a disk with one bitmap block, if and only if FlatNeed of its
   offset, its length and the size is at most that. A full chunk never does.
   */
  lemma ChunkFitsIff(f0: Files, free0: set<int>, f: Files, reserved: set<int>, i: int, off: int, n: int,
                     log: seq<Sector>)
    requires Owned(f, reserved) && i in f0.inodes && NoHoles(f0)
    requires 0 <= off <= f0.inodes[i].size && 0 <= n <= CHUNK && off + n <= MAXBYTES
    requires WriteLog(f0, free0, f, i, off, n, log)
    ensures off + n <= f0.inodes[i].size ==>
      (|Distinct(log)| <= LogDisk.MAXOPBLOCKS <==> EndSlot(off, n) - off / BSIZE <= LogDisk.MAXOPBLOCKS)
    ensures Tight(f0, i) && (forall b :: b in free0 ==> 0 <= b < BPB) ==>
      (|Distinct(log)| <= LogDisk.MAXOPBLOCKS <==> FlatNeed(off, n, f0.inodes[i].size) <= LogDisk.MAXOPBLOCKS)
    ensures n == CHUNK ==> |Distinct(log)| > LogDisk.MAXOPBLOCKS
  {
    WriteLogCount(f0, free0, f, reserved, i, off, n, log);
    assert WriteLogAt(f0, free0, f, i, off, n, log, 0);
    if off + n <= f0.inodes[i].size { InsideNeed(f0, free0, i, off, n); }
    if Tight(f0, i) && forall b :: b in free0 ==> 0 <= b < BPB { FlatNeedIs(f0, free0, i, off, n); }
  }

  // ---------- A write that outgrows its reservation ----------

  // An empty file, inode 1, on a disk of n blocks of which only block 0 is in use.
  function Blank(n: nat): map<int, Block> { if n == 0 then map[] else Blank(n - 1)[n - 1 := Zeros()] }

  function EmptyFile(): map<int, Inode> { map[1 := Inode(0, seq(NDIRECT + 1, _ => 0))] }

  function Small(n: nat): Files { Files(Blank(n), EmptyFile(), map[]) }

  const SMALL_MAP: seq<bv8> := [1, 0, 0]

  lemma {:induction false} BlankIs(n: nat)
    ensures |Blank(n)| == n && forall b :: b in Blank(n) <==> 0 <= b < n
    ensures forall b :: b in Blank(n) ==> Blank(n)[b] == Zeros()
  {
    if n > 0 { BlankIs(n - 1); }
  }

  lemma NoneHeld(f: Files, i: int, k: int)
    requires f.inodes == EmptyFile() && i in f.inodes && 0 <= k <= IND
    ensures i == 1 && HasInode(f, i) && Addr(f, i, k) == 0
  {
  }

  lemma SmallIsOwned(f: Files)
    requires f.inodes == EmptyFile() && f.owner == map[]
    requires forall a :: a in f.disk ==> 0 <= a < TWO32 && IsBlock(f.disk[a])
    ensures Owned(f, {0}) && NoHoles(f) && Tight(f, 1)
  {
    forall i, k ensures OwnsAt(f, i, k) { if i in f.inodes && 0 <= k <= IND { NoneHeld(f, i, k); } }
    forall i, k ensures FilledAt(f, i, k) {}
    forall k ensures TightAt(f, 1, k) { if 0 <= k < MAXFILE { NoneHeld(f, 1, k); } }
  }

  lemma SmallBit(b: int)
    requires 0 <= b < 24
    ensures Bit(SMALL_MAP, b) == (b == 0)
  {
    if b < 8 { FirstByte(b); } else { assert SMALL_MAP[b / 8] == 0; }
  }

  lemma FirstByte(k: int)
    requires 0 <= k < 8
    ensures Has(1, k) == (k == 0)
  {
  }

  lemma SmallIsMarked(f: Files, n: nat)
    requires n <= 24 && |f.disk| == n && (forall b :: b in f.disk <==> 0 <= b < n) && f.owner == map[]
    ensures Marked(SMALL_MAP, f, {0})
  {
    forall b ensures MarkedAt(SMALL_MAP, f, {0}, b) { if 0 <= b < n { SmallBit(b); } }
  }

  lemma SmallHasRoom(n: nat)
    requires 10 <= n <= 24
    ensures var free := FreeBlocks(SMALL_MAP, n); |free| >= 9 && forall b :: b in free ==> 0 <= b < BPB
  {
    var free := FreeBlocks(SMALL_MAP, n);
    forall b | 1 <= b <= 9 ensures b in free { SmallBit(b); }
    AtLeast(free, 9);
  }

  lemma {:induction false} AtLeast(s: set<int>, k: nat)
    requires forall b :: 1 <= b <= k ==> b in s
    ensures |s| >= k
    decreases k
  {
    if k > 0 { AtLeast(s - {k}, k - 1); }
  }

  lemma {:induction false} AllNew(f: Files, i: int, hi: int)
    requires HasInode(f, i) && 0 <= hi <= NDIRECT && forall k :: 0 <= k < hi ==> Addr(f, i, k) == 0
    ensures NewBlocks(f, i, 0, hi) == hi
    decreases hi
  {
    if hi > 0 { AllNew(f, i, hi - 1); }
  }

  lemma SmallNeeds(f: Files, free: set<int>, n: int)
    requires f.inodes == EmptyFile() && NoHoles(f) && Tight(f, 1) && n == 8 * BSIZE + 1
    requires |free| >= 9 && forall b :: b in free ==> 0 <= b < BPB
    ensures !OutOfBlocks(f, free, 1, 0, n)
    ensures HasInode(f, 1) && 0 <= EndSlot(0, n) <= MAXFILE && LogNeed(f, free, 1, 0, n) == 11
  {
    forall k | 0 <= k <= IND ensures Addr(f, 1, k) == 0 { NoneHeld(f, 1, k); }
    assert EndSlot(0, n) == 9;
    AllNew(f, 1, 9);
    FlatNeedIs(f, free, 1, 0, n);
  }

  /** Of an empty file on a small disk, 4097 bytes are nine blocks: with the bitmap and the inode, eleven sectors. */
  method OutgrowsReservation(size: nat, src: seq<int>) returns (r: Outcome, fs: Fs)
    requires 10 <= size <= 24 && |src| == 8 * BSIZE + 1 && forall x :: 0 <= x < |src| ==> 0 <= src[x] < 256
    ensures r == Done(|src|) && fresh(fs) && |Distinct(fs.logged)| == 11 == LogDisk.MAXOPBLOCKS + 1
  {
    ghost var f := Small(size);
    BlankIs(size);
    SmallIsOwned(f);
    SmallIsMarked(f, size);
    SmallHasRoom(size);
    fs := new Fs({0}, SMALL_MAP, Blank(size), EmptyFile(), map[]);
    r := WriteSmall(fs, src, f);
  }

  method WriteSmall(fs: Fs, src: seq<int>, ghost f: Files) returns (r: Outcome)
    requires fs.Valid() && fs.Now() == f && f.inodes == EmptyFile() && NoHoles(f) && Tight(f, 1) && fs.logged == []
    requires |fs.Free()| >= 9 && forall b :: b in fs.Free() ==> 0 <= b < BPB
    requires |src| == 8 * BSIZE + 1 && forall x :: 0 <= x < |src| ==> 0 <= src[x] < 256
    modifies fs
    ensures r == Done(|src|) && |Distinct(fs.logged)| == 11
  {
    ghost var free := fs.Free();
    SmallNeeds(f, free, |src|);
    r := fs.Writei(1, src, 0);
    assert fs.logged[0..] == fs.logged;
    WriteLogCount(f, free, fs.Now(), fs.reserved, 1, 0, |src|, fs.logged);
  }
}
