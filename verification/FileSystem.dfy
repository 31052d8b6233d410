/**
 The inode layer of fs.c as it runs: balloc, bfree, bmap, itrunc, readi and writei over a bitmap,
 the disk blocks and the inodes, and the chunking loop of filewrite in file.c.
 */
module FileSystem {
  import opened FileBlocks
  import opened Bitmap
  import opened LogUse
  import LogDisk

  // A panic stops the kernel.
  datatype Outcome = Done(n: int) | Refused | Panicked

  predicate MarkedAt(bm: seq<bv8>, f: Files, reserved: set<int>, b: int) {
    0 <= b < |f.disk| <= 8 * |bm| ==> Bit(bm, b) == (b in reserved || b in f.owner)
  }

  // Of the disk's blocks, as many as the superblock says, the bit is set exactly for the metadata and log
  // blocks and the blocks some inode owns. The map may have more bits than the disk has blocks.
  ghost predicate Marked(bm: seq<bv8>, f: Files, reserved: set<int>) {
    && |f.disk| <= 8 * |bm| && (forall b :: b in f.disk <==> 0 <= b < |f.disk|)
    && forall b {:trigger MarkedAt(bm, f, reserved, b)} :: MarkedAt(bm, f, reserved, b)
  }

  lemma MarkLinked(bm: seq<bv8>, f: Files, f': Files, reserved: set<int>, b: int)
    requires Marked(bm, f, reserved) && b in f.disk && f'.disk.Keys == f.disk.Keys
    requires forall c :: c in f'.owner <==> c in f.owner || c == b
    ensures Marked(SetBit(bm, b), f', reserved)
  {
    var bm' := SetBit(bm, b);
    forall c ensures MarkedAt(bm', f', reserved, c) {
      if 0 <= c < |f.disk| { SetBitSets(bm, b, c); assert MarkedAt(bm, f, reserved, c); }
    }
  }

  lemma MarkSame(bm: seq<bv8>, f: Files, f': Files, reserved: set<int>)
    requires Marked(bm, f, reserved) && f'.disk.Keys == f.disk.Keys && f'.owner.Keys == f.owner.Keys
    ensures Marked(bm, f', reserved)
  {
    forall b ensures MarkedAt(bm, f', reserved, b) { assert MarkedAt(bm, f, reserved, b); }
  }

  // filewrite writes at most this many bytes in one transaction: 13 blocks.
  const CHUNK := ((LogDisk.LOGSIZE - 1 - 1 - 2) / 2) * BSIZE

  function NextChunk(left: int): int { if left > CHUNK then CHUNK else left }

  predicate WholeChunks(n: int) { n % CHUNK == 0 }

  lemma NextWhole(done: int, n: int)
    requires 0 <= done < n && WholeChunks(done)
    ensures var n1 := NextChunk(n - done); 0 < n1 <= n - done && (done + n1 < n ==> WholeChunks(done + n1))
  {
    assert CHUNK == 6656;
  }

  // min(left, BSIZE - p % BSIZE): how far the loops of readi and writei get in the block at p.
  function PieceSize(p: int, left: int): int { if left < BSIZE - p % BSIZE then left else BSIZE - p % BSIZE }

  lemma PieceFits(p: int, left: int)
    requires 0 <= p && 0 < left
    ensures var m := PieceSize(p, left); 0 < m <= left && p % BSIZE + m <= BSIZE && (m == left || (p + m) % BSIZE == 0)
  {
    assert (p + (BSIZE - p % BSIZE)) % BSIZE == 0;
  }

  class Fs {
    const reserved: set<int>      // blocks 0, superblock, inodes, bitmap and log
    var bitmap: seq<bv8>
    var disk: map<int, Block>     // sb.size blocks
    var inodes: map<int, Inode>
    ghost var owner: map<int, Slot>
    ghost var logged: seq<Sector> // the calls of log_write so far

    ghost function Now(): Files
      reads this
    {
      Files(disk, inodes, owner)
    }

    ghost predicate Valid()
      reads this
    {
      Owned(Now(), reserved) && Marked(bitmap, Now(), reserved)
    }

    constructor (reserved: set<int>, bitmap: seq<bv8>, disk: map<int, Block>, inodes: map<int, Inode>,
                 ghost owner: map<int, Slot>)
      requires Owned(Files(disk, inodes, owner), reserved) && Marked(bitmap, Files(disk, inodes, owner), reserved)
      ensures Valid() && Now() == Files(disk, inodes, owner) && this.reserved == reserved && this.bitmap == bitmap
      ensures logged == []
    {
      this.reserved, this.bitmap, this.disk, this.inodes, this.owner := reserved, bitmap, disk, inodes, owner;
      logged := [];
    }

    ghost function Free(): set<int>
      reads this`bitmap, this`disk
    {
      FreeBlocks(bitmap, |disk|)
    }

    /** balloc: the lowest free block, marked and zeroed; fails exactly when no block is free. */
    method Balloc() returns (ok: bool, b: int)
      requires Valid()
      modifies this`bitmap, this`disk, this`logged
      ensures ok <==> old(Free()) != {}
      ensures ok ==>
        && Fresh(old(Now()), reserved, b) && b == Lowest(old(Free())) && Free() == old(Free()) - {b}
        && bitmap == SetBit(old(bitmap), b) && disk == old(disk)[b := Zeros()] && logged == old(logged) + BallocLog(b)
      ensures !ok ==> bitmap == old(bitmap) && disk == old(disk) && logged == old(logged) && AllUsed(bitmap, |disk|)
    {
      ok, b := FindFree(bitmap, |disk|);
      if ok {
        assert MarkedAt(bitmap, Now(), reserved, b);
        ScanFindsLowest(bitmap, |disk|, b);
        bitmap := SetBit(bitmap, b);
        disk := disk[b := Zeros()];
        assert disk.Keys == old(disk).Keys;
        logged := logged + BallocLog(b);
      } else {
        NoneFree(bitmap, |disk|);
      }
    }

    // ip->addrs[n] = balloc(), for a direct slot or the indirect block.
    method AllocDirect(i: int, k: int) returns (ok: bool, a: int)
      requires Valid() && i in inodes && (0 <= k < NDIRECT || k == IND) && Addr(Now(), i, k) == 0
      modifies this`bitmap, this`disk, this`inodes, this`owner, this`logged
      ensures Valid() && (ok <==> old(Free()) != {})
      ensures ok ==> Allocates(old(Now()), Now(), i, k) && a != 0 && Sets(old(Now()), Now(), i, k, a)
      ensures ok ==> a == Lowest(old(Free())) && Free() == old(Free()) - {a} && logged == old(logged) + BallocLog(a)
      ensures !ok ==> Now() == old(Now()) && AllUsed(bitmap, |disk|)
    {
      ghost var f := Now();
      ghost var bm := bitmap;
      ok, a := Balloc();
      if ok {
        LinkDirectOwned(f, reserved, i, k, a);
        LinkDirectAllocates(f, reserved, i, k, a);
        LinkDirectSets(f, reserved, i, k, a);
        MarkLinked(bm, f, LinkDirect(f, i, k, a), reserved, a);
        var n := if k == IND then NDIRECT else k;
        inodes := inodes[i := inodes[i].(addrs := inodes[i].addrs[n := a])];
        owner := owner[a := Slot(i, k)];
        assert Now() == LinkDirect(f, i, k, a);
      }
    }

    // a[bn] = balloc(), in the indirect block.
    method AllocIndirect(i: int, k: int) returns (ok: bool, a: int)
      requires Valid() && i in inodes && NDIRECT <= k < MAXFILE && Addr(Now(), i, k) == 0 && Addr(Now(), i, IND) != 0
      modifies this`bitmap, this`disk, this`owner, this`logged
      ensures Valid() && (ok <==> old(Free()) != {})
      ensures ok ==> Allocates(old(Now()), Now(), i, k) && a != 0 && Sets(old(Now()), Now(), i, k, a)
      ensures ok ==> a == Lowest(old(Free())) && Free() == old(Free()) - {a}
      ensures ok ==> logged == old(logged) + (BallocLog(a) + [BlockSector(Addr(old(Now()), i, IND))])
      ensures !ok ==> Now() == old(Now()) && AllUsed(bitmap, |disk|)
    {
      ghost var f := Now();
      ghost var bm := bitmap;
      ok, a := Balloc();
      if ok {
        LinkIndirectOwned(f, reserved, i, k, a);
        LinkIndirectAllocates(f, reserved, i, k, a);
        LinkIndirectSets(f, reserved, i, k, a);
        MarkLinked(bm, f, LinkIndirect(f, i, k, a), reserved, a);
        var ind := inodes[i].addrs[NDIRECT];
        assert OwnsAt(f, i, IND);
        ghost var d := disk;
        disk := disk[ind := SetWord(disk[ind], k - NDIRECT, a)];
        assert disk.Keys == d.Keys;
        owner := owner[a := Slot(i, k)];
        assert Now() == LinkIndirect(f, i, k, a);
        logged := logged + [BlockSector(ind)];
      }
    }

    // bmap for a slot of the indirect block, which is there.
    method BmapEntry(i: int, bn: int) returns (ok: bool, a: int)
      requires Valid() && i in inodes && NDIRECT <= bn < MAXFILE && Addr(Now(), i, IND) != 0
      modifies this`bitmap, this`disk, this`owner, this`logged
      ensures Valid() && (ok <==> NewAt(old(Now()), i, bn) <= |old(Free())|)
      ensures ok ==> Allocates(old(Now()), Now(), i, bn) && a != 0 && a == Addr(Now(), i, bn)
      ensures ok ==>
        old(logged) <= logged && BmapLog(old(Now()), old(Free()), Now(), Free(), i, bn, logged[|old(logged)|..])
      ensures Addr(old(Now()), i, bn) != 0 ==>
        ok && Now() == old(Now()) && bitmap == old(bitmap) && logged == old(logged)
      ensures !ok ==> AllUsed(bitmap, |disk|)
    {
      ghost var f, free := Now(), Free();
      var ind := inodes[i].addrs[NDIRECT];
      assert OwnsAt(f, i, IND) && OwnedAt(f, reserved, ind);
      ok, a := true, Word(disk[ind], bn - NDIRECT);
      if a != 0 {
        AllocatesNothing(f, i, bn);
        NothingNew(f, free, i, bn);
        assert logged[|old(logged)|..] == [];
      } else {
        ok, a := AllocIndirect(i, bn);
        if ok {
          TakeOne(free);
          EntryNew(f, free, Now(), i, bn, a);
          assert SetsAt(f, Now(), i, bn, a, bn);
        }
      }
    }

    // bmap for a slot of the indirect block, which is allocated first.
    method BmapBoth(i: int, bn: int) returns (ok: bool, a: int)
      requires Valid() && i in inodes && NDIRECT <= bn < MAXFILE && Addr(Now(), i, IND) == 0
      modifies this`bitmap, this`disk, this`inodes, this`owner, this`logged
      ensures Valid() && (ok <==> 2 <= |old(Free())|)
      ensures ok ==> Allocates(old(Now()), Now(), i, bn) && a != 0 && a == Addr(Now(), i, bn)
      ensures ok ==>
        old(logged) <= logged && BmapLog(old(Now()), old(Free()), Now(), Free(), i, bn, logged[|old(logged)|..])
      ensures !ok ==> AllUsed(bitmap, |disk|)
    {
      ghost var f, free := Now(), Free();
      ok, a := AllocDirect(i, IND);
      if ok {
        var ind := a;
        ghost var g, mid, before := Now(), Free(), logged;
        IndirectMade(f, free, g, i, bn, ind);
        ok, a := BmapEntry(i, bn);
        if ok {
          BothMade(f, free, g, mid, Now(), Free(), i, bn, ind, logged[|before|..]);
          assert logged[|old(logged)|..] == BallocLog(ind) + logged[|before|..];
        }
      }
    }

    /** bmap: the block of the bn'th slot, allocated if there was none; nothing else moves. */
    method Bmap(i: int, bn: int) returns (ok: bool, a: int)
      requires Valid() && i in inodes && 0 <= bn < MAXFILE
      modifies this`bitmap, this`disk, this`inodes, this`owner, this`logged
      ensures Valid() && (ok <==> NewAt(old(Now()), i, bn) <= |old(Free())|)
      ensures ok ==> Allocates(old(Now()), Now(), i, bn) && a != 0 && a == Addr(Now(), i, bn) && a in disk
      ensures ok ==>
        old(logged) <= logged && BmapLog(old(Now()), old(Free()), Now(), Free(), i, bn, logged[|old(logged)|..])
      ensures Addr(old(Now()), i, bn) != 0 ==>
        ok && Now() == old(Now()) && bitmap == old(bitmap) && logged == old(logged)
      ensures !ok ==> AllUsed(bitmap, |disk|)
    {
      ghost var f, free := Now(), Free();
      if bn < NDIRECT {
        ok, a := true, inodes[i].addrs[bn];
        if a != 0 {
          AllocatesNothing(f, i, bn);
          NothingNew(f, free, i, bn);
          assert logged[|old(logged)|..] == [];
        } else {
          ok, a := AllocDirect(i, bn);
          if ok {
            TakeOne(free);
            DirectNew(f, free, Now(), i, bn, a);
            assert SetsAt(f, Now(), i, bn, a, bn) && logged[|old(logged)|..] == BallocLog(a);
          }
        }
      } else if inodes[i].addrs[NDIRECT] == 0 {
        ok, a := BmapBoth(i, bn);
      } else {
        ok, a := BmapEntry(i, bn);
      }
      if ok { assert OwnsAt(Now(), i, bn) && OwnedAt(Now(), reserved, a); }
    }

    // One turn of readi's loop: part of one block.
    method ReadPiece(i: int, p: int, m: int) returns (piece: seq<int>)
      requires Valid() && NoHoles(Now()) && i in inodes && 0 <= p && 0 < m && p + m <= inodes[i].size
      requires p % BSIZE + m <= BSIZE
      modifies this`bitmap, this`disk, this`inodes, this`owner, this`logged
      ensures Now() == old(Now()) && bitmap == old(bitmap) && logged == old(logged)
      ensures piece == Content(Now(), i)[p..p + m]
    {
      assert FilledAt(Now(), i, p / BSIZE);
      var ok, a := Bmap(i, p / BSIZE);
      ReadStep(Now(), i, p, m);
      piece := disk[a][p % BSIZE..p % BSIZE + m];
    }

    // The loop of readi.
    method ReadBlocks(i: int, off: int, n: int) returns (dst: seq<int>)
      requires Valid() && NoHoles(Now()) && i in inodes && 0 <= off && 0 <= n && off + n <= inodes[i].size
      modifies this`bitmap, this`disk, this`inodes, this`owner, this`logged
      ensures Now() == old(Now()) && bitmap == old(bitmap) && logged == old(logged)
      ensures dst == Content(Now(), i)[off..off + n]
    {
      ghost var c := Content(Now(), i);
      dst := [];
      var tot := 0;
      while tot < n
        invariant 0 <= tot <= n && Now() == old(Now()) && bitmap == old(bitmap) && logged == old(logged)
        invariant dst == c[off..off + tot]
      {
        var p := off + tot;
        var m := PieceSize(p, n - tot);
        PieceFits(p, n - tot);
        var piece := ReadPiece(i, p, m);
        NextSlice(c, off, p, p + m);
        dst := dst + piece;
        tot := tot + m;
      }
    }

    /**
     readi: refused past the end or when off + n wraps; otherwise the bytes of the file from off,
     cut at its end. On files without holes nothing is allocated.
     */
    method Readi(i: int, off: int, n: int) returns (r: Outcome, dst: seq<int>)
      requires Valid() && NoHoles(Now()) && i in inodes && 0 <= off < TWO32 && 0 <= n < TWO32
      modifies this`bitmap, this`disk, this`inodes, this`owner, this`logged
      ensures Now() == old(Now()) && bitmap == old(bitmap) && logged == old(logged)
      ensures r == if off > inodes[i].size || off + n >= TWO32 then Refused
                   else Done(if off + n > inodes[i].size then inodes[i].size - off else n)
      ensures r.Done? ==> dst == Content(Now(), i)[off..off + r.n]
    {
      Wraps(off, n);
      if off > inodes[i].size || (off + n) % TWO32 < off { return Refused, []; }
      var n := if off + n > inodes[i].size then inodes[i].size - off else n;
      dst := ReadBlocks(i, off, n);
      return Done(n), dst;
    }

    ghost predicate CopyingAt(f0: Files, free0: set<int>, l0: seq<Sector>, i: int, off: int, src: seq<int>, tot: int,
                              z: int)
      reads this
    {
      && Valid() && Written(f0, Now(), i, off, src, tot) && l0 <= logged
      && LogTo(f0, free0, Now(), Free(), i, off / BSIZE, EndSlot(off, tot), logged[|l0|..])
    }

    // writei, which started from f0 with the blocks free0 free and the calls l0 logged, has stored tot
    // bytes; quantified over an unused z so that the verifier unfolds it only where asked to.
    ghost predicate Copying(f0: Files, free0: set<int>, l0: seq<Sector>, i: int, off: int, src: seq<int>, tot: int)
      reads this
    {
      forall z {:trigger CopyingAt(f0, free0, l0, i, off, src, tot, z)} :: CopyingAt(f0, free0, l0, i, off, src, tot, z)
    }

    // The data goes into its block, which is logged.
    method StoreBlock(a: int, blk: Block)
      requires a in disk
      modifies this`disk, this`logged
      ensures Now() == WriteData(old(Now()), a, blk) && Free() == old(Free())
      ensures logged == old(logged) + [BlockSector(a)]
    {
      disk := disk[a := blk];
      assert disk.Keys == old(disk).Keys;
      logged := logged + [BlockSector(a)];
    }

    // One turn of writei's loop: part of one block.
    method WritePiece(i: int, src: seq<int>, off: int, tot: int, m: int, ghost f0: Files, ghost free0: set<int>,
                      ghost l0: seq<Sector>)
      returns (ok: bool)
      requires Copying(f0, free0, l0, i, off, src, tot)
      requires Shape(f0) && NoHoles(f0) && i in f0.inodes && 0 <= off <= f0.inodes[i].size && off + |src| <= MAXBYTES
      requires forall x :: 0 <= x < |src| ==> 0 <= src[x] < 256
      requires 0 <= tot && 0 < m && tot + m <= |src| && (off + tot) % BSIZE + m <= BSIZE
      requires tot == 0 || (off + tot) % BSIZE == 0
      modifies this`bitmap, this`disk, this`inodes, this`owner, this`logged
      ensures ok ==> Copying(f0, free0, l0, i, off, src, tot + m)
      ensures !ok ==> Valid() && AllUsed(bitmap, |disk|) && off + tot >= f0.inodes[i].size
      ensures !ok ==> OutOfBlocks(f0, free0, i, off, |src|)
    {
      assert CopyingAt(f0, free0, l0, i, off, src, tot, 0);
      ghost var f, free, before := Now(), Free(), logged;
      var k, start := (off + tot) / BSIZE, (off + tot) % BSIZE;
      var a;
      ok, a := Bmap(i, k);
      if !ok {
        assert WrittenAt(f0, f, i, off, src, tot, off + tot);
        PieceStops(f0, free0, f, free, i, off, tot, m, |src|, before[|l0|..]);
        return;
      }
      ghost var g, free', more := Now(), Free(), logged[|before|..];
      ghost var blk := Patch(disk[a], start, src[tot..tot + m]);
      PieceStored(f0, f, g, reserved, i, off, src, tot, m);
      PieceLogged(f0, free0, f, free, g, free', reserved, i, off, tot, m, blk, before[|l0|..], more);
      MarkSame(bitmap, g, WriteData(g, a, blk), reserved);
      LogParts(l0, before, logged, BlockSector(a));
      StoreBlock(a, Patch(disk[a], start, src[tot..tot + m]));
    }

    // The loop of writei.
    method WriteBlocks(i: int, src: seq<int>, off: int) returns (ok: bool)
      requires Valid() && NoHoles(Now()) && i in inodes && 0 <= off <= inodes[i].size && off + |src| <= MAXBYTES
      requires forall x :: 0 <= x < |src| ==> 0 <= src[x] < 256
      modifies this`bitmap, this`disk, this`inodes, this`owner, this`logged
      ensures ok ==> Copying(old(Now()), old(Free()), old(logged), i, off, src, |src|)
      ensures !ok ==> Valid() && AllUsed(bitmap, |disk|) && off + |src| > old(inodes)[i].size
      ensures !ok ==> OutOfBlocks(old(Now()), old(Free()), i, off, |src|)
    {
      ghost var f0, free0, l0 := Now(), Free(), logged;
      WriteBegins(f0, i, off, src);
      LogBegins(f0, free0, i, off / BSIZE);
      var n := |src|;
      var tot := 0;
      while tot < n
        invariant 0 <= tot <= n && Copying(f0, free0, l0, i, off, src, tot)
        invariant tot == 0 || tot == n || (off + tot) % BSIZE == 0
      {
        var p := off + tot;
        var m := PieceSize(p, n - tot);
        PieceFits(p, n - tot);
        ok := WritePiece(i, src, off, tot, m, f0, free0, l0);
        if !ok { return; }
        tot := tot + m;
      }
      ok := true;
    }

    // The end of writei: the size, when it has grown.
    method FinishWrite(i: int, src: seq<int>, off: int, ghost f0: Files, ghost free0: set<int>, ghost l0: seq<Sector>)
      requires Copying(f0, free0, l0, i, off, src, |src|)
      requires Shape(f0) && NoHoles(f0) && i in f0.inodes && 0 <= off <= f0.inodes[i].size && off + |src| <= MAXBYTES
      modifies this`inodes, this`logged
      ensures Valid() && NoHoles(Now()) && WroteOnly(f0, Now(), i, off, src)
      ensures l0 <= logged && WriteLog(f0, free0, Now(), i, off, |src|, logged[|l0|..])
      ensures !OutOfBlocks(f0, free0, i, off, |src|)
    {
      assert CopyingAt(f0, free0, l0, i, off, src, |src|, 0);
      EnoughBlocks(f0, free0, Now(), Free(), i, off, |src|, logged[|l0|..]);
      ghost var f, log, size := Now(), logged[|l0|..], Max(f0.inodes[i].size, off + |src|);
      ghost var f', last := SetSize(f, i, size), [];
      if |src| > 0 && off + |src| > inodes[i].size {
        inodes := inodes[i := inodes[i].(size := off + |src|)];
        last := [InodeSector(i / IPB)];
        logged := logged + last;
      } else {
        assert inodes[i := inodes[i].(size := inodes[i].size)] == inodes;
      }
      assert Now() == f' && logged[|l0|..] == log + last;
      WriteDone(f0, f, i, off, src);
      SetSizeOwned(f, reserved, i, size);
      MarkSame(bitmap, f, f', reserved);
      SameSlotsSized(f, i, size);
      LogEnds(f0, free0, f, Free(), f', i, off, |src|, log, last);
    }

    /**
     writei: refused past the end, when off + n wraps, or beyond MAXFILE blocks; otherwise the file
     becomes its old bytes with src written over them at off, and no other file changes. It panics
     exactly when it needs more new blocks than are free. What it logs are the sectors of WriteLog.
     */
    method Writei(i: int, src: seq<int>, off: int) returns (r: Outcome)
      requires Valid() && NoHoles(Now()) && i in inodes && 0 <= off < TWO32 && |src| < TWO32
      requires forall x :: 0 <= x < |src| ==> 0 <= src[x] < 256
      modifies this`bitmap, this`disk, this`inodes, this`owner, this`logged
      ensures r.Refused? <==> off > old(inodes)[i].size || off + |src| > MAXBYTES
      ensures r.Refused? ==> Now() == old(Now()) && bitmap == old(bitmap) && logged == old(logged)
      ensures r.Done? ==>
        r.n == |src| && Valid() && NoHoles(Now()) && WroteOnly(old(Now()), Now(), i, off, src)
      ensures r.Done? ==>
        old(logged) <= logged && WriteLog(old(Now()), old(Free()), Now(), i, off, |src|, logged[|old(logged)|..])
      ensures r.Panicked? <==> !r.Refused? && OutOfBlocks(old(Now()), old(Free()), i, off, |src|)
      ensures r.Panicked? ==> Valid() && AllUsed(bitmap, |disk|) && off + |src| > old(inodes)[i].size
    {
      var n := |src|;
      Wraps(off, n);
      if off > inodes[i].size || (off + n) % TWO32 < off { return Refused; }
      if (off + n) % TWO32 > MAXBYTES { return Refused; }
      ghost var f0 := Now();
      var ok := WriteBlocks(i, src, off);
      if !ok { return Panicked; }
      FinishWrite(i, src, off, f0, old(Free()), old(logged));
      return Done(n);
    }

    ghost predicate WritingAt(f: Files, i: int, off: int, src: seq<int>, done: int, z: int)
      reads this
    {
      && Valid() && NoHoles(Now()) && Shape(f) && NoHoles(f) && i in f.inodes && 0 <= off && 0 <= done <= |src|
      && (forall x :: 0 <= x < |src| ==> 0 <= src[x] < 256) && WrotePrefix(f, Now(), i, off, src, done)
    }

    // filewrite, which started from f, has written the first done bytes of src.
    ghost predicate Writing(f: Files, i: int, off: int, src: seq<int>, done: int)
      reads this
    {
      forall z {:trigger WritingAt(f, i, off, src, done, z)} :: WritingAt(f, i, off, src, done, z)
    }

    // One turn of filewrite's loop: a chunk, its own transaction.
    method WriteChunk(i: int, src: seq<int>, off: int, done: nat, n1: nat, ghost f: Files) returns (r: Outcome)
      requires Writing(f, i, off, src, done) && 0 < n1 && done + n1 <= |src| && off + done < TWO32 && |src| < TWO32 / 2
      modifies this`bitmap, this`disk, this`inodes, this`owner, this`logged
      ensures i in f.inodes
      ensures r.Done? ==> r.n == n1 && off + done + n1 <= MAXBYTES && Writing(f, i, off, src, done + n1)
      ensures r.Done? ==>
        old(logged) <= logged && WriteLog(old(Now()), old(Free()), Now(), i, off + done, n1, logged[|old(logged)|..])
      ensures r.Refused? ==>
        Writing(f, i, off, src, done) && (off + done + n1 > MAXBYTES || (done == 0 && off > f.inodes[i].size))
      ensures r.Panicked? ==> AllUsed(bitmap, |disk|)
    {
      assert WritingAt(f, i, off, src, done, 0);
      ghost var g := Now();
      PrefixBound(f, g, i, off, src, done);
      r := Writei(i, src[done..done + n1], off + done);
      if r.Done? { PrefixGrows(f, g, Now(), i, off, src, done, n1); }
    }

    /**
     The inode case of filewrite: chunks of at most CHUNK bytes, each its own transaction. All of src
     is written; or whole chunks are, up to the first that does not fit the largest file, or none
     because off is past the end, and the call reports failure.
     */
    method Filewrite(i: int, src: seq<int>, off: int) returns (r: Outcome, off': int)
      requires Valid() && NoHoles(Now()) && i in inodes && 0 <= off < TWO32 && |src| < TWO32 / 2
      requires forall x :: 0 <= x < |src| ==> 0 <= src[x] < 256
      modifies this`bitmap, this`disk, this`inodes, this`owner, this`logged
      ensures r.Done? ==> r.n == |src| && off' == off + |src|
      ensures !r.Panicked? ==> Writing(old(Now()), i, off, src, off' - off)
      ensures r.Refused? ==> WholeChunks(off' - off) && off' - off < |src|
      ensures r.Refused? ==>
        off' + NextChunk(|src| - (off' - off)) > MAXBYTES || (off' == off && off > old(inodes)[i].size)
      ensures r.Panicked? ==> AllUsed(bitmap, |disk|)
    {
      var n := |src|;
      off' := off;
      ghost var f := Now();
      PrefixStarts(f, i, off, src);
      var done := 0;
      while done < n
        invariant 0 <= done <= n && off' == off + done && off' < TWO32 && (done < n ==> WholeChunks(done))
        invariant Writing(f, i, off, src, done)
      {
        var n1 := NextChunk(n - done);
        NextWhole(done, n);
        var w := WriteChunk(i, src, off, done, n1, f);
        if w.Panicked? { return Panicked, off'; }
        if w.Refused? { return Refused, off'; }
        done, off' := done + n1, off' + n1;
      }
      r := Done(n);
    }

    /**
     bfree: a block in use is free afterwards and every other block is as it was. Fails, where the
     kernel panics, exactly when the block is free already.
     */
    method Bfree(b: int) returns (ok: bool)
      requires 0 <= b < 8 * |bitmap|
      modifies this`bitmap, this`logged
      ensures ok == Bit(old(bitmap), b) && Cleared(old(bitmap), bitmap, b)
      ensures logged == old(logged) + if ok then [BitmapSector(b / BPB)] else []
    {
      ok, bitmap := FreeBit(bitmap, b);
      if ok { logged := logged + [BitmapSector(b / BPB)]; }
    }

    ghost predicate FreeingAt(f: Files, bm: seq<bv8>, l0: seq<Sector>, i: int, n: int, z: int)
      reads this`bitmap, this`logged
    {
      && Owned(f, reserved) && Marked(bm, f, reserved) && i in f.inodes
      && FreedTo(bm, bitmap, f, i, n) && l0 <= logged && FreeLog(f, i, n, logged[|l0|..])
    }

    // itrunc, which started from f, bm and the calls l0, has freed the slots below n of inode i.
    ghost predicate Freeing(f: Files, bm: seq<bv8>, l0: seq<Sector>, i: int, n: int)
      reads this`bitmap, this`logged
    {
      forall z {:trigger FreeingAt(f, bm, l0, i, n, z)} :: FreeingAt(f, bm, l0, i, n, z)
    }

    // bfree of the block in slot n, if there is one; it always finds the block in use.
    method FreeSlot(b: int, ghost f: Files, ghost bm: seq<bv8>, ghost l0: seq<Sector>, ghost i: int, ghost n: int)
      returns (ok: bool)
      requires Freeing(f, bm, l0, i, n) && HasInode(f, i) && 0 <= n <= IND && b == Addr(f, i, n)
      modifies this`bitmap, this`logged
      ensures ok && Freeing(f, bm, l0, i, n + 1)
    {
      assert FreeingAt(f, bm, l0, i, n, 0);
      SlotInUse(bm, bitmap, f, reserved, i, n);
      ghost var was, before := bitmap, logged;
      ok := true;
      if b != 0 {
        ok := Bfree(b);
      }
      SlotFreed(bm, was, bitmap, f, reserved, i, n);
      ghost var more := logged[|before|..];
      FreeLogGrows(f, i, n, before[|l0|..], more);
      assert logged[|l0|..] == before[|l0|..] + more;
    }

    // The loop over the direct blocks.
    method FreeDirect(i: int) returns (ok: bool)
      requires Valid() && i in inodes
      modifies this`bitmap, this`inodes, this`logged
      ensures ok && Freeing(old(Now()), old(bitmap), old(logged), i, NDIRECT)
      ensures inodes.Keys == old(inodes).Keys && |inodes[i].addrs| == NDIRECT + 1
      ensures inodes == old(inodes)[i := inodes[i]] && inodes[i].size == old(inodes)[i].size
      ensures inodes[i].addrs[NDIRECT] == old(inodes)[i].addrs[NDIRECT]
      ensures forall k :: 0 <= k < NDIRECT ==> inodes[i].addrs[k] == 0
    {
      ghost var f, bm, l0 := Now(), bitmap, logged;
      NothingFreed(bm, f, reserved, i);
      NothingToLog(f, i);
      ok := true;
      var n := 0;
      while n < NDIRECT
        invariant 0 <= n <= NDIRECT && ok && Freeing(f, bm, l0, i, n)
        invariant i in inodes && |inodes[i].addrs| == NDIRECT + 1 && inodes[i].size == f.inodes[i].size
        invariant inodes == f.inodes[i := inodes[i]]
        invariant forall k :: 0 <= k < n ==> inodes[i].addrs[k] == 0
        invariant forall k :: n <= k <= NDIRECT ==> inodes[i].addrs[k] == f.inodes[i].addrs[k]
      {
        ok := FreeSlot(inodes[i].addrs[n], f, bm, l0, i, n);
        if inodes[i].addrs[n] != 0 {
          inodes := inodes[i := inodes[i].(addrs := inodes[i].addrs[n := 0])];
        }
        n := n + 1;
      }
    }

    // The loop over the indirect block's entries.
    method FreeIndirect(ghost f: Files, ghost bm: seq<bv8>, ghost l0: seq<Sector>, ghost i: int, ind: Block)
      returns (ok: bool)
      requires Freeing(f, bm, l0, i, NDIRECT) && HasInode(f, i)
      requires IsBlock(ind) && Addr(f, i, IND) != 0 && Addr(f, i, IND) in f.disk && f.disk[Addr(f, i, IND)] == ind
      modifies this`bitmap, this`logged
      ensures ok && Freeing(f, bm, l0, i, IND)
    {
      ok := true;
      var j := 0;
      while j < NINDIRECT
        invariant 0 <= j <= NINDIRECT && ok && Freeing(f, bm, l0, i, NDIRECT + j)
      {
        ok := FreeSlot(Word(ind, j), f, bm, l0, i, NDIRECT + j);
        j := j + 1;
      }
    }

    // The indirect block, if there is one, and its entries.
    method FreeRest(i: int, ghost f: Files, ghost bm: seq<bv8>, ghost l0: seq<Sector>) returns (ok: bool)
      requires Freeing(f, bm, l0, i, NDIRECT) && Owned(f, reserved) && i in f.inodes && disk == f.disk
      requires i in inodes && |inodes[i].addrs| == NDIRECT + 1 && inodes[i].addrs[NDIRECT] == f.inodes[i].addrs[NDIRECT]
      modifies this`bitmap, this`inodes, this`logged
      ensures ok && Freeing(f, bm, l0, i, IND + 1)
      ensures i in inodes && |inodes[i].addrs| == NDIRECT + 1 && inodes[i].addrs[NDIRECT] == 0
      ensures inodes == old(inodes)[i := inodes[i]]
      ensures forall k :: 0 <= k < NDIRECT ==> inodes[i].addrs[k] == old(inodes)[i].addrs[k]
    {
      ok := true;
      var ind := inodes[i].addrs[NDIRECT];
      assert OwnsAt(f, i, IND) && OwnedAt(f, reserved, ind);
      if ind != 0 {
        ok := FreeIndirect(f, bm, l0, i, disk[ind]);
        ok := FreeSlot(ind, f, bm, l0, i, IND);
        inodes := inodes[i := inodes[i].(addrs := inodes[i].addrs[NDIRECT := 0])];
      } else {
        assert FreeingAt(f, bm, l0, i, NDIRECT, 0);
        NoIndirect(bm, bitmap, f, reserved, i, NDIRECT);
        FreeLogSkips(f, reserved, i, NDIRECT, logged[|l0|..]);
      }
    }

    /**
     itrunc: exactly the inode's blocks become free and the file is empty; every other file keeps
     its blocks. The panic "freeing free block" is never reached. What it logs are the sectors of TruncLog.
     */
    method Itrunc(i: int) returns (ok: bool)
      requires Valid() && i in inodes
      modifies this`bitmap, this`inodes, this`owner, this`logged
      ensures ok && Valid() && Now() == Truncated(old(Now()), i)
      ensures old(logged) <= logged && TruncLog(old(Now()), i, logged[|old(logged)|..])
    {
      ghost var f, bm, l0 := Now(), bitmap, logged;
      ok := FreeDirect(i);
      ok := FreeRest(i, f, bm, l0);
      assert FreeingAt(f, bm, l0, i, IND + 1, 0);
      TruncatedOwned(f, reserved, i);
      MarkTruncated(bm, bitmap, f, reserved, i);
      LogEndsWithInode(f, i, l0, logged);
      AddrsCleared(f.inodes, inodes, i);
      inodes := inodes[i := inodes[i].(size := 0)];
      owner := map a | a in owner && owner[a].inum != i :: owner[a];
      logged := logged + [InodeSector(i / IPB)];
      assert Now() == Truncated(f, i);
    }
  }

  lemma AddrsCleared(was: map<int, Inode>, now: map<int, Inode>, i: int)
    requires i in was && i in now && now == was[i := now[i]] && |now[i].addrs| == NDIRECT + 1
    requires forall k :: 0 <= k <= NDIRECT ==> now[i].addrs[k] == 0
    ensures now[i := now[i].(size := 0)] == was[i := Inode(0, seq(NDIRECT + 1, n => 0))]
  {
    assert now[i].addrs == seq(NDIRECT + 1, n => 0);
  }

  lemma LogParts(l0: seq<Sector>, before: seq<Sector>, after: seq<Sector>, x: Sector)
    requires l0 <= before <= after
    ensures l0 <= after + [x] && (after + [x])[|l0|..] == before[|l0|..] + after[|before|..] + [x]
  {
  }

  lemma LogEndsWithInode(f: Files, i: int, l0: seq<Sector>, log: seq<Sector>)
    requires l0 <= log && FreeLog(f, i, IND + 1, log[|l0|..])
    ensures var all := log + [InodeSector(i / IPB)]; l0 <= all && TruncLog(f, i, all[|l0|..])
  {
    var all, x := log + [InodeSector(i / IPB)], InodeSector(i / IPB);
    assert all[|l0|..] == log[|l0|..] + [x] && (log[|l0|..] + [x])[..|log| - |l0|] == log[|l0|..];
  }

  lemma SameSlotsWritten(f: Files, reserved: set<int>, i: int, k: int, blk: Block)
    requires Owned(f, reserved) && i in f.inodes && 0 <= k < MAXFILE && Addr(f, i, k) != 0 && IsBlock(blk)
    ensures SameSlots(f, WriteData(f, Addr(f, i, k), blk), i)
  {
    assert OwnsAt(f, i, k) && OwnedAt(f, reserved, Addr(f, i, k));
    forall l | 0 <= l <= IND ensures Addr(WriteData(f, Addr(f, i, k), blk), i, l) == Addr(f, i, l) {
      WriteDataAddr(f, reserved, i, k, blk, i, l);
    }
  }

  // The indirect block has been allocated; its slots are still empty.
  lemma IndirectMade(f: Files, free: set<int>, g: Files, i: int, k: int, ind: int)
    requires HasInode(f, i) && HasInode(g, i) && NDIRECT <= k < MAXFILE && Addr(f, i, IND) == 0 && ind != 0
    requires Sets(f, g, i, IND, ind) && free != {} && ind == Lowest(free)
    ensures Addr(g, i, IND) != 0 && Addr(f, i, k) == Addr(g, i, k) == 0
    ensures NewAt(f, i, k) == 2 && NewAt(g, i, k) == 1 && |free - {ind}| == |free| - 1
  {
    assert SetsAt(f, g, i, IND, ind, IND) && SetsAt(f, g, i, IND, ind, k);
    TakeOne(free);
  }

  lemma BothMade(f: Files, free: set<int>, g: Files, mid: set<int>, h: Files, free': set<int>, i: int, k: int, ind: int,
                 second: seq<Sector>)
    requires Shape(f) && Shape(g) && Shape(h) && i in f.inodes && i in g.inodes && i in h.inodes
    requires NDIRECT <= k < MAXFILE
    requires Addr(f, i, IND) == 0 && Addr(f, i, k) == 0 && ind != 0 && Sets(f, g, i, IND, ind) && free != {}
    requires ind == Lowest(free)
    requires mid == free - {ind} && BmapLog(g, mid, h, free', i, k, second) && Allocates(f, g, i, IND)
    requires Allocates(g, h, i, k)
    ensures Allocates(f, h, i, k) && BmapLog(f, free, h, free', i, k, BallocLog(ind) + second)
  {
    AllocatesTrans(f, g, h, i, k);
    assert KeptAt(g, h, i, IND);
    BothNew(f, free, g, mid, h, free', i, k, ind, second);
  }

  // One turn of writei's loop: f before it, g after bmap, then the block stored.
  lemma PieceStored(f0: Files, f: Files, g: Files, reserved: set<int>, i: int, off: int, src: seq<int>, tot: int,
                    m: int)
    requires Shape(f0) && Shape(f) && Owned(g, reserved) && NoHoles(f0) && i in f0.inodes
    requires 0 <= off <= f0.inodes[i].size
    requires 0 <= tot && 0 < m && tot + m <= |src| && off + |src| <= MAXBYTES && (off + tot) % BSIZE + m <= BSIZE
    requires forall x :: 0 <= x < |src| ==> 0 <= src[x] < 256
    requires Written(f0, f, i, off, src, tot) && (tot == 0 || (off + tot) % BSIZE == 0)
    requires var k := (off + tot) / BSIZE; Allocates(f, g, i, k) && Addr(g, i, k) != 0 && Addr(g, i, k) in g.disk
    ensures var a := Addr(g, i, (off + tot) / BSIZE);
      var h := WriteData(g, a, Patch(g.disk[a], (off + tot) % BSIZE, src[tot..tot + m]));
      Owned(h, reserved) && Written(f0, h, i, off, src, tot + m) && h.disk.Keys == g.disk.Keys
  {
    WriteStep(f0, f, g, reserved, i, off, src, tot, m);
  }

  // And logged.
  lemma PieceLogged(f0: Files, free0: set<int>, f: Files, free: set<int>, g: Files, free': set<int>,
                    reserved: set<int>, i: int,
                    off: int, tot: int, m: int, blk: Block, log: seq<Sector>, more: seq<Sector>)
    requires 0 <= off && 0 <= tot && 0 < m && off + tot + m <= MAXBYTES
    requires (tot == 0 || (off + tot) % BSIZE == 0) && (off + tot) % BSIZE + m <= BSIZE
    requires LogTo(f0, free0, f, free, i, off / BSIZE, EndSlot(off, tot), log) && Owned(g, reserved) && i in g.inodes
    requires IsBlock(blk)
    requires var k := (off + tot) / BSIZE;
      Allocates(f, g, i, k) && Addr(g, i, k) != 0 && BmapLog(f, free, g, free', i, k, more)
    ensures var a := Addr(g, i, (off + tot) / BSIZE);
      LogTo(f0, free0, WriteData(g, a, blk), free', i, off / BSIZE, EndSlot(off, tot + m), log + more
        + [BlockSector(a)])
  {
    var k := (off + tot) / BSIZE;
    NextSlot(off, tot, m);
    SameSlotsWritten(g, reserved, i, k, blk);
    LogOn(f0, free0, f, free, g, free', WriteData(g, Addr(g, i, k), blk), i, off / BSIZE, k, log, more);
  }

  // A write of n bytes at off needs more new blocks than are free.
  predicate OutOfBlocks(f: Files, free: set<int>, i: int, off: int, n: int) {
    HasInode(f, i) && 0 <= off && 0 <= n && off + n <= MAXBYTES
      && NewBlocks(f, i, off / BSIZE, LastSlot(off, n)) > |free|
  }

  function LastSlot(off: int, n: int): int
    requires 0 <= off && 0 <= n && off + n <= MAXBYTES
    ensures off / BSIZE <= LastSlot(off, n) <= MAXFILE
  {
    EndSlotFits(off, n, n);
    EndSlot(off, n)
  }

  lemma EnoughBlocks(f0: Files, free0: set<int>, f: Files, free: set<int>, i: int, off: int, n: int, log: seq<Sector>)
    requires LogTo(f0, free0, f, free, i, off / BSIZE, EndSlot(off, n), log)
    ensures !OutOfBlocks(f0, free0, i, off, n)
  {
    assert LogToAt(f0, free0, f, free, i, off / BSIZE, EndSlot(off, n), log, 0);
  }

  lemma PieceStops(f0: Files, free0: set<int>, f: Files, free: set<int>, i: int, off: int, tot: int, m: int, n: int,
                   log: seq<Sector>)
    requires 0 <= off && 0 <= tot && 0 < m && tot + m <= n && off + n <= MAXBYTES
    requires (tot == 0 || (off + tot) % BSIZE == 0) && (off + tot) % BSIZE + m <= BSIZE
    requires LogTo(f0, free0, f, free, i, off / BSIZE, EndSlot(off, tot), log)
    requires HasInode(f, i) && NewAt(f, i, (off + tot) / BSIZE) > |free|
    ensures OutOfBlocks(f0, free0, i, off, n)
  {
    NextSlot(off, tot, m);
    EndSlotFits(off, tot + m, n);
    LogStops(f0, free0, f, free, i, off / BSIZE, EndSlot(off, tot), EndSlot(off, n), log);
  }

  lemma SameSlotsSized(f: Files, i: int, size: int)
    requires HasInode(f, i)
    ensures SameSlots(f, SetSize(f, i, size), i)
  {
  }

  predicate FreedAt(bm: seq<bv8>, bm': seq<bv8>, f: Files, i: int, n: int, b: int) {
    0 <= b < 8 * |bm| && |bm'| == |bm| ==>
      (Bit(bm', b) <==> Bit(bm, b) && !(b in f.owner && f.owner[b].inum == i && f.owner[b].k < n))
  }

  // The blocks in slots below n of inode i have been freed, and no others.
  ghost predicate FreedTo(bm: seq<bv8>, bm': seq<bv8>, f: Files, i: int, n: int) {
    |bm'| == |bm| && forall b {:trigger FreedAt(bm, bm', f, i, n, b)} :: FreedAt(bm, bm', f, i, n, b)
  }

  lemma NothingFreed(bm: seq<bv8>, f: Files, reserved: set<int>, i: int)
    requires Owned(f, reserved)
    ensures FreedTo(bm, bm, f, i, 0)
  {
    forall b ensures FreedAt(bm, bm, f, i, 0, b) { assert OwnedAt(f, reserved, b); }
  }

  // A block that has an address is marked until its slot is freed.
  lemma SlotInUse(bm: seq<bv8>, bm': seq<bv8>, f: Files, reserved: set<int>, i: int, n: int)
    requires Owned(f, reserved) && Marked(bm, f, reserved) && i in f.inodes && 0 <= n <= IND
    requires FreedTo(bm, bm', f, i, n)
    ensures var a := Addr(f, i, n); a != 0 ==> 0 <= a < |f.disk| <= 8 * |bm'| && Bit(bm', a)
  {
    var a := Addr(f, i, n);
    assert OwnsAt(f, i, n);
    if a != 0 { assert OwnedAt(f, reserved, a) && MarkedAt(bm, f, reserved, a) && FreedAt(bm, bm', f, i, n, a); }
  }

  lemma SlotFreed(bm: seq<bv8>, was: seq<bv8>, now: seq<bv8>, f: Files, reserved: set<int>, i: int, n: int)
    requires Owned(f, reserved) && i in f.inodes && 0 <= n <= IND && FreedTo(bm, was, f, i, n)
    requires var a := Addr(f, i, n);
      if a == 0 then now == was else Cleared(was, now, a)
    ensures FreedTo(bm, now, f, i, n + 1)
  {
    var m := n + 1;
    assert OwnsAt(f, i, n);
    forall b ensures FreedAt(bm, now, f, i, m, b) { assert FreedAt(bm, was, f, i, n, b) && OwnedAt(f, reserved, b); }
  }

  lemma {:induction false} NoIndirect(bm: seq<bv8>, bm': seq<bv8>, f: Files, reserved: set<int>, i: int, n: int)
    requires Owned(f, reserved) && Marked(bm, f, reserved) && i in f.inodes && Addr(f, i, IND) == 0
    requires NDIRECT <= n <= IND + 1 && FreedTo(bm, bm', f, i, n)
    ensures FreedTo(bm, bm', f, i, IND + 1)
    decreases IND + 1 - n
  {
    if n <= IND {
      SlotFreed(bm, bm', bm', f, reserved, i, n);
      NoIndirect(bm, bm', f, reserved, i, n + 1);
    }
  }

  lemma MarkTruncated(bm: seq<bv8>, bm': seq<bv8>, f: Files, reserved: set<int>, i: int)
    requires Owned(f, reserved) && Marked(bm, f, reserved) && i in f.inodes && FreedTo(bm, bm', f, i, IND + 1)
    ensures Marked(bm', Truncated(f, i), reserved)
  {
    var f' := Truncated(f, i);
    forall b ensures MarkedAt(bm', f', reserved, b) {
      assert MarkedAt(bm, f, reserved, b) && OwnedAt(f, reserved, b);
      assert FreedAt(bm, bm', f, i, IND + 1, b);
    }
  }

  lemma Wraps(off: int, n: int)
    requires 0 <= off < TWO32 && 0 <= n < TWO32
    ensures (off + n) % TWO32 == if off + n < TWO32 then off + n else off + n - TWO32
  {
  }

  lemma NextSlice(c: seq<int>, a: int, b: int, d: int)
    requires 0 <= a <= b <= d <= |c|
    ensures c[a..b] + c[b..d] == c[a..d]
  {
  }

  lemma ReadStep(f: Files, i: int, p: int, m: int)
    requires Shape(f) && NoHoles(f) && i in f.inodes && 0 <= p && 0 <= m && p % BSIZE + m <= BSIZE
    requires p + m <= f.inodes[i].size
    requires p < MAXBYTES && Addr(f, i, p / BSIZE) != 0 && Addr(f, i, p / BSIZE) in f.disk
    ensures f.disk[Addr(f, i, p / BSIZE)][p % BSIZE..p % BSIZE + m] == Content(f, i)[p..p + m]
  {
    var got, want := f.disk[Addr(f, i, p / BSIZE)][p % BSIZE..p % BSIZE + m], Content(f, i)[p..p + m];
    forall x | 0 <= x < m ensures got[x] == want[x] {
      assert (p + x) / BSIZE == p / BSIZE && (p + x) % BSIZE == p % BSIZE + x;
    }
  }
}
