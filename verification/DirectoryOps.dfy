/** dirlookup, dirlink and isdirempty, reading and writing directories through readi and writei. */
module DirectoryOps {
  import opened FileBlocks
  import opened Bitmap
  import opened FileSystem
  import opened Directory

  ghost predicate HasIn(f: Files, bm: seq<bv8>, reserved: set<int>, dp: int, c: seq<int>, z: int) {
    && Owned(f, reserved) && Marked(bm, f, reserved) && NoHoles(f)
    && dp in f.inodes && Content(f, dp) == c && IsDir(c) && NoDup(c)
  }

  // In a consistent file system, inode dp is a directory with bytes c: whole entries, no name twice.
  // (Quantified over an unused z so that the verifier unfolds it only where asked to.)
  ghost predicate HasDir(f: Files, bm: seq<bv8>, reserved: set<int>, dp: int, c: seq<int>) {
    forall z {:trigger HasIn(f, bm, reserved, dp, c, z)} :: HasIn(f, bm, reserved, dp, c, z)
  }

  ghost predicate Has(fs: Fs, dp: int, c: seq<int>)
    reads fs
  {
    HasDir(fs.Now(), fs.bitmap, fs.reserved, dp, c)
  }

  method SizeOf(fs: Fs, dp: int, ghost c: seq<int>) returns (n: nat)
    requires Has(fs, dp, c)
    ensures n == |c| && n % DIRENT == 0
  {
    assert HasIn(fs.Now(), fs.bitmap, fs.reserved, dp, c, 0);
    n := fs.inodes[dp].size;
  }

  // Reads entry k.
  method ReadEntry(fs: Fs, dp: int, k: nat, ghost c: seq<int>) returns (de: seq<int>)
    requires Has(fs, dp, c) && k < Slots(c)
    modifies fs
    ensures Has(fs, dp, c) && fs.Now() == old(fs.Now()) && fs.bitmap == old(fs.bitmap)
    ensures IsEntry(de) && Inum(c, k) == de[0] + 256 * de[1] && NameAt(c, k) == Key(de[2..])
  {
    assert HasIn(fs.Now(), fs.bitmap, fs.reserved, dp, c, 0);
    var r;
    r, de := fs.Readi(dp, DIRENT * k, DIRENT);
    assert de == c[DIRENT * k..DIRENT * k + DIRENT];
    assert de[2..] == c[DIRENT * k + 2..DIRENT * k + DIRENT];
    assert HasIn(fs.Now(), fs.bitmap, fs.reserved, dp, c, 0);
  }

  predicate MissAt(c: seq<int>, x: Name, j: nat) { Used(c, j) ==> NameAt(c, j) != x }

  // No entry before k has name x.
  ghost predicate Misses(c: seq<int>, x: Name, k: nat) {
    forall j: nat {:trigger MissAt(c, x, j)} :: j < k ==> MissAt(c, x, j)
  }

  lemma NotThere(c: seq<int>, x: Name)
    requires Misses(c, x, Slots(c))
    ensures x !in AsMap(c)
  {
    if x in AsMap(c) {
      var j := MapOnly(c, Slots(c), x);
      var miss := MissAt(c, x, j);
    }
  }

  // Whether entry k is in use under the name.
  method Matches(fs: Fs, dp: int, k: nat, name: seq<int>, ghost c: seq<int>) returns (hit: bool, inum: int)
    requires Has(fs, dp, c) && k < Slots(c)
    modifies fs
    ensures Has(fs, dp, c) && fs.Now() == old(fs.Now()) && fs.bitmap == old(fs.bitmap)
    ensures hit == !MissAt(c, Key(name), k) && inum == Inum(c, k)
  {
    var de := ReadEntry(fs, dp, k, c);
    inum := de[0] + 256 * de[1];
    hit := false;
    if inum != 0 {
      hit := Namecmp(name, de[2..]);
    }
  }

  /** dirlookup finds exactly what the map holds, and where its entry is. */
  method Dirlookup(fs: Fs, dp: int, name: seq<int>, ghost c: seq<int>) returns (found: bool, k: nat, inum: int)
    requires Has(fs, dp, c)
    modifies fs
    ensures Has(fs, dp, c) && fs.Now() == old(fs.Now()) && fs.bitmap == old(fs.bitmap)
    ensures found == (Key(name) in AsMap(c))
    ensures found ==> Used(c, k) && NameAt(c, k) == Key(name) && inum == AsMap(c)[Key(name)]
  {
    var size := SizeOf(fs, dp, c);
    k := 0;
    while DIRENT * k < size
      invariant Has(fs, dp, c) && fs.Now() == old(fs.Now()) && fs.bitmap == old(fs.bitmap) && k <= Slots(c)
      invariant Misses(c, Key(name), k)
      decreases size - DIRENT * k
    {
      var hit;
      hit, inum := Matches(fs, dp, k, name, c);
      if hit {
        assert NoDup(c) by { assert HasIn(fs.Now(), fs.bitmap, fs.reserved, dp, c, 0); }
        MapHas(c, Slots(c), k);
        return true, k, inum;
      }
      k := k + 1;
    }
    NotThere(c, Key(name));
    return false, 0, 0;
  }

  ghost predicate UsedTo(c: seq<int>, k: nat) { forall j: nat :: j < k ==> Used(c, j) }

  // The first free entry, or the end of the directory.
  method FreeEntry(fs: Fs, dp: int, ghost c: seq<int>) returns (k: nat)
    requires Has(fs, dp, c)
    modifies fs
    ensures Has(fs, dp, c) && fs.Now() == old(fs.Now()) && fs.bitmap == old(fs.bitmap)
    ensures k <= Slots(c) && !Used(c, k) && UsedTo(c, k)
  {
    var size := SizeOf(fs, dp, c);
    k := 0;
    while DIRENT * k < size
      invariant Has(fs, dp, c) && fs.Now() == old(fs.Now()) && fs.bitmap == old(fs.bitmap) && k <= Slots(c)
      invariant UsedTo(c, k)
      decreases size - DIRENT * k
    {
      var de := ReadEntry(fs, dp, k, c);
      if de[0] + 256 * de[1] == 0 {
        return;
      }
      k := k + 1;
    }
  }

  // The directory now has bytes c, and every other file the bytes it had.
  ghost predicate OnlyDir(f: Files, f': Files, dp: int, c: seq<int>) {
    && Shape(f) && Shape(f') && NoHoles(f) && NoHoles(f') && f'.inodes.Keys == f.inodes.Keys
    && dp in f'.inodes && Content(f', dp) == c
    && forall j :: j in f.inodes && j != dp ==> f'.inodes[j] == f.inodes[j] && Content(f', j) == Content(f, j)
  }

  // An entry is past the largest file exactly when it begins where that ends.
  lemma EntryFits(k: nat, size: int)
    requires k <= size / DIRENT && size <= MAXBYTES
    ensures DIRENT * k + DIRENT > MAXBYTES <==> DIRENT * k == MAXBYTES
  {
  }

  // Writes entry k, in the directory or just after its end.
  method WriteEntry(fs: Fs, dp: int, k: nat, de: seq<int>, ghost c: seq<int>) returns (r: Outcome)
    requires Has(fs, dp, c) && k <= Slots(c) && IsEntry(de)
    requires IsDir(Overwrite(c, DIRENT * k, de)) && NoDup(Overwrite(c, DIRENT * k, de))
    modifies fs
    ensures r.Refused? <==> DIRENT * k == MAXBYTES
    ensures r.Done? ==>
      Has(fs, dp, Overwrite(c, DIRENT * k, de)) && OnlyDir(old(fs.Now()), fs.Now(), dp, Overwrite(c, DIRENT * k, de))
    ensures r.Panicked? ==> AllUsed(fs.bitmap, |fs.disk|) && k == Slots(c)
  {
    assert HasIn(fs.Now(), fs.bitmap, fs.reserved, dp, c, 0);
    ghost var f := fs.Now();
    EntryFits(k, |c|);
    r := fs.Writei(dp, de, DIRENT * k);
    if r.Done? {
      assert WroteOnlyAt(f, fs.Now(), dp, DIRENT * k, de, 0);
      assert HasIn(fs.Now(), fs.bitmap, fs.reserved, dp, Overwrite(c, DIRENT * k, de), 0);
    }
  }

  method MakeEntry(name: seq<int>, inum: int) returns (de: seq<int>)
    requires 0 < inum < 65536 && Bytes(name)
    ensures IsEntry(de) && de[0] + 256 * de[1] == inum && Key(de[2..]) == Key(name)
  {
    var field := Strncpy(name, DIRSIZ);
    de := [inum % 256, inum / 256] + field;
    assert de[2..] == field;
  }

  /**
   dirlink refuses a name that is there and otherwise adds exactly that name. It panics only with the
   disk full or the directory at the largest file size.
   */
  method Dirlink(fs: Fs, dp: int, name: seq<int>, inum: int, ghost c: seq<int>)
    returns (r: Outcome, ghost c': seq<int>, ghost k: nat)
    requires Has(fs, dp, c) && 0 < inum < 65536 && Bytes(name)
    modifies fs
    ensures r.Refused? <==> Key(name) in AsMap(c)
    ensures r.Refused? ==> fs.Now() == old(fs.Now()) && fs.bitmap == old(fs.bitmap)
    ensures r.Done? ==>
      Has(fs, dp, c') && AsMap(c') == AsMap(c)[Key(name) := inum] && OnlyDir(old(fs.Now()), fs.Now(), dp, c')
    ensures r.Done? ==> UsedTo(c, k) && !Used(c, k) && Placed(c, c', k, Key(name), inum)
    ensures r.Panicked? ==> AllUsed(fs.bitmap, |fs.disk|) || |c| == MAXBYTES
  {
    c', k := c, 0;
    var found, _, _ := Dirlookup(fs, dp, name, c);
    if found {
      return Refused, c, 0;
    }
    var at := FreeEntry(fs, dp, c);
    var de := MakeEntry(name, inum);
    k, c' := at, Overwrite(c, DIRENT * at, de);
    assert IsDir(c) && NoDup(c) && |c| <= MAXBYTES by { assert HasIn(fs.Now(), fs.bitmap, fs.reserved, dp, c, 0); }
    LinkAdds(c, at, de);
    OverwritePlaces(c, at, de);
    var w := WriteEntry(fs, dp, at, de, c);
    r := if w.Done? then Done(0) else Panicked;
  }

  /** The write of sys_unlink: an entry of zeros takes the name at k out of the directory; it never panics. */
  method ClearEntry(fs: Fs, dp: int, k: nat, ghost c: seq<int>) returns (r: Outcome, ghost c': seq<int>)
    requires Has(fs, dp, c) && Used(c, k)
    modifies fs
    ensures r.Done? && Has(fs, dp, c') && AsMap(c') == AsMap(c) - {NameAt(c, k)}
    ensures OnlyDir(old(fs.Now()), fs.Now(), dp, c')
    ensures Placed(c, c', k, [], 0)
  {
    assert IsDir(c) && NoDup(c) && |c| <= MAXBYTES by { assert HasIn(fs.Now(), fs.bitmap, fs.reserved, dp, c, 0); }
    var de := seq(DIRENT, _ => 0);
    UnlinkRemoves(c, k, de);
    OverwritePlaces(c, k, de);
    assert Key(de[2..]) == [];
    c' := Overwrite(c, DIRENT * k, de);
    r := WriteEntry(fs, dp, k, de, c);
  }

  /** isdirempty: no entry after the first two is in use. */
  method Isdirempty(fs: Fs, dp: int, ghost c: seq<int>) returns (empty: bool)
    requires Has(fs, dp, c)
    modifies fs
    ensures Has(fs, dp, c) && fs.Now() == old(fs.Now()) && fs.bitmap == old(fs.bitmap)
    ensures empty <==> forall k: nat :: 2 <= k < Slots(c) ==> !Used(c, k)
  {
    var size := SizeOf(fs, dp, c);
    var k := 2;
    while DIRENT * k < size
      invariant Has(fs, dp, c) && fs.Now() == old(fs.Now()) && fs.bitmap == old(fs.bitmap) && 2 <= k
      invariant forall j: nat :: 2 <= j < k ==> !Used(c, j)
      decreases size - DIRENT * k
    {
      var de := ReadEntry(fs, dp, k, c);
      if de[0] + 256 * de[1] != 0 {
        assert Used(c, k);
        return false;
      }
      k := k + 1;
    }
    empty := true;
  }
}
