/**
 link, unlink, create and the last iput of sysfile.c and fs.c on the bytes of the directories: path
 names are followed, entries written and link counts changed as the calls do it, and the whole stands
 for the tree of LinkCounts.
 */
module SysFile {
  import opened FileBlocks
  import opened Bitmap
  import opened FileSystem
  import opened Directory
  import opened DirectoryOps
  import opened PathNames
  import L = LinkCounts

  datatype Kind = Dir | File | Dev

  // What ialloc and itrunc leave: no size, no blocks.
  function Spare(): Inode { Inode(0, seq(NDIRECT + 1, n => 0)) }

  // ---------- What is on the disk ----------

  // The file system, the types of the allocated inodes and the bytes of the directories among them.
  datatype Image = Image(f: Files, bm: seq<bv8>, reserved: set<int>, kinds: map<int, Kind>, cs: map<int, seq<int>>)

  ghost predicate SoundAt(f: Files, bm: seq<bv8>, reserved: set<int>, z: int) {
    Owned(f, reserved) && Marked(bm, f, reserved) && NoHoles(f)
  }

  // Quantified over an unused z, as other predicates here are, so that the verifier unfolds it only where asked to.
  ghost predicate Sound(f: Files, bm: seq<bv8>, reserved: set<int>) {
    forall z {:trigger SoundAt(f, bm, reserved, z)} :: SoundAt(f, bm, reserved, z)
  }

  ghost predicate DirOn(f: Files, d: int, c: seq<int>) {
    && HasInode(f, d) && 0 <= f.inodes[d].size <= MAXBYTES && Content(f, d) == c
    && IsDir(c) && NoDup(c) && DotsFirst(c)
  }

  ghost predicate InodeAt(m: Image, n: int, i: int) {
    && (i in m.f.inodes <==> 0 < i < n)
    && (if i in m.kinds then i in m.f.inodes else i in m.f.inodes ==> m.f.inodes[i] == Spare())
    && (i in m.cs <==> i in m.kinds && m.kinds[i].Dir?)
    && (i in m.cs ==> DirOn(m.f, i, m.cs[i]))
  }

  // A consistent file system of inodes 1 .. n whose directories hold the bytes cs, each starting with
  // "." and "..", and whose free inodes are empty.
  ghost predicate Stored(m: Image, n: int) {
    Sound(m.f, m.bm, m.reserved) && n <= 65536 && forall i {:trigger InodeAt(m, n, i)} :: InodeAt(m, n, i)
  }

  lemma StoredHas(m: Image, n: int, d: int)
    requires Stored(m, n) && d in m.cs
    ensures HasDir(m.f, m.bm, m.reserved, d, m.cs[d]) && DotsFirst(m.cs[d]) && NoDup(m.cs[d]) && 0 < d < n <= 65536
    ensures d in m.kinds && m.kinds[d].Dir? && d in m.f.inodes
  {
    assert InodeAt(m, n, d) && SoundAt(m.f, m.bm, m.reserved, 0);
  }

  lemma StoredInum(m: Image, n: int, i: int)
    requires Stored(m, n) && i in m.kinds
    ensures 0 < i < 65536 && i in m.f.inodes && (i in m.cs <==> m.kinds[i].Dir?)
  {
    assert InodeAt(m, n, i);
  }

  function Dirs(kinds: map<int, Kind>): set<int> { set d | d in kinds && kinds[d].Dir? }

  lemma StoredHolds(m: Image, n: int)
    requires Stored(m, n)
    ensures Holds(m.f, m.bm, m.reserved, m.cs) && m.cs.Keys == Dirs(m.kinds)
  {
    forall d ensures d in m.cs.Keys <==> d in Dirs(m.kinds) { assert InodeAt(m, n, d); }
    forall d | d in m.cs ensures HasDir(m.f, m.bm, m.reserved, d, m.cs[d]) { StoredHas(m, n, d); }
  }

  lemma NoDirs(m: Image, n: int)
    requires Stored(m, n) && m.kinds == map[]
    ensures m.cs == map[]
  {
    forall d ensures d !in m.cs { assert InodeAt(m, n, d); }
  }

  lemma HasSound(f: Files, bm: seq<bv8>, reserved: set<int>, d: int, c: seq<int>)
    requires HasDir(f, bm, reserved, d, c) && DotsFirst(c)
    ensures Sound(f, bm, reserved) && DirOn(f, d, c)
  {
    assert HasIn(f, bm, reserved, d, c, 0);
  }

  // A directory has been written: one of those there, or a new one in a free inode.
  lemma StoredAfter(m: Image, n: int, f: Files, bm: seq<bv8>, d: int, c: seq<int>)
    requires Stored(m, n) && d in m.f.inodes && (d in m.cs || d !in m.kinds)
    requires HasDir(f, bm, m.reserved, d, c) && OnlyDir(m.f, f, d, c) && DotsFirst(c)
    ensures Stored(Image(f, bm, m.reserved, m.kinds[d := Dir], m.cs[d := c]), n)
  {
    var k := Image(f, bm, m.reserved, m.kinds[d := Dir], m.cs[d := c]);
    HasSound(f, bm, m.reserved, d, c);
    forall i ensures InodeAt(k, n, i) { assert InodeAt(m, n, i); }
  }

  lemma OnlyDirTwice(f: Files, g: Files, h: Files, d: int, c: seq<int>, c': seq<int>)
    requires OnlyDir(f, g, d, c) && OnlyDir(g, h, d, c')
    ensures OnlyDir(f, h, d, c')
  {
  }

  // A free inode taken for a file or device.
  lemma StoredFile(m: Image, n: int, i: int, kind: Kind)
    requires Stored(m, n) && i in m.f.inodes && i !in m.kinds && !kind.Dir?
    ensures Stored(m.(kinds := m.kinds[i := kind]), n)
  {
    var k := m.(kinds := m.kinds[i := kind]);
    forall j ensures InodeAt(k, n, j) { assert InodeAt(m, n, j); }
  }

  // A free inode is an empty directory to be.
  lemma SpareIsEmpty(m: Image, n: int, i: int)
    requires Stored(m, n) && i in m.f.inodes && i !in m.kinds
    ensures HasDir(m.f, m.bm, m.reserved, i, [])
  {
    assert InodeAt(m, n, i) && SoundAt(m.f, m.bm, m.reserved, 0);
    assert Content(m.f, i) == [];
  }

  // An inode truncated and freed.
  lemma StoredFreed(m: Image, n: int, bm: seq<bv8>, i: int)
    requires Stored(m, n) && i in m.kinds && i in m.f.inodes
    requires Owned(Truncated(m.f, i), m.reserved) && Marked(bm, Truncated(m.f, i), m.reserved)
    ensures Stored(Image(Truncated(m.f, i), bm, m.reserved, m.kinds - {i}, m.cs - {i}), n)
  {
    var k := Image(Truncated(m.f, i), bm, m.reserved, m.kinds - {i}, m.cs - {i});
    assert SoundAt(m.f, m.bm, m.reserved, 0);
    TruncatedContent(m.f, i);
    forall j ensures InodeAt(k, n, j) { assert InodeAt(m, n, j); }
  }

  // ---------- Paths ----------

  function From(path: seq<int>, cwd: int): int { if path != [] && path[0] == SLASH then L.ROOTINO else cwd }

  function Resolve(t: L.Tree, path: seq<int>, cwd: int): Option<int> { Walk(t.dirs, From(path, cwd), Components(path)) }

  function ResolveParent(t: L.Tree, path: seq<int>, cwd: int): (r: Option<int>)
    ensures r.Some? ==> r.value in t.dirs && Components(path) != []
  {
    WalkParent(t.dirs, From(path, cwd), Components(path))
  }

  function Last(path: seq<int>): Name
    requires Components(path) != []
  {
    Components(path)[|Components(path)| - 1]
  }

  predicate IsPath(path: seq<int>) { 0 !in path && Bytes(path) }

  // Nobody meets a free inode, where ilock panics.
  predicate SafeAt(t: L.Tree, d: int, xs: seq<Name>) {
    Walk(t.dirs, d, xs).Some? ==> Walk(t.dirs, d, xs).value in t.nlink
  }

  /** From a directory that is still linked every path leads to an allocated inode. */
  lemma {:induction false} PathsStayAllocated(t: L.Tree, d: int, xs: seq<Name>)
    requires L.Inv(t) && L.Linked(t, d)
    ensures SafeAt(t, d, xs)
    decreases |xs|
  {
    if xs != [] && xs[0] in t.dirs[d] {
      var e := t.dirs[d][xs[0]];
      NextIsAllocated(t, d, xs[0]);
      if e in t.dirs { PathsStayAllocated(t, e, xs[1..]); }
    }
  }

  lemma NextIsAllocated(t: L.Tree, d: int, n: Name)
    requires L.Inv(t) && L.Linked(t, d) && n in t.dirs[d]
    ensures t.dirs[d][n] in t.nlink && (t.dirs[d][n] in t.dirs ==> L.Linked(t, t.dirs[d][n]))
  {
    var e := t.dirs[d][n];
    assert L.EntryAt(t, d, n);
    if e != d && e in t.dirs {
      if n == DOTDOT { ParentIsLinked(t, d); } else {
        assert L.CountAt(t, e);
        L.InRefs(t, d, n, e);
      }
    }
  }

  lemma ParentIsLinked(t: L.Tree, d: int)
    requires L.Inv(t) && L.Linked(t, d) && DOTDOT in t.dirs[d] && d != L.ROOTINO
    ensures L.Linked(t, t.dirs[d][DOTDOT])
  {
    var p := t.dirs[d][DOTDOT];
    assert L.DirAt(t, d);
    var m :| p in t.dirs && m in t.dirs[p] && !IsDot(m) && t.dirs[p][m] == d;
    assert L.EntryAt(t, p, m) && L.DirAt(t, p);
  }

  ghost predicate AllSafe(t: L.Tree, d: int) { forall xs {:trigger SafeAt(t, d, xs)} :: SafeAt(t, d, xs) }

  // A test a caller can make: the directory is linked, or its ".." is allocated and, if that is a
  // directory not seen on the way, passes in turn. left is what has not been seen.
  predicate UpPasses(t: L.Tree, d: int, left: set<int>)
    requires d in t.dirs
    decreases left
  {
    L.Linked(t, d) || DOTDOT !in t.dirs[d]
    || var e := t.dirs[d][DOTDOT]; e in t.nlink && (e in t.dirs && e in left ==> UpPasses(t, e, left - {e}))
  }

  predicate ClosedAt(t: L.Tree, seen: set<int>, d: int) {
    && d in t.dirs
    && (L.Linked(t, d) || DOTDOT !in t.dirs[d]
        || var e := t.dirs[d][DOTDOT]; e in t.nlink && (e in t.dirs ==> e in seen))
  }

  // Going up never leads out of these directories, but to an allocated file or a linked directory.
  ghost predicate Closed(t: L.Tree, seen: set<int>) { forall d :: d in seen ==> ClosedAt(t, seen, d) }

  lemma {:induction false} ClosedIsSafe(t: L.Tree, seen: set<int>, d: int, xs: seq<Name>)
    requires L.Inv(t) && Closed(t, seen) && d in seen
    ensures SafeAt(t, d, xs)
    decreases |xs|
  {
    assert ClosedAt(t, seen, d) && L.DirAt(t, d);
    if L.Linked(t, d) {
      PathsStayAllocated(t, d, xs);
    } else if xs != [] && xs[0] in t.dirs[d] {
      assert L.EntryAt(t, d, xs[0]);
      var e := t.dirs[d][xs[0]];
      if e in t.dirs { ClosedIsSafe(t, seen, e, xs[1..]); }
    }
  }

  // A test that passes has seen a closed set of directories.
  lemma {:induction false} PassesIsClosed(t: L.Tree, d: int, left: set<int>, seen: set<int>) returns (all: set<int>)
    requires d in t.dirs && UpPasses(t, d, left) && d in seen && (forall e :: e in t.dirs ==> e in left || e in seen)
    requires forall e :: e in seen && e != d ==> ClosedAt(t, seen, e)
    ensures seen <= all && Closed(t, all)
    decreases left
  {
    all := seen;
    if !L.Linked(t, d) && DOTDOT in t.dirs[d] {
      var e := t.dirs[d][DOTDOT];
      if e in t.dirs && e in left {
        var more := seen + {e};
        forall x | x in more && x != e ensures ClosedAt(t, more, x) { if x != d { assert ClosedAt(t, seen, x); } }
        all := PassesIsClosed(t, e, left - {e}, more);
      }
    }
  }

  lemma {:induction false} SafePasses(t: L.Tree, d: int, left: set<int>)
    requires d in t.dirs && AllSafe(t, d)
    ensures UpPasses(t, d, left)
    decreases left
  {
    if DOTDOT in t.dirs[d] {
      var e := t.dirs[d][DOTDOT];
      forall xs ensures SafeAt(t, e, xs) {
        var up := [DOTDOT] + xs;
        assert SafeAt(t, d, up) && up[1..] == xs;
      }
      assert SafeAt(t, e, []);
      if e in t.dirs && e in left { SafePasses(t, e, left - {e}); }
    }
  }

  /** From any directory, removed ones too: every path is safe exactly when the test up the tree passes. */
  lemma SafeIffUpPasses(t: L.Tree, d: int)
    requires L.Inv(t) && d in t.dirs
    ensures AllSafe(t, d) <==> UpPasses(t, d, t.dirs.Keys - {d})
  {
    if UpPasses(t, d, t.dirs.Keys - {d}) {
      var all := PassesIsClosed(t, d, t.dirs.Keys - {d}, {d});
      forall xs ensures SafeAt(t, d, xs) { ClosedIsSafe(t, all, d, xs); }
    }
    if AllSafe(t, d) { SafePasses(t, d, t.dirs.Keys - {d}); }
  }

  // Following the path comes to lock a free inode.
  predicate Stranded(t: L.Tree, path: seq<int>, cwd: int) {
    LocksFree(t.dirs, t.nlink.Keys, From(path, cwd), Components(path))
  }

  /** From where every path is safe, none comes to lock a free inode, and what it leads to is allocated. */
  lemma SafeIsNotStranded(t: L.Tree, path: seq<int>, cwd: int)
    requires L.Inv(t) && AllSafe(t, From(path, cwd))
    ensures !Stranded(t, path, cwd) && (Resolve(t, path, cwd).Some? ==> Resolve(t, path, cwd).value in t.nlink)
  {
    var d, xs := From(path, cwd), Components(path);
    DirsAllocated(t);
    LocksFreeIff(t.dirs, t.nlink.Keys, d, xs);
    forall k ensures !LeadsToFree(t.dirs, t.nlink.Keys, d, xs, k) { if 0 <= k < |xs| { assert SafeAt(t, d, xs[..k]); } }
    assert SafeAt(t, d, xs);
  }

  lemma DirsAllocated(t: L.Tree)
    requires L.Inv(t)
    ensures t.dirs.Keys <= t.nlink.Keys
  {
    forall d | d in t.dirs ensures d in t.nlink { assert L.DirAt(t, d); }
  }

  // "../x"
  const UP_X: seq<int> := [46, 46, SLASH, 120]

  lemma UpXIs()
    ensures Components(UP_X) == [DOTDOT, [120]] && IsPath(UP_X)
  {
    var x: seq<int> := [120];
    SplitWord(x, []);
    assert x + [] == x && Split(x) == [x] && Keep(Split(x)) == [Key(x)];
    assert Key(x) == x by { assert x[1..] == []; }
    var rest := [SLASH] + x;
    SlashSkipped(rest);
    assert rest[1..] == x;
    WordFirst(DOTDOT, rest);
    DotsAreKeys();
    assert UP_X == DOTDOT + rest;
  }

  lemma UpIsStranded(t: L.Tree, d: int)
    requires d in t.dirs && DOTDOT in t.dirs[d] && t.dirs[d][DOTDOT] !in t.nlink
    ensures Stranded(t, UP_X, d)
  {
    UpXIs();
    var e, xs, x: seq<Name> := t.dirs[d][DOTDOT], Components(UP_X), [[120]];
    assert xs == [DOTDOT] + x && From(UP_X, d) == d;
    LocksFreeStep(t.dirs, t.nlink.Keys, d, DOTDOT, x);
    assert LocksFree(t.dirs, t.nlink.Keys, e, x);
  }

  /** Reclaiming a directory strands a removed one below it that is still in use. */
  lemma ReclaimStrands(t: L.Tree, p: int, d: int)
    requires L.Inv(t) && p in t.nlink && t.nlink[p] == 0 && d in t.dirs && d != p && DOTDOT in t.dirs[d]
    requires t.dirs[d][DOTDOT] == p
    ensures var u := L.Reclaim(t, p); L.Inv(u) && d in u.dirs && !AllSafe(u, d) && Stranded(u, UP_X, d)
  {
    L.ReclaimKeeps(t, p);
    var u, up := L.Reclaim(t, p), [DOTDOT];
    assert up[1..] == [] && Walk(u.dirs, d, up) == Walk(u.dirs, p, []);
    assert !SafeAt(u, d, up);
    UpIsStranded(u, d);
  }

  // mkdir a; mkdir a/b.
  function TwoMade(): L.Tree { L.Create(L.Create(L.Fresh(), 1, [97], true, 2), 2, [98], true, 3) }

  lemma TwoMadeIs()
    ensures var b := TwoMade();
      && L.Inv(b)
      && b.dirs == map[1 := map[DOT := 1, DOTDOT := 1, [97] := 2],
                       2 := map[DOT := 2, DOTDOT := 1, [98] := 3],
                       3 := map[DOT := 3, DOTDOT := 2]]
      && b.nlink == map[1 := 2, 2 := 2, 3 := 1]
  {
    L.FreshIsGood();
    var a := L.Create(L.Fresh(), 1, [97], true, 2);
    L.NewDirKeeps(L.Fresh(), 1, [97], 2);
    L.NewDirKeeps(a, 2, [98], 3);
  }

  // What rmdir of an empty directory changes.
  lemma RmdirIs(t: L.Tree, dp: int, n: Name)
    requires L.Inv(t) && dp in t.dirs && n in t.dirs[dp] && !IsDot(n) && t.dirs[dp][n] in t.dirs
    requires L.Empty(t, t.dirs[dp][n]) && t.dirs[dp][n] != dp
    ensures var u, ip := L.Unlink(t, dp, n), t.dirs[dp][n];
      && L.Inv(u) && u.dirs == t.dirs[dp := t.dirs[dp] - {n}]
      && dp in t.nlink && ip in t.nlink && u.nlink == t.nlink[dp := t.nlink[dp] - 1][ip := t.nlink[ip] - 1]
  {
    L.UnlinkKeeps(t, dp, n);
    assert L.DirAt(t, dp);
  }

  // rmdir a/b; rmdir a.
  function TwoRemoved(): L.Tree { L.Unlink(L.Unlink(TwoMade(), 2, [98]), 1, [97]) }

  lemma TwoRemovedIs()
    ensures var t := TwoRemoved();
      && L.Inv(t) && 2 in t.nlink && t.nlink[2] == 0
      && 3 in t.dirs && DOTDOT in t.dirs[3] && t.dirs[3][DOTDOT] == 2
  {
    TwoMadeIs();
    var b := TwoMade();
    assert b.dirs[2][[98]] == 3 && L.Empty(b, 3);
    RmdirIs(b, 2, [98]);
    var c := L.Unlink(b, 2, [98]);
    assert c.dirs[1][[97]] == 2 && c.dirs[2].Keys == {DOT, DOTDOT} && L.Empty(c, 2);
    RmdirIs(c, 1, [97]);
  }

  /**
   Which happens: mkdir a, mkdir a/b, rmdir a/b and rmdir a, with a process left in b. Its unlink, link
   or create of "../x" then locks a free inode.
   */
  lemma StrandedDirectory()
    ensures var t := L.Reclaim(TwoRemoved(), 2); L.Inv(t) && 3 in t.dirs && !AllSafe(t, 3) && Stranded(t, UP_X, 3)
  {
    TwoRemovedIs();
    ReclaimStrands(TwoRemoved(), 2, 3);
  }

  // An entry after the first two of a directory has been written.
  lemma EntryWritten(m: Image, n: int, f: Files, bm: seq<bv8>, dp: int, c: seq<int>, k: nat, x: Name, inum: int)
    requires Stored(m, n) && dp in m.cs && HasDir(f, bm, m.reserved, dp, c) && OnlyDir(m.f, f, dp, c)
    requires Placed(m.cs[dp], c, k, x, inum) && k >= 2
    ensures Stored(Image(f, bm, m.reserved, m.kinds, m.cs[dp := c]), n)
  {
    StoredHas(m, n, dp);
    DotsStay(m.cs[dp], c, k, x, inum);
    StoredAfter(m, n, f, bm, dp, c);
    assert m.kinds[dp := Dir] == m.kinds;
  }

  lemma TreeEntered(nlink: map<int, int>, cs: map<int, seq<int>>, dp: int, c: seq<int>, x: Name, i: int)
    requires dp in cs && AsMap(c) == AsMap(cs[dp])[x := i]
    ensures dp in TreeOf(cs) && L.Tree(nlink, TreeOf(cs[dp := c])) == L.Enter(L.Tree(nlink, TreeOf(cs)), dp, x, i)
  {
    assert TreeOf(cs[dp := c]) == TreeOf(cs)[dp := AsMap(c)];
  }

  // What dirlink's write makes of the directories and of the tree.
  lemma NameWritten(m: Image, n: int, f: Files, bm: seq<bv8>, nlink: map<int, int>, dp: int, c: seq<int>, k: nat,
                    x: Name, i: int)
    requires Stored(m, n) && dp in m.cs && HasDir(f, bm, m.reserved, dp, c) && OnlyDir(m.f, f, dp, c)
    requires !Used(m.cs[dp], k) && Placed(m.cs[dp], c, k, x, i) && AsMap(c) == AsMap(m.cs[dp])[x := i]
    ensures Stored(Image(f, bm, m.reserved, m.kinds, m.cs[dp := c]), n)
    ensures dp in TreeOf(m.cs) && L.Tree(nlink, TreeOf(m.cs[dp := c])) == L.Enter(L.Tree(nlink, TreeOf(m.cs)), dp, x, i)
  {
    StoredHas(m, n, dp);
    EntryWritten(m, n, f, bm, dp, c, k, x, i);
    TreeEntered(nlink, m.cs, dp, c, x, i);
  }

  lemma TreeErased(nlink: map<int, int>, cs: map<int, seq<int>>, dp: int, c: seq<int>, x: Name)
    requires dp in cs && AsMap(c) == AsMap(cs[dp]) - {x}
    ensures dp in TreeOf(cs) && L.Tree(nlink, TreeOf(cs[dp := c])) == L.Erase(L.Tree(nlink, TreeOf(cs)), dp, x)
  {
    assert TreeOf(cs[dp := c]) == TreeOf(cs)[dp := AsMap(c)];
  }

  lemma NotADot(c: seq<int>, k: nat)
    requires DotsFirst(c) && Used(c, k) && !IsDot(NameAt(c, k))
    ensures k >= 2
  {
  }

  lemma EmptyIsEmpty(nlink: map<int, int>, cs: map<int, seq<int>>, d: int)
    requires d in cs && NoDup(cs[d]) && DotsFirst(cs[d])
    ensures d in TreeOf(cs)
    ensures (forall k: nat :: 2 <= k < Slots(cs[d]) ==> !Used(cs[d], k)) <==> L.Empty(L.Tree(nlink, TreeOf(cs)), d)
  {
    EmptyIffOnlyDots(cs[d]);
  }

  // The second dirlink of a new directory finds the slot after the first.
  lemma DotIsFirst(a: seq<int>, i: int, k: nat)
    requires Placed([], a, k, DOT, i) && i != 0
    ensures k == 0 && Slots(a) == 1 && Used(a, 0) && |a| < MAXBYTES
  {
    assert PlacedAt([], a, k, DOT, i, 0);
  }

  lemma DotsAreKeys()
    ensures Key(DOT) == DOT && Key(DOTDOT) == DOTDOT && DOT != DOTDOT && AsMap([]) == map[]
  {
    assert Cut(DOT[1..], 13) == [] && Cut(DOTDOT[1..][1..], 12) == [];
  }

  lemma DotsComplete(f: Files, g: Files, h: Files, i: int, dp: int, a: seq<int>, c: seq<int>, l: nat)
    requires OnlyDir(f, g, i, a) && OnlyDir(g, h, i, c) && Placed([], a, 0, DOT, i) && Placed(a, c, l, DOTDOT, dp)
    requires i != 0 && dp != 0
    requires UsedTo(a, l) && !Used(a, l) && Used(a, 0) && Slots(a) == 1
    ensures DotsFirst(c) && OnlyDir(f, h, i, c)
  {
    DotsMade(a, c, i, dp);
    OnlyDirTwice(f, g, h, i, a, c);
  }

  lemma TreeAdded(cs: map<int, seq<int>>, i: int, c: seq<int>)
    ensures TreeOf(cs[i := c]) == TreeOf(cs)[i := AsMap(c)]
  {
  }

  lemma TreeLess(cs: map<int, seq<int>>, i: int)
    ensures TreeOf(cs - {i}) == TreeOf(cs) - {i}
  {
  }

  // The tree before the new inode gets its name.
  function WithFile(t: L.Tree, i: int): L.Tree { t.(nlink := t.nlink[i := 1]) }

  function WithDir(t: L.Tree, dp: int, i: int): L.Tree
    requires dp in t.nlink && i != dp
  {
    L.Tree(t.nlink[i := 1][dp := t.nlink[dp] + 1], t.dirs[i := map[DOT := i, DOTDOT := dp]])
  }

  // ---------- The calls ----------

  predicate CanLinkTo(t: L.Tree, ip: int, to: seq<int>, cwd: int) {
    var d := ResolveParent(t, to, cwd);
    d.Some? && L.CanLink(t, ip, d.value, Last(to))
  }

  // sys_link comes to lock a free inode: on the way to the old name, under it, or on the way to the new one.
  predicate LinkLocksFree(t: L.Tree, from: seq<int>, to: seq<int>, cwd: int) {
    Stranded(t, from, cwd)
    || match Resolve(t, from, cwd)
       case None => false
       case Some(i) => i !in t.nlink || (i !in t.dirs && Stranded(t, to, cwd))
  }

  function LinkTo(t: L.Tree, ip: int, to: seq<int>, cwd: int): L.Tree {
    if CanLinkTo(t, ip, to, cwd) then L.Link(t, ip, ResolveParent(t, to, cwd).value, Last(to)) else t
  }

  // Once the count is up, what is left of sys_link is the new entry.
  lemma LinkIsEntry(t: L.Tree, ip: int, to: seq<int>, cwd: int)
    requires ip in t.nlink && ip !in t.dirs
    ensures var b, d := L.Bump(t, ip, 1), ResolveParent(t, to, cwd);
      && b.nlink.Keys == t.nlink.Keys && Stranded(b, to, cwd) == Stranded(t, to, cwd) && ResolveParent(b, to, cwd) == d
      && (CanLinkTo(t, ip, to, cwd) <==> d.Some? && Last(to) !in t.dirs[d.value])
      && LinkTo(t, ip, to, cwd) == if CanLinkTo(t, ip, to, cwd) then L.Enter(b, d.value, Last(to), ip) else t
  {
    assert L.Bump(t, ip, 1).nlink.Keys == t.nlink.Keys;
  }

  predicate CanUnlink(t: L.Tree, dp: int, n: Name) {
    && dp in t.dirs && !IsDot(n) && n in t.dirs[dp]
    && (t.dirs[dp][n] in t.dirs ==> L.Empty(t, t.dirs[dp][n]))
  }

  /** sys_link, done, keeps the link counts right exactly when the new entry's directory is still linked. */
  lemma LinkToKeepsIff(t: L.Tree, ip: int, to: seq<int>, cwd: int)
    requires L.Inv(t) && CanLinkTo(t, ip, to, cwd)
    ensures L.Inv(LinkTo(t, ip, to, cwd)) <==> L.Linked(t, ResolveParent(t, to, cwd).value)
  {
    L.LinkCountedIff(t, ip, ResolveParent(t, to, cwd).value, Last(to));
  }

  /** And so does create. */
  lemma CreateKeepsIff(t: L.Tree, dp: int, n: Name, dir: bool, i: int)
    requires L.Inv(t) && L.CanCreate(t, dp, n, i)
    ensures L.Inv(L.Create(t, dp, n, dir, i)) <==> L.Linked(t, dp)
  {
    if dir { L.MkdirKeepsIff(t, dp, n, i); } else { L.CreateCountedIff(t, dp, n, i); }
  }

  // A path's parent directory and what unlink makes of the tree.
  function UnlinkPath(t: L.Tree, path: seq<int>, cwd: int): L.Tree {
    match ResolveParent(t, path, cwd)
    case None => t
    case Some(dp) => L.Unlink(t, dp, Last(path))
  }

  // sys_unlink comes to lock a free inode, or to one without links.
  predicate UnlinkPanics(t: L.Tree, path: seq<int>, cwd: int) {
    Stranded(t, path, cwd)
    || match ResolveParent(t, path, cwd)
       case None => false
       case Some(dp) =>
         var n := Last(path);
         !IsDot(n) && n in t.dirs[dp] && (t.dirs[dp][n] !in t.nlink || t.nlink[t.dirs[dp][n]] < 1)
  }

  // With the link counts right only the way there can lead to a free inode, and they stay right.
  lemma CountedUnlink(t: L.Tree, path: seq<int>, cwd: int)
    requires L.Inv(t)
    ensures UnlinkPanics(t, path, cwd) <==> Stranded(t, path, cwd)
    ensures L.Inv(UnlinkPath(t, path, cwd))
  {
    var d := ResolveParent(t, path, cwd);
    if d.Some? {
      var dp, n := d.value, Last(path);
      L.UnlinkKeeps(t, dp, n);
      if n in t.dirs[dp] && !IsDot(n) {
        var e := t.dirs[dp][n];
        assert L.EntryAt(t, dp, n) && L.CountAt(t, e);
        L.InRefs(t, dp, n, e);
      }
    }
  }

  // ---------- What the calls leave, told from the trees before and after ----------

  // Entry n of dp is gone. What it named has a link less, and so has dp if that was a directory.
  ghost predicate Unlinked(t: L.Tree, u: L.Tree, dp: int, n: Name) {
    && dp in t.dirs && n in t.dirs[dp]
    && var ip := t.dirs[dp][n];
    && u.dirs == t.dirs[dp := t.dirs[dp] - {n}] && u.nlink.Keys == t.nlink.Keys
    && forall i :: i in t.nlink ==>
         u.nlink[i] == t.nlink[i] - (if i == ip then 1 else 0) - (if i == dp && ip in t.dirs then 1 else 0)
  }

  lemma UnlinkIs(t: L.Tree, dp: int, n: Name)
    requires CanUnlink(t, dp, n) && dp in t.nlink && t.dirs[dp][n] in t.nlink
    ensures Unlinked(t, L.Unlink(t, dp, n), dp, n)
  {
  }

  lemma NotUnlinked(t: L.Tree, dp: int, n: Name)
    requires !CanUnlink(t, dp, n)
    ensures L.Unlink(t, dp, n) == t
  {
  }

  // Entry n of dp names ip, which has a link more.
  ghost predicate HasLink(t: L.Tree, u: L.Tree, ip: int, dp: int, n: Name) {
    && dp in t.dirs && ip in t.nlink
    && u.dirs == t.dirs[dp := t.dirs[dp][n := ip]] && u.nlink == t.nlink[ip := t.nlink[ip] + 1]
  }

  lemma LinkToIs(t: L.Tree, ip: int, to: seq<int>, cwd: int)
    ensures CanLinkTo(t, ip, to, cwd) ==>
      HasLink(t, LinkTo(t, ip, to, cwd), ip, ResolveParent(t, to, cwd).value, Last(to))
    ensures !CanLinkTo(t, ip, to, cwd) ==> LinkTo(t, ip, to, cwd) == t
  {
  }

  // Entry n of dp names the new inode i, with one link; a new directory has its dots, and dp a link more for them.
  ghost predicate HasNew(t: L.Tree, u: L.Tree, dp: int, n: Name, dir: bool, i: int) {
    && dp in t.dirs && dp in t.nlink && i != dp
    && u.dirs == (if dir then t.dirs[i := map[DOT := i, DOTDOT := dp]] else t.dirs)[dp := t.dirs[dp][n := i]]
    && u.nlink == (if dir then t.nlink[dp := t.nlink[dp] + 1] else t.nlink)[i := 1]
  }

  lemma CreateIs(t: L.Tree, dp: int, n: Name, dir: bool, i: int)
    requires L.CanCreate(t, dp, n, i)
    ensures HasNew(t, L.Create(t, dp, n, dir, i), dp, n, dir, i)
  {
  }

  predicate SameFileAt(f: Files, f': Files, j: int) {
    && HasInode(f, j) && HasInode(f', j) && f'.inodes[j] == f.inodes[j]
    && 0 <= f.inodes[j].size <= MAXBYTES && Content(f', j) == Content(f, j)
  }

  // Every inode but those has its blocks, its size and its bytes.
  ghost predicate SameFiles(f: Files, f': Files, xs: set<int>) {
    forall j {:trigger SameFileAt(f, f', j)} :: j in f.inodes && j !in xs ==> SameFileAt(f, f', j)
  }

  lemma SameFilesOf(f: Files, f': Files, d: int, c: seq<int>)
    requires OnlyDir(f, f', d, c)
    ensures SameFiles(f, f', {d})
  {
    forall j | j in f.inodes && j != d ensures SameFileAt(f, f', j) {}
  }

  lemma SameFilesOn(f: Files, g: Files, h: Files, xs: set<int>, ys: set<int>, zs: set<int>)
    requires SameFiles(f, g, xs) && SameFiles(g, h, ys) && xs + ys <= zs
    ensures SameFiles(f, h, zs)
  {
    forall j | j in f.inodes && j !in zs ensures SameFileAt(f, h, j) {
      assert SameFileAt(f, g, j) && SameFileAt(g, h, j);
    }
  }

  lemma SameFilesAll(m: Image, n: int, xs: set<int>)
    requires Stored(m, n)
    ensures SameFiles(m.f, m.f, xs)
  {
    assert SoundAt(m.f, m.bm, m.reserved, 0);
    forall j | j in m.f.inodes ensures SameFileAt(m.f, m.f, j) {}
  }

  lemma SameFilesFreed(f: Files, i: int)
    requires Shape(f) && NoHoles(f) && i in f.inodes
    ensures SameFiles(f, Truncated(f, i), {i})
  {
    TruncatedContent(f, i);
    forall j | j in f.inodes && j != i ensures SameFileAt(f, Truncated(f, i), j) {}
  }

  // The new inode, filled and then named.
  lemma Named(t: L.Tree, dp: int, n: Name, dir: bool, i: int)
    requires L.CanCreate(t, dp, n, i)
    ensures L.Enter(if dir then WithDir(t, dp, i) else WithFile(t, i), dp, n, i) == L.Create(t, dp, n, dir, i)
    ensures HasNew(t, L.Create(t, dp, n, dir, i), dp, n, dir, i)
  {
    CreateIs(t, dp, n, dir, i);
  }

  class Calls {
    const fs: Fs
    const ninodes: int
    var kinds: map<int, Kind> // the allocated inodes' types
    var nlink: map<int, int>  // and link counts
    ghost var cs: map<int, seq<int>>

    ghost function Disk(): Image
      reads this, fs
    {
      Image(fs.Now(), fs.bitmap, fs.reserved, kinds, cs)
    }

    ghost predicate Valid()
      reads this, fs
    {
      Stored(Disk(), ninodes) && nlink.Keys == kinds.Keys
    }

    ghost function Now(): L.Tree
      reads this
    {
      L.Tree(nlink, TreeOf(cs))
    }

    ghost predicate DiskFull()
      reads fs
    {
      AllUsed(fs.bitmap, |fs.disk|)
    }

    constructor (fs: Fs, ninodes: int, kinds: map<int, Kind>, nlink: map<int, int>, ghost cs: map<int, seq<int>>)
      requires Stored(Image(fs.Now(), fs.bitmap, fs.reserved, kinds, cs), ninodes) && nlink.Keys == kinds.Keys
      ensures Valid() && this.fs == fs && Now() == L.Tree(nlink, TreeOf(cs))
    {
      this.fs, this.ninodes, this.kinds, this.nlink, this.cs := fs, ninodes, kinds, nlink, cs;
    }

    // namei and nameiparent.
    method Namei(path: seq<int>, cwd: int, parent: bool) returns (r: Outcome, name: seq<int>)
      requires Valid() && IsPath(path)
      modifies fs
      ensures Disk() == old(Disk()) && (r.Panicked? <==> Stranded(Now(), path, cwd))
      ensures var want := if parent then ResolveParent(Now(), path, cwd) else Resolve(Now(), path, cwd);
        !r.Panicked? ==> want == if r.Done? then Some(r.n) else None
      ensures Bytes(name) && (parent && r.Done? ==> Components(path) != [] && Key(name) == Last(path))
    {
      StoredHolds(Disk(), ninodes);
      var buf := new int[DIRSIZ](_ => 0);
      r := Namex(fs, kinds.Keys, Dirs(kinds), L.ROOTINO, cwd, path, parent, buf, cs);
      name := buf[..];
    }

    // dirlink in a directory of the tree.
    method Enter(dp: int, name: seq<int>, i: int) returns (r: Outcome)
      requires Valid() && dp in cs && 0 < i < 65536 && Bytes(name)
      modifies fs, this`cs
      ensures r.Refused? <==> Key(name) in AsMap(old(cs)[dp])
      ensures r.Refused? ==> Disk() == old(Disk())
      ensures r.Done? ==> Valid() && dp in old(Now()).dirs && Now() == L.Enter(old(Now()), dp, Key(name), i)
      ensures r.Done? ==> cs.Keys == old(cs).Keys && SameFiles(old(fs.Now()), fs.Now(), {dp})
      ensures r.Panicked? ==> DiskFull() || |old(cs)[dp]| == MAXBYTES
    {
      ghost var m := Disk();
      StoredHas(m, ninodes, dp);
      ghost var c, c', k;
      c := cs[dp];
      r, c', k := Dirlink(fs, dp, name, i, c);
      if r.Done? {
        NameWritten(m, ninodes, fs.Now(), fs.bitmap, nlink, dp, c', k, Key(name), i);
        SameFilesOf(m.f, fs.Now(), dp, c');
        cs := cs[dp := c'];
      }
    }

    // Does the path lead to a directory of the largest file size?
    ghost predicate ParentFull(path: seq<int>, cwd: int)
      reads this
    {
      var d := ResolveParent(Now(), path, cwd);
      d.Some? && d.value in cs && |cs[d.value]| == MAXBYTES
    }

    // The new entry of sys_link.
    method NewEntry(ip: int, to: seq<int>, cwd: int) returns (r: Outcome)
      requires Valid() && IsPath(to) && 0 < ip < 65536
      modifies fs, this`cs
      ensures old(Stranded(Now(), to, cwd)) ==> r.Panicked?
      ensures r.Panicked? ==> old(Stranded(Now(), to, cwd)) || DiskFull() || old(ParentFull(to, cwd))
      ensures var t, d := old(Now()), ResolveParent(old(Now()), to, cwd);
        && (r.Refused? ==> Disk() == old(Disk()) && (d.None? || Last(to) in t.dirs[d.value]))
        && (r.Done? ==>
              && d.Some? && Last(to) !in t.dirs[d.value]
              && Valid() && Now() == L.Enter(t, d.value, Last(to), ip))
      ensures !r.Panicked? ==> SameFiles(old(fs.Now()), fs.Now(), old(cs).Keys)
    {
      ghost var m := Disk();
      SameFilesAll(m, ninodes, cs.Keys);
      SameFilesAll(m, ninodes, {});
      var name;
      r, name := Namei(to, cwd, true);
      if r.Done? {
        ghost var dp := r.n;
        r := Enter(r.n, name, ip);
        if r.Done? { SameFilesOn(m.f, m.f, fs.Now(), {}, {dp}, m.cs.Keys); }
      }
    }

    // The second half of sys_link: the count goes up, and down again if there is no new entry.
    method LinkInode(ip: int, to: seq<int>, cwd: int) returns (r: Outcome)
      requires Valid() && IsPath(to) && ip in kinds && !kinds[ip].Dir?
      modifies this, fs
      ensures !r.Panicked? ==>
        Valid() && Now() == LinkTo(old(Now()), ip, to, cwd) && r.Done? == CanLinkTo(old(Now()), ip, to, cwd)
      ensures !r.Panicked? ==> kinds == old(kinds) && SameFiles(old(fs.Now()), fs.Now(), old(cs).Keys)
      ensures old(Stranded(Now(), to, cwd)) ==> r.Panicked?
      ensures r.Panicked? ==> old(Stranded(Now(), to, cwd)) || DiskFull() || old(ParentFull(to, cwd))
    {
      StoredInum(Disk(), ninodes, ip);
      LinkIsEntry(Now(), ip, to, cwd);
      nlink := nlink[ip := nlink[ip] + 1];
      assert Now() == L.Bump(old(Now()), ip, 1);
      r := NewEntry(ip, to, cwd);
      if r.Refused? {
        nlink := nlink[ip := nlink[ip] - 1];
        assert nlink == old(nlink);
      }
    }

    /**
     sys_link: a link more, or nothing changed. It panics if it comes to lock a free inode, and
     otherwise only if the new entry does not fit on the disk or in its directory.
     */
    method SysLink(from: seq<int>, to: seq<int>, cwd: int) returns (r: Outcome)
      requires Valid() && IsPath(from) && IsPath(to)
      modifies this, fs
      ensures var t := old(Now());
        && (LinkLocksFree(t, from, to, cwd) ==> r.Panicked?)
        && (r.Panicked? ==> LinkLocksFree(t, from, to, cwd) || DiskFull() || old(ParentFull(to, cwd)))
      ensures var t := old(Now()); var i := Resolve(t, from, cwd);
        !r.Panicked? ==>
          && Valid() && Now() == (if i.Some? then LinkTo(t, i.value, to, cwd) else t)
          && r.Done? == (i.Some? && CanLinkTo(t, i.value, to, cwd))
      ensures var t := old(Now()); var i, d := Resolve(t, from, cwd), ResolveParent(t, to, cwd);
        && (r.Done? ==> i.Some? && d.Some? && HasLink(t, Now(), i.value, d.value, Last(to)))
        && (r.Refused? ==> Now() == t)
      ensures !r.Panicked? ==> kinds == old(kinds) && SameFiles(old(fs.Now()), fs.Now(), old(cs).Keys)
    {
      SameFilesAll(Disk(), ninodes, cs.Keys);
      var name;
      r, name := Namei(from, cwd, false);
      if !r.Done? { return; }
      var ip := r.n;
      if ip !in kinds { return Panicked; } // "ilock: no type"
      StoredInum(Disk(), ninodes, ip);
      if kinds[ip].Dir? { return Refused; }
      LinkToIs(Now(), ip, to, cwd);
      r := LinkInode(ip, to, cwd);
    }

    // Is the directory empty but for "." and ".."?
    method DirEmpty(d: int) returns (empty: bool)
      requires Valid() && d in cs
      modifies fs
      ensures Disk() == old(Disk()) && d in Now().dirs && empty == L.Empty(Now(), d)
    {
      StoredHas(Disk(), ninodes, d);
      empty := Isdirempty(fs, d, cs[d]);
      EmptyIsEmpty(nlink, cs, d);
    }

    // The write of sys_unlink to the directory.
    method Erase(dp: int, k: nat)
      requires Valid() && dp in cs && Used(cs[dp], k) && !IsDot(NameAt(cs[dp], k))
      modifies fs, this`cs
      ensures Valid() && dp in old(Now()).dirs && Now() == L.Erase(old(Now()), dp, NameAt(old(cs)[dp], k))
      ensures SameFiles(old(fs.Now()), fs.Now(), {dp})
    {
      ghost var m := Disk();
      StoredHas(m, ninodes, dp);
      NotADot(cs[dp], k);
      var r;
      ghost var c;
      r, c := ClearEntry(fs, dp, k, cs[dp]);
      EntryWritten(m, ninodes, fs.Now(), fs.bitmap, dp, c, k, [], 0);
      TreeErased(nlink, cs, dp, c, NameAt(cs[dp], k));
      SameFilesOf(m.f, fs.Now(), dp, c);
      cs := cs[dp := c];
    }

    method Find(dp: int, name: seq<int>) returns (found: bool, k: nat, ip: int)
      requires Valid() && dp in cs
      modifies fs
      ensures Disk() == old(Disk()) && dp in Now().dirs && found == (Key(name) in Now().dirs[dp])
      ensures found ==> Used(cs[dp], k) && NameAt(cs[dp], k) == Key(name) && ip == Now().dirs[dp][Key(name)]
    {
      StoredHas(Disk(), ninodes, dp);
      found, k, ip := Dirlookup(fs, dp, name, cs[dp]);
    }

    // The end of sys_unlink: the entry goes, and the links it counted for.
    method Remove(dp: int, k: nat, ip: int)
      requires Valid() && dp in cs && Used(cs[dp], k) && !IsDot(NameAt(cs[dp], k)) && ip in kinds && dp in kinds
      modifies this, fs
      ensures var t := old(Now()); Valid() && dp in t.dirs && ip in t.nlink && dp in t.nlink
      ensures var e := L.Erase(old(Now()), dp, NameAt(old(cs)[dp], k));
        Now() == if old(kinds)[ip].Dir? then L.Bump(L.Bump(e, dp, -1), ip, -1) else L.Bump(e, ip, -1)
      ensures kinds == old(kinds) && SameFiles(old(fs.Now()), fs.Now(), {dp})
    {
      Erase(dp, k);
      if kinds[ip].Dir? {
        nlink := nlink[dp := nlink[dp] - 1];
      }
      nlink := nlink[ip := nlink[ip] - 1];
    }

    // sys_unlink in its directory; a free inode or one without links is a panic.
    method UnlinkIn(dp: int, name: seq<int>) returns (r: Outcome)
      requires Valid() && dp in cs && !IsDot(Key(name))
      modifies this, fs
      ensures var t, n := old(Now()), Key(name);
        if n !in t.dirs[dp] then r.Refused? && Valid() && Now() == t
        else if t.dirs[dp][n] !in t.nlink || t.nlink[t.dirs[dp][n]] < 1 then r.Panicked?
        else
          && !r.Panicked? && Valid() && Now() == L.Unlink(t, dp, n)
          && r.Done? == (t.dirs[dp][n] in t.dirs ==> L.Empty(t, t.dirs[dp][n]))
      ensures r.Done? ==> Unlinked(old(Now()), Now(), dp, Key(name))
      ensures !r.Panicked? ==> kinds == old(kinds) && SameFiles(old(fs.Now()), fs.Now(), {dp})
    {
      SameFilesAll(Disk(), ninodes, {dp});
      var found, k, ip := Find(dp, name);
      if !found { return Refused; }
      if ip !in kinds { return Panicked; }
      if nlink[ip] < 1 { return Panicked; }
      StoredInum(Disk(), ninodes, ip);
      StoredHas(Disk(), ninodes, dp);
      if kinds[ip].Dir? {
        var empty := DirEmpty(ip);
        if !empty { return Refused; }
      }
      UnlinkIs(Now(), dp, Key(name));
      Remove(dp, k, ip);
      r := Done(0);
    }

    /**
     sys_unlink takes the path's last entry out of its directory and its links off the counts, or changes
     nothing. It panics exactly when it comes to lock a free inode or finds one without links, and with
     the link counts right, which it keeps, exactly when the path comes to a free inode.
     */
    method SysUnlink(path: seq<int>, cwd: int) returns (r: Outcome)
      requires Valid() && IsPath(path)
      modifies this, fs
      ensures r.Panicked? <==> old(UnlinkPanics(Now(), path, cwd))
      ensures !r.Panicked? ==> Valid() && Now() == UnlinkPath(old(Now()), path, cwd)
      ensures var t, d := old(Now()), ResolveParent(old(Now()), path, cwd);
        && (!r.Panicked? ==> r.Done? == (d.Some? && CanUnlink(t, d.value, Last(path))))
        && (r.Done? ==> Unlinked(t, Now(), d.value, Last(path))) && (r.Refused? ==> Now() == t)
      ensures !r.Panicked? ==> kinds == old(kinds) && SameFiles(old(fs.Now()), fs.Now(), old(cs).Keys)
      ensures old(L.Inv(Now())) ==>
        (r.Panicked? <==> old(Stranded(Now(), path, cwd))) && (!r.Panicked? ==> L.Inv(Now()))
      ensures old(L.Inv(Now()) && AllSafe(Now(), From(path, cwd))) ==> !r.Panicked?
    {
      ghost var t := Now();
      if L.Inv(t) {
        CountedUnlink(t, path, cwd);
        if AllSafe(t, From(path, cwd)) { SafeIsNotStranded(t, path, cwd); }
      }
      SameFilesAll(Disk(), ninodes, cs.Keys);
      SameFilesAll(Disk(), ninodes, {});
      var name;
      r, name := Namei(path, cwd, true);
      if !r.Done? { return; }
      var dp := r.n;
      var dot := Namecmp(name, DOT);
      var dots := Namecmp(name, DOTDOT);
      if dot || dots { return Refused; }
      if !CanUnlink(t, dp, Last(path)) { NotUnlinked(t, dp, Last(path)); }
      ghost var f := fs.Now();
      r := UnlinkIn(dp, name);
      if !r.Panicked? { SameFilesOn(f, f, fs.Now(), {}, {dp}, old(cs).Keys); }
    }

    /** ialloc: the lowest free inode, or none. */
    method Ialloc() returns (ok: bool, i: int)
      requires Valid()
      ensures ok ==> 0 < i < ninodes && i !in kinds && i in fs.inodes && forall j :: 0 < j < i ==> j in kinds
      ensures !ok ==> forall j :: 0 < j < ninodes ==> j in kinds
    {
      i := 1;
      while i < ninodes
        invariant 1 <= i && forall j :: 0 < j < i ==> j in kinds
      {
        if i !in kinds {
          assert InodeAt(Disk(), ninodes, i);
          return true, i;
        }
        i := i + 1;
      }
      ok := false;
    }

    // "." and ".." in the new directory.
    method MakeDots(i: int, dp: int) returns (r: Outcome, ghost c: seq<int>)
      requires Valid() && i in fs.inodes && i !in kinds && 0 < i < 65536 && 0 < dp < 65536
      modifies fs
      ensures !r.Refused? && (r.Panicked? ==> DiskFull())
      ensures r.Done? ==> HasDir(fs.Now(), fs.bitmap, fs.reserved, i, c) && OnlyDir(old(fs.Now()), fs.Now(), i, c)
      ensures r.Done? ==> DotsFirst(c) && AsMap(c) == map[DOT := i, DOTDOT := dp]
    {
      ghost var f := fs.Now();
      SpareIsEmpty(Disk(), ninodes, i);
      DotsAreKeys();
      ghost var a, k;
      r, a, k := Dirlink(fs, i, DOT, i, []);
      c := a;
      if r.Done? {
        DotIsFirst(a, i, k);
        ghost var g := fs.Now();
        r, c, k := Dirlink(fs, i, DOTDOT, dp, a);
        if r.Done? { DotsComplete(f, g, fs.Now(), i, dp, a, c, k); }
      }
    }

    /** What mkfs does first: on free inodes, a root directory that is its own parent, with one link. */
    method MakeRoot() returns (r: Outcome)
      requires Valid() && kinds == map[] && L.ROOTINO < ninodes
      modifies this, fs
      ensures !r.Refused? && (r.Panicked? ==> DiskFull())
      ensures r.Done? ==> Valid() && Now() == L.Fresh() && L.Inv(Now())
      ensures r.Done? ==>
        Now().dirs == map[1 := map[DOT := 1, DOTDOT := 1]] && nlink == map[1 := 1] && kinds == map[1 := Dir]
    {
      ghost var m, root := Disk(), L.ROOTINO;
      assert InodeAt(m, ninodes, root);
      ghost var c;
      r, c := MakeDots(L.ROOTINO, L.ROOTINO);
      if r.Done? {
        StoredAfter(m, ninodes, fs.Now(), fs.bitmap, root, c);
        NoDirs(m, ninodes);
        TreeAdded(cs, root, c);
        L.FreshIsGood();
        kinds, nlink := map[L.ROOTINO := Dir], map[L.ROOTINO := 1];
        cs := cs[root := c];
      }
    }

    // The new directory with its entries and its link, and the parent's link.
    method FillDir(i: int, dp: int) returns (r: Outcome)
      requires Valid() && i in fs.inodes && i !in kinds && dp in cs
      modifies this, fs
      ensures !r.Refused? && (r.Panicked? ==> DiskFull())
      ensures r.Done? ==>
        Valid() && dp in old(nlink) && i != dp && kinds == old(kinds)[i := Dir] && dp in cs && cs[dp] == old(cs)[dp]
      ensures r.Done? ==> Now() == WithDir(old(Now()), dp, i) && SameFiles(old(fs.Now()), fs.Now(), {i})
    {
      ghost var m := Disk();
      StoredHas(m, ninodes, dp);
      assert InodeAt(m, ninodes, i);
      ghost var c;
      r, c := MakeDots(i, dp);
      if r.Panicked? { return; }
      StoredAfter(m, ninodes, fs.Now(), fs.bitmap, i, c);
      TreeAdded(cs, i, c);
      SameFilesOf(m.f, fs.Now(), i, c);
      nlink := nlink[i := 1][dp := nlink[dp] + 1];
      cs := cs[i := c];
      kinds := kinds[i := Dir];
    }

    // The new inode with its link, and for a directory its entries and the parent's link.
    method Fill(i: int, dp: int, kind: Kind) returns (r: Outcome)
      requires Valid() && i in fs.inodes && i !in kinds && dp in cs
      modifies this, fs
      ensures !r.Refused? && (r.Panicked? ==> DiskFull())
      ensures r.Done? ==>
        Valid() && dp in old(nlink) && i != dp && kinds == old(kinds)[i := kind] && dp in cs && cs[dp] == old(cs)[dp]
      ensures r.Done? ==> Now() == if kind.Dir? then WithDir(old(Now()), dp, i) else WithFile(old(Now()), i)
      ensures r.Done? ==> SameFiles(old(fs.Now()), fs.Now(), {i})
    {
      if kind.Dir? {
        r := FillDir(i, dp);
      } else {
        ghost var m := Disk();
        StoredHas(m, ninodes, dp);
        SameFilesAll(m, ninodes, {i});
        StoredFile(m, ninodes, i, kind);
        nlink := nlink[i := 1];
        kinds := kinds[i := kind];
        r := Done(i);
      }
    }

    // create for a name that is not there.
    method CreateIn(dp: int, name: seq<int>, kind: Kind) returns (r: Outcome)
      requires Valid() && dp in cs && Bytes(name) && Key(name) !in AsMap(cs[dp])
      modifies this, fs
      ensures !r.Refused?
      ensures r.Done? ==> r.n !in old(nlink) && (forall j :: 0 < j < r.n ==> j in old(nlink))
      ensures r.Done? ==> Valid() && Now() == L.Create(old(Now()), dp, Key(name), kind.Dir?, r.n)
      ensures r.Done? ==>
        && HasNew(old(Now()), Now(), dp, Key(name), kind.Dir?, r.n) && kinds == old(kinds)[r.n := kind]
        && SameFiles(old(fs.Now()), fs.Now(), {r.n, dp})
      ensures r.Panicked? ==> DiskFull() || |old(cs)[dp]| == MAXBYTES || forall j :: 0 < j < ninodes ==> j in old(nlink)
    {
      var ok, i := Ialloc();
      if !ok { return Panicked; }
      ghost var m := Disk();
      assert InodeAt(m, ninodes, i);
      r := Fill(i, dp, kind);
      if r.Done? {
        ghost var g := fs.Now();
        r := Enter(dp, name, i);
        if r.Done? {
          SameFilesOn(m.f, g, fs.Now(), {i}, {dp}, {i, dp});
          Named(old(Now()), dp, Key(name), kind.Dir?, i);
          r := Done(i);
        }
      }
    }

    /** create: the new inode, or the file already there, or nothing. */
    method Create(path: seq<int>, kind: Kind, cwd: int) returns (r: Outcome)
      requires Valid() && IsPath(path)
      modifies this, fs
      ensures var t, d := old(Now()), ResolveParent(old(Now()), path, cwd);
        if Stranded(t, path, cwd) then r.Panicked?
        else if d.None? then r.Refused? && Valid() && Now() == t
        else if Last(path) in t.dirs[d.value] then
          var ip := t.dirs[d.value][Last(path)];
          if ip !in t.nlink then r.Panicked?
          else
            && Valid() && Now() == t
            && r == if kind.File? && ip in old(kinds) && old(kinds)[ip].File? then Done(ip) else Refused
        else
          && !r.Refused?
          && (r.Panicked? ==>
                DiskFull() || old(ParentFull(path, cwd)) || forall j :: 0 < j < ninodes ==> j in t.nlink)
          && (r.Done? ==>
                && r.n !in t.nlink && (forall j :: 0 < j < r.n ==> j in t.nlink)
                && Valid() && Now() == L.Create(t, d.value, Last(path), kind.Dir?, r.n)
                && HasNew(t, Now(), d.value, Last(path), kind.Dir?, r.n) && kinds == old(kinds)[r.n := kind]
                && SameFiles(old(fs.Now()), fs.Now(), {r.n, d.value}))
    {
      var name;
      r, name := Namei(path, cwd, true);
      if !r.Done? { return; }
      var dp := r.n;
      var hit, k, ip := Find(dp, name);
      if hit {
        if ip !in kinds { return Panicked; }
        if kind.File? && kinds[ip].File? { return Done(ip); }
        return Refused;
      }
      r := CreateIn(dp, name, kind);
    }

    method Truncate(i: int)
      requires Valid() && i in kinds && i in fs.inodes
      modifies fs
      ensures Stored(Image(fs.Now(), fs.bitmap, fs.reserved, kinds - {i}, cs - {i}), ninodes)
      ensures i in fs.inodes && fs.inodes[i] == Spare() && SameFiles(old(fs.Now()), fs.Now(), {i})
    {
      ghost var m := Disk();
      assert SoundAt(m.f, m.bm, m.reserved, 0);
      var ok := fs.Itrunc(i);
      StoredFreed(m, ninodes, fs.bitmap, i);
      SameFilesFreed(m.f, i);
    }

    /** The last iput of an inode without links: its blocks and the inode are free again. */
    method Reclaim(i: int)
      requires Valid() && i in nlink && nlink[i] == 0
      modifies this, fs
      ensures Valid() && Now() == L.Reclaim(old(Now()), i) && i in fs.inodes && fs.inodes[i] == Spare()
      ensures nlink == old(nlink) - {i} && Now().dirs == old(Now()).dirs - {i} && kinds == old(kinds) - {i}
      ensures SameFiles(old(fs.Now()), fs.Now(), {i})
      ensures old(L.Inv(Now())) ==> L.Inv(Now())
    {
      if L.Inv(Now()) { L.ReclaimKeeps(Now(), i); }
      StoredInum(Disk(), ninodes, i);
      Truncate(i);
      TreeLess(cs, i);
      kinds, nlink, cs := kinds - {i}, nlink - {i}, cs - {i};
    }
  }
}
