/**
 Link counts: nlink and the directory entries as link, unlink, create, mkdir and mknod change them,
 on directories as finite maps.
 */
module LinkCounts {
  import opened Directory

  const ROOTINO := 1
  // Allocated inodes with their link counts, and the entries of those that are directories.
  datatype Tree = Tree(nlink: map<int, int>, dirs: map<int, map<Name, int>>)

  // A directory that can still be reached by its name.
  predicate Linked(s: Tree, d: int) { d in s.dirs && d in s.nlink && s.nlink[d] > 0 }

  // Entry n of linked directory d names i, and is not i's own ".".
  predicate Names(s: Tree, d: int, n: Name, i: int) {
    Linked(s, d) && n in s.dirs[d] && s.dirs[d][n] == i && !(d == i && n == DOT)
  }

  function Refs(s: Tree, i: int): set<(int, Name)> {
    set d, n | d in s.dirs && n in s.dirs[d] && Names(s, d, n, i) :: (d, n)
  }

  // ---------- The invariant ----------

  predicate CountAt(s: Tree, i: int) { i in s.nlink ==> s.nlink[i] == |Refs(s, i)| }

  // A linked directory's entries name inodes; a subdirectory's ".." leads back, and it has one name.
  predicate EntryAt(s: Tree, d: int, n: Name) {
    d in s.dirs && n in s.dirs[d] ==>
      var c := s.dirs[d][n];
      && (n == DOT ==> c == d)
      && (!Linked(s, d) ==> IsDot(n))
      && (Linked(s, d) ==> c in s.nlink)
      && (!IsDot(n) && c in s.dirs ==> c != ROOTINO && DOTDOT in s.dirs[c] && s.dirs[c][DOTDOT] == d)
  }

  ghost predicate HasName(s: Tree, p: int, d: int) {
    exists n :: p in s.dirs && n in s.dirs[p] && !IsDot(n) && s.dirs[p][n] == d
  }

  ghost predicate DirAt(s: Tree, d: int) {
    d in s.dirs ==>
      && d in s.nlink && DOT in s.dirs[d] && DOTDOT in s.dirs[d]
      && (Linked(s, d) && d != ROOTINO ==> HasName(s, s.dirs[d][DOTDOT], d))
  }

  predicate OnceAt(s: Tree, d: int, n: Name, m: Name) {
    d in s.dirs && n in s.dirs[d] && m in s.dirs[d] && !IsDot(n) && !IsDot(m) && s.dirs[d][n] == s.dirs[d][m]
      && s.dirs[d][n] in s.dirs
    ==> n == m
  }

  // Every link count is right.
  ghost predicate Counted(s: Tree) { forall i {:trigger CountAt(s, i)} :: CountAt(s, i) }

  ghost predicate Shaped(s: Tree) {
    && Linked(s, ROOTINO) && DOTDOT in s.dirs[ROOTINO] && s.dirs[ROOTINO][DOTDOT] == ROOTINO
    && (forall d, n {:trigger EntryAt(s, d, n)} :: EntryAt(s, d, n))
    && (forall d {:trigger DirAt(s, d)} :: DirAt(s, d))
    && (forall d, n, m {:trigger OnceAt(s, d, n, m)} :: OnceAt(s, d, n, m))
  }

  ghost predicate Inv(s: Tree) { Counted(s) && Shaped(s) }

  // ---------- The operations ----------

  // An entry more, or one fewer.
  function Enter(s: Tree, d: int, n: Name, i: int): Tree
    requires d in s.dirs
  {
    s.(dirs := s.dirs[d := s.dirs[d][n := i]])
  }

  function Erase(s: Tree, d: int, n: Name): Tree
    requires d in s.dirs
  {
    s.(dirs := s.dirs[d := s.dirs[d] - {n}])
  }

  function Bump(s: Tree, i: int, k: int): Tree
    requires i in s.nlink
  {
    s.(nlink := s.nlink[i := s.nlink[i] + k])
  }

  function Link(s: Tree, ip: int, dp: int, n: Name): Tree {
    if ip !in s.nlink || ip in s.dirs || dp !in s.dirs || n in s.dirs[dp] then s
    else Enter(Bump(s, ip, 1), dp, n, ip)
  }

  predicate Empty(s: Tree, d: int)
    requires d in s.dirs
  {
    forall n :: n in s.dirs[d] ==> IsDot(n)
  }

  function Unlink(s: Tree, dp: int, n: Name): Tree {
    if dp !in s.dirs || dp !in s.nlink || IsDot(n) || n !in s.dirs[dp] || s.dirs[dp][n] !in s.nlink then s
    else
      var ip := s.dirs[dp][n];
      if ip !in s.dirs then Bump(Erase(s, dp, n), ip, -1)
      else if !Empty(s, ip) then s
      else Bump(Bump(Erase(s, dp, n), dp, -1), ip, -1)
  }

  function NewFile(s: Tree, dp: int, n: Name, i: int): Tree
    requires dp in s.dirs
  {
    Enter(s.(nlink := s.nlink[i := 1]), dp, n, i)
  }

  function NewDir(s: Tree, dp: int, n: Name, i: int): Tree
    requires dp in s.dirs && dp in s.nlink && i != dp
  {
    var a := Bump(s.(nlink := s.nlink[i := 1]), dp, 1);
    Enter(a.(dirs := a.dirs[i := map[DOT := i, DOTDOT := dp]]), dp, n, i)
  }

  // i is the inode that ialloc hands out.
  function Create(s: Tree, dp: int, n: Name, dir: bool, i: int): Tree {
    if dp !in s.dirs || dp !in s.nlink || n in s.dirs[dp] || i in s.nlink || i in s.dirs then s
    else if dir then NewDir(s, dp, n, i)
    else NewFile(s, dp, n, i)
  }

  // The last iput of an inode without links.
  function Reclaim(s: Tree, i: int): Tree {
    if i in s.nlink && s.nlink[i] == 0 then Tree(s.nlink - {i}, s.dirs - {i}) else s
  }

  // ---------- One entry more or fewer ----------

  lemma InRefs(s: Tree, d: int, n: Name, i: int)
    ensures (d, n) in Refs(s, i) <==> Names(s, d, n, i)
  {
  }

  lemma RefsGrow(s: Tree, t: Tree, i: int, d: int, n: Name)
    requires Names(t, d, n, i) && !Names(s, d, n, i)
    requires forall e, m :: (e, m) != (d, n) ==> Names(t, e, m, i) == Names(s, e, m, i)
    ensures |Refs(t, i)| == |Refs(s, i)| + 1
  {
    assert Refs(t, i) == Refs(s, i) + {(d, n)};
  }

  lemma RefsSame(s: Tree, t: Tree, i: int)
    requires forall e, m :: Names(t, e, m, i) == Names(s, e, m, i)
    ensures |Refs(t, i)| == |Refs(s, i)|
  {
    assert Refs(t, i) == Refs(s, i);
  }

  // ---------- Each operation keeps the counts ----------

  lemma NobodyNames(s: Tree, i: int, d: int, n: Name)
    requires Inv(s) && i !in s.nlink
    ensures !Names(s, d, n, i)
  {
    assert EntryAt(s, d, n);
  }

  lemma LinkKeeps(s: Tree, ip: int, dp: int, n: Name)
    requires Inv(s) && Linked(s, dp) && n !in s.dirs[dp] && ip in s.nlink && ip !in s.dirs
    ensures Inv(Link(s, ip, dp, n))
  {
    var t := Link(s, ip, dp, n);
    forall i ensures CountAt(t, i) {
      assert CountAt(s, i);
      if i == ip { RefsGrow(s, t, i, dp, n); } else { RefsSame(s, t, i); }
    }
    assert DirAt(s, dp);
    EntryKept(s, t, dp, n, ip);
  }

  // Adding entry n for i to dp keeps the shape, when i is a file or a directory made for it.
  lemma EntryKept(s: Tree, t: Tree, dp: int, n: Name, i: int)
    requires Shaped(s) && Linked(s, dp) && n !in s.dirs[dp] && !IsDot(n) && dp in t.dirs
    requires t.dirs[dp] == s.dirs[dp][n := i]
    requires forall d :: d in t.dirs && d != dp && d != i ==> d in s.dirs && t.dirs[d] == s.dirs[d]
    requires forall d :: d in s.dirs ==> d in t.dirs && Linked(t, d) == Linked(s, d)
    requires forall d :: d in s.nlink ==> d in t.nlink
    requires i in t.nlink
    requires i in t.dirs ==> i !in s.nlink && i !in s.dirs && i != ROOTINO && t.dirs[i] == map[DOT := i, DOTDOT := dp]
    ensures Shaped(t)
  {
    forall d, m ensures EntryAt(t, d, m) {
      assert EntryAt(s, d, m);
      if d in t.dirs && m in t.dirs[d] && !IsDot(m) && (d, m) != (dp, n) && t.dirs[d][m] in t.dirs {
        assert Linked(s, d);
      }
    }
    forall d ensures DirAt(t, d) {
      assert DirAt(s, d);
      if d in s.dirs && Linked(t, d) && d != ROOTINO {
        var p := s.dirs[d][DOTDOT];
        var m :| p in s.dirs && m in s.dirs[p] && !IsDot(m) && s.dirs[p][m] == d;
        assert p in t.dirs && m in t.dirs[p] && t.dirs[p][m] == d;
      }
      if d == i && i in t.dirs { assert n in t.dirs[dp] && t.dirs[dp][n] == i; }
    }
    forall d, m, k ensures OnceAt(t, d, m, k) { assert OnceAt(s, d, m, k) && EntryAt(s, d, m) && EntryAt(s, d, k); }
  }

  lemma NewFileKeeps(s: Tree, dp: int, n: Name, i: int)
    requires Inv(s) && Linked(s, dp) && n !in s.dirs[dp] && i !in s.nlink && i !in s.dirs
    ensures Inv(NewFile(s, dp, n, i))
  {
    var t := NewFile(s, dp, n, i);
    forall j ensures CountAt(t, j) {
      assert CountAt(s, j);
      if j == i {
        forall d, m ensures !Names(s, d, m, i) { NobodyNames(s, i, d, m); }
        RefsGrow(s, t, i, dp, n);
        assert Refs(s, i) == {};
      } else { RefsSame(s, t, j); }
    }
    assert DirAt(s, dp);
    EntryKept(s, t, dp, n, i);
  }

  lemma NewDirKeeps(s: Tree, dp: int, n: Name, i: int)
    requires Inv(s) && Linked(s, dp) && n !in s.dirs[dp] && i !in s.nlink && i !in s.dirs
    ensures Inv(NewDir(s, dp, n, i))
  {
    var t := NewDir(s, dp, n, i);
    assert CountAt(s, dp) && DirAt(s, dp);
    forall j ensures CountAt(t, j) {
      assert CountAt(s, j);
      if j == i {
        forall d, m ensures !Names(s, d, m, i) { NobodyNames(s, i, d, m); }
        RefsGrow(s, t, i, dp, n);
        assert Refs(s, i) == {};
      } else if j == dp { RefsGrow(s, t, dp, i, DOTDOT); } else { RefsSame(s, t, j); }
    }
    EntryKept(s, t, dp, n, i);
  }

  lemma UnlinkFileKeeps(s: Tree, dp: int, n: Name)
    requires Inv(s) && dp in s.dirs && !IsDot(n) && n in s.dirs[dp] && s.dirs[dp][n] !in s.dirs
    ensures s.dirs[dp][n] in s.nlink && s.nlink[s.dirs[dp][n]] >= 1 && Inv(Unlink(s, dp, n))
  {
    assert EntryAt(s, dp, n) && DirAt(s, dp);
    var ip, t := s.dirs[dp][n], Unlink(s, dp, n);
    forall i ensures CountAt(t, i) {
      assert CountAt(s, i);
      if i == ip { RefsGrow(t, s, i, dp, n); } else { RefsSame(s, t, i); }
    }
    assert CountAt(s, ip);
    InRefs(s, dp, n, ip);
    ErasedKept(s, t, dp, n);
  }

  // A directory's own name is not lost with another entry.
  lemma ErasedKept(s: Tree, t: Tree, dp: int, n: Name)
    requires Shaped(s) && dp in s.dirs && n in s.dirs[dp] && !IsDot(n) && t.dirs == s.dirs[dp := s.dirs[dp] - {n}]
    requires t.nlink.Keys == s.nlink.Keys && Linked(t, ROOTINO)
    requires forall d :: d in s.dirs && (d != s.dirs[dp][n]) ==> Linked(t, d) == Linked(s, d)
    requires s.dirs[dp][n] in s.dirs ==> s.dirs[dp][n] != dp && Empty(s, s.dirs[dp][n]) && !Linked(t, s.dirs[dp][n])
    ensures Shaped(t)
  {
    forall d, m ensures EntryAt(t, d, m) { assert EntryAt(s, d, m); }
    forall d ensures DirAt(t, d) {
      assert DirAt(s, d);
      if d in t.dirs && Linked(t, d) && d != ROOTINO {
        var p := s.dirs[d][DOTDOT];
        var m :| p in s.dirs && m in s.dirs[p] && !IsDot(m) && s.dirs[p][m] == d;
        assert p in t.dirs && m in t.dirs[p] && t.dirs[p][m] == d;
      }
    }
    forall d, m, k ensures OnceAt(t, d, m, k) { assert OnceAt(s, d, m, k); }
  }

  // The only name of an empty directory is the entry that leads to it.
  lemma OneName(s: Tree, dp: int, n: Name, e: int, m: Name)
    requires Inv(s) && dp in s.dirs && !IsDot(n) && n in s.dirs[dp] && s.dirs[dp][n] in s.dirs
    requires Empty(s, s.dirs[dp][n])
    requires Names(s, e, m, s.dirs[dp][n])
    ensures (e, m) == (dp, n)
  {
    assert EntryAt(s, dp, n) && EntryAt(s, e, m) && DirAt(s, e) && OnceAt(s, dp, n, m);
  }

  lemma ParentStaysLinked(s: Tree, dp: int, n: Name)
    requires Inv(s) && dp in s.dirs && !IsDot(n) && n in s.dirs[dp] && s.dirs[dp][n] in s.dirs && s.dirs[dp][n] != dp
    ensures Linked(s, dp) && s.nlink[dp] >= 2 && Names(s, s.dirs[dp][n], DOTDOT, dp)
  {
    var ip := s.dirs[dp][n];
    assert EntryAt(s, dp, n) && DirAt(s, dp) && CountAt(s, dp) && CountAt(s, ip) && DirAt(s, ip);
    InRefs(s, dp, n, ip);
    assert Linked(s, ip);
    var e, m := dp, DOTDOT;
    if dp != ROOTINO {
      e := s.dirs[dp][DOTDOT];
      m :| e in s.dirs && m in s.dirs[e] && !IsDot(m) && s.dirs[e][m] == dp;
      assert EntryAt(s, e, m);
    }
    assert Names(s, e, m, dp);
    InRefs(s, e, m, dp);
    InRefs(s, ip, DOTDOT, dp);
    TwoAtLeast(Refs(s, dp), (e, m), (ip, DOTDOT));
  }

  lemma TwoAtLeast<T>(a: set<T>, x: T, y: T)
    requires x in a && y in a && x != y
    ensures |a| >= 2
  {
    assert {x, y} <= a;
    assert |a - {x}| == |a| - 1 && y in a - {x};
  }

  // The counts after rmdir: the directory's own name and the ".." in it are gone.
  lemma UnlinkDirCounts(s: Tree, t: Tree, dp: int, n: Name, ip: int, i: int)
    requires Inv(s) && dp in s.dirs && !IsDot(n) && n in s.dirs[dp] && s.dirs[dp][n] == ip && ip in s.dirs && ip != dp
    requires Empty(s, ip)
    requires ip in s.nlink && dp in s.nlink && t == Bump(Bump(Erase(s, dp, n), dp, -1), ip, -1)
    requires Refs(s, ip) == {(dp, n)}
    requires s.nlink[ip] == 1 && s.nlink[dp] >= 2 && Names(s, ip, DOTDOT, dp)
    ensures CountAt(t, i)
  {
    assert CountAt(s, i) && EntryAt(s, ip, DOT);
    if i == ip {
      forall e, m ensures !Names(t, e, m, ip) { InRefs(s, e, m, ip); }
      assert Refs(t, ip) == {};
    }
    else if i == dp { RefsGrow(t, s, dp, ip, DOTDOT); }
    else { RefsSame(s, t, i); }
  }

  lemma UnlinkDirKeeps(s: Tree, dp: int, n: Name)
    requires Inv(s) && dp in s.dirs && !IsDot(n) && n in s.dirs[dp] && s.dirs[dp][n] in s.dirs
    requires Empty(s, s.dirs[dp][n])
    ensures s.dirs[dp][n] in s.nlink && s.nlink[s.dirs[dp][n]] == 1 && Inv(Unlink(s, dp, n))
  {
    var ip, t := s.dirs[dp][n], Unlink(s, dp, n);
    assert EntryAt(s, dp, n) && DirAt(s, dp) && DirAt(s, ip) && CountAt(s, ip) && CountAt(s, dp);
    assert ip != dp;
    ParentStaysLinked(s, dp, n);
    forall e, m ensures Names(s, e, m, ip) <==> (e, m) == (dp, n) { if Names(s, e, m, ip) { OneName(s, dp, n, e, m); } }
    assert Refs(s, ip) == {(dp, n)};
    forall i ensures CountAt(t, i) { UnlinkDirCounts(s, t, dp, n, ip, i); }
    ErasedKept(s, t, dp, n);
  }

  /** unlink keeps the counts whatever it is given, and never meets an inode with no links. */
  lemma UnlinkKeeps(s: Tree, dp: int, n: Name)
    requires Inv(s)
    ensures Inv(Unlink(s, dp, n))
    ensures dp in s.dirs && n in s.dirs[dp] && !IsDot(n) ==> s.dirs[dp][n] in s.nlink && s.nlink[s.dirs[dp][n]] >= 1
  {
    if dp in s.dirs && n in s.dirs[dp] && !IsDot(n) {
      var ip := s.dirs[dp][n];
      assert EntryAt(s, dp, n) && CountAt(s, ip);
      InRefs(s, dp, n, ip);
      if ip !in s.dirs { UnlinkFileKeeps(s, dp, n); } else if Empty(s, ip) { UnlinkDirKeeps(s, dp, n); }
    }
  }

  lemma ReclaimKeeps(s: Tree, i: int)
    requires Inv(s)
    ensures Inv(Reclaim(s, i))
  {
    if i in s.nlink && s.nlink[i] == 0 {
      var t := Reclaim(s, i);
      assert CountAt(s, i);
      forall d, n ensures !Names(s, d, n, i) { InRefs(s, d, n, i); }
      forall j ensures CountAt(t, j) { assert CountAt(s, j); RefsSame(s, t, j); }
      forall d, n ensures EntryAt(t, d, n) { assert EntryAt(s, d, n) && !Names(s, d, n, i); }
      forall d ensures DirAt(t, d) {
        assert DirAt(s, d);
        if d in t.dirs && Linked(t, d) && d != ROOTINO {
          var p := s.dirs[d][DOTDOT];
          var m :| p in s.dirs && m in s.dirs[p] && !IsDot(m) && s.dirs[p][m] == d;
          assert EntryAt(s, p, m);
          assert p in t.dirs && m in t.dirs[p] && t.dirs[p][m] == d;
        }
      }
      forall d, m, k ensures OnceAt(t, d, m, k) { assert OnceAt(s, d, m, k); }
    }
  }

  // ---------- When link and create keep the counts ----------

  predicate CanLink(s: Tree, ip: int, dp: int, n: Name) {
    ip in s.nlink && ip !in s.dirs && dp in s.dirs && n !in s.dirs[dp]
  }

  predicate CanCreate(s: Tree, dp: int, n: Name, i: int) {
    dp in s.dirs && dp in s.nlink && n !in s.dirs[dp] && i !in s.nlink && i !in s.dirs
  }

  /** A new link is counted exactly when the directory it goes into is itself still linked. */
  lemma LinkCountedIff(s: Tree, ip: int, dp: int, n: Name)
    requires Inv(s) && CanLink(s, ip, dp, n)
    ensures Counted(Link(s, ip, dp, n)) <==> Linked(s, dp)
    ensures Linked(s, dp) ==> Inv(Link(s, ip, dp, n))
  {
    if Linked(s, dp) { LinkKeeps(s, ip, dp, n); }
    else {
      var t := Link(s, ip, dp, n);
      RefsSame(s, t, ip);
      assert CountAt(s, ip) && !CountAt(t, ip);
    }
  }

  /** The same for a new file or device. */
  lemma CreateCountedIff(s: Tree, dp: int, n: Name, i: int)
    requires Inv(s) && CanCreate(s, dp, n, i)
    ensures Counted(Create(s, dp, n, false, i)) <==> Linked(s, dp)
    ensures Linked(s, dp) ==> Inv(Create(s, dp, n, false, i))
  {
    if Linked(s, dp) { NewFileKeeps(s, dp, n, i); }
    else {
      var t := Create(s, dp, n, false, i);
      forall d, m ensures !Names(t, d, m, i) { NobodyNames(s, i, d, m); }
      assert Refs(t, i) == {} && !CountAt(t, i);
    }
  }

  /** A new directory under an unlinked one makes that one look linked again, without a name. */
  lemma MkdirKeepsIff(s: Tree, dp: int, n: Name, i: int)
    requires Inv(s) && CanCreate(s, dp, n, i)
    ensures Inv(Create(s, dp, n, true, i)) <==> Linked(s, dp)
  {
    if Linked(s, dp) { NewDirKeeps(s, dp, n, i); }
    else {
      var t := Create(s, dp, n, true, i);
      assert CountAt(s, dp) && DirAt(s, dp) && Linked(t, dp);
      var p := t.dirs[dp][DOTDOT];
      forall m ensures !(p in t.dirs && m in t.dirs[p] && !IsDot(m) && t.dirs[p][m] == dp) {
        assert EntryAt(s, p, m);
        InRefs(s, p, m, dp);
      }
      assert !HasName(t, p, dp) && !DirAt(t, dp);
    }
  }

  // ---------- Runs ----------

  datatype Step =
    | SLink(ip: int, dp: int, n: Name)
    | SUnlink(dp: int, n: Name)
    | SCreate(dp: int, n: Name, dir: bool, i: int)
    | SReclaim(i: int)

  function Exec(s: Tree, a: Step): Tree {
    match a
    case SLink(ip, dp, n) => Link(s, ip, dp, n)
    case SUnlink(dp, n) => Unlink(s, dp, n)
    case SCreate(dp, n, dir, i) => Create(s, dp, n, dir, i)
    case SReclaim(i) => Reclaim(s, i)
  }

  // Nothing is made in a directory that has been removed.
  predicate InPlace(s: Tree, a: Step) {
    match a
    case SLink(ip, dp, n) => dp in s.dirs ==> Linked(s, dp)
    case SCreate(dp, n, dir, i) => dp in s.dirs ==> Linked(s, dp)
    case _ => true
  }

  ghost predicate RunsTo(s: Tree, run: seq<Step>, t: Tree)
    decreases |run|
  {
    if run == [] then t == s else InPlace(s, run[0]) && RunsTo(Exec(s, run[0]), run[1..], t)
  }

  lemma StepKeeps(s: Tree, a: Step)
    requires Inv(s) && InPlace(s, a)
    ensures Inv(Exec(s, a))
  {
    match a
    case SLink(ip, dp, n) => if CanLink(s, ip, dp, n) { LinkKeeps(s, ip, dp, n); }
    case SUnlink(dp, n) => UnlinkKeeps(s, dp, n);
    case SCreate(dp, n, dir, i) =>
      if CanCreate(s, dp, n, i) { if dir { NewDirKeeps(s, dp, n, i); } else { NewFileKeeps(s, dp, n, i); } }
    case SReclaim(i) => ReclaimKeeps(s, i);
  }

  // What mkfs writes before it adds files: the root directory, its own parent, with one link.
  function Fresh(): Tree { Tree(map[ROOTINO := 1], map[ROOTINO := map[DOT := ROOTINO, DOTDOT := ROOTINO]]) }

  lemma FreshIsGood()
    ensures Inv(Fresh())
  {
    var s := Fresh();
    assert DOT != DOTDOT;
    assert Refs(s, ROOTINO) == {(ROOTINO, DOTDOT)};
    forall i ensures CountAt(s, i) {}
    forall d, n ensures EntryAt(s, d, n) {}
    forall d ensures DirAt(s, d) {}
    forall d, n, m ensures OnceAt(s, d, n, m) {}
  }

  lemma {:induction false} RunKeeps(s: Tree, run: seq<Step>, t: Tree)
    requires Inv(s) && RunsTo(s, run, t)
    ensures Inv(t)
    decreases |run|
  {
    if run != [] {
      StepKeeps(s, run[0]);
      RunKeeps(Exec(s, run[0]), run[1..], t);
    }
  }

  /**
   After every run from a new file system in which nothing is made in a removed directory, every
   inode's nlink is the number of entries naming it in linked directories, its own "." aside.
   */
  lemma LinkCountsAreRight(run: seq<Step>, t: Tree, i: int)
    requires RunsTo(Fresh(), run, t) && i in t.nlink
    ensures t.nlink[i] == |Refs(t, i)|
  {
    FreshIsGood();
    RunKeeps(Fresh(), run, t);
    assert CountAt(t, i);
  }

  /** A directory that is removed while in use takes a file whose link nobody can find. */
  lemma RemovedDirectoryMiscounts()
    ensures var a := Create(Fresh(), ROOTINO, [97], true, 2);
      var b := Unlink(a, ROOTINO, [97]);
      var c := Create(b, 2, [120], false, 3);
      Inv(b) && 3 in c.nlink && c.nlink[3] == 1 && |Refs(c, 3)| == 0
  {
    FreshIsGood();
    var a := Create(Fresh(), ROOTINO, [97], true, 2);
    NewDirKeeps(Fresh(), ROOTINO, [97], 2);
    var b := Unlink(a, ROOTINO, [97]);
    assert a.dirs[ROOTINO][[97]] == 2 && Empty(a, 2);
    UnlinkDirKeeps(a, ROOTINO, [97]);
    assert 2 in b.dirs && !Linked(b, 2) && 3 !in b.nlink && [120] !in b.dirs[2];
    var c := Create(b, 2, [120], false, 3);
    forall d, m ensures !Names(c, d, m, 3) { NobodyNames(b, 3, d, m); }
    assert Refs(c, 3) == {};
  }
}
