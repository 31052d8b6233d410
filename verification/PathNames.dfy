/** Path names: skipelem takes a path apart, namex follows it through the directories. */
module PathNames {
  import opened FileBlocks
  import opened Directory
  import opened DirectoryOps
  import opened FileSystem

  const SLASH := 47

  // ---------- The components of a path ----------

  // The pieces between slashes, empty ones included.
  function Split(s: seq<int>): (r: seq<seq<int>>)
    ensures r != []
  {
    if s == [] then [[]]
    else if s[0] == SLASH then [[]] + Split(s[1..])
    else
      var r := Split(s[1..]);
      [[s[0]] + r[0]] + r[1..]
  }

  // The non-empty pieces, each cut to what a directory can hold.
  function Keep(ps: seq<seq<int>>): seq<Name> {
    if ps == [] then [] else (if ps[0] == [] then [] else [Key(ps[0])]) + Keep(ps[1..])
  }

  function Components(path: seq<int>): seq<Name> { Keep(Split(path)) }

  predicate Starts(s: seq<int>) { s == [] || s[0] == SLASH }

  lemma SlashSkipped(s: seq<int>)
    requires s != [] && s[0] == SLASH
    ensures Components(s) == Components(s[1..])
  {
    assert ([[]] + Split(s[1..]))[1..] == Split(s[1..]);
  }

  lemma {:induction false} SplitWord(w: seq<int>, rest: seq<int>)
    requires Starts(rest) && SLASH !in w
    ensures Split(w + rest) == [w] + Split(rest)[1..]
    decreases |w|
  {
    if w == [] {
      assert w + rest == rest && Split(rest) == [[]] + Split(rest)[1..];
    } else {
      SplitWord(w[1..], rest);
      assert (w + rest)[1..] == w[1..] + rest;
      assert [w[0]] + w[1..] == w;
      var r := Split(w[1..] + rest);
      assert r[1..] == Split(rest)[1..];
    }
  }

  // A word and what follows it: the word is the first component.
  lemma WordFirst(w: seq<int>, rest: seq<int>)
    requires w != [] && Starts(rest) && SLASH !in w
    ensures Components(w + rest) == [Key(w)] + Components(rest)
  {
    SplitWord(w, rest);
    var tail := Split(rest)[1..];
    assert ([w] + tail)[1..] == tail;
    assert Split(rest)[0] == [];
  }

  // ---------- skipelem ----------

  // Past the slashes at p.
  method SkipSlashes(path: seq<int>, p: nat) returns (q: nat)
    requires p <= |path|
    ensures p <= q <= |path| && (q < |path| ==> path[q] != SLASH) && Components(path[q..]) == Components(path[p..])
  {
    q := p;
    while q < |path| && path[q] == SLASH
      invariant p <= q <= |path| && Components(path[q..]) == Components(path[p..])
    {
      SlashSkipped(path[q..]);
      assert path[q..][1..] == path[q + 1..];
      q := q + 1;
    }
  }

  method WordFrom(path: seq<int>, p: nat) returns (q: nat)
    requires p <= |path|
    ensures p <= q <= |path| && Starts(path[q..]) && SLASH !in path[p..q]
  {
    q := p;
    while q < |path| && path[q] != SLASH
      invariant p <= q <= |path| && SLASH !in path[p..q]
    {
      q := q + 1;
    }
  }

  // The element goes to the buffer, with a zero after it when it is shorter than the buffer.
  method CopyName(s: seq<int>, name: array<int>)
    requires name.Length == DIRSIZ && forall k :: 0 <= k < |s| ==> s[k] != 0
    modifies name
    ensures Key(name[..]) == Key(s) && (Bytes(s) && old(Bytes(name[..])) ==> Bytes(name[..]))
  {
    var len := if |s| >= DIRSIZ then DIRSIZ else |s|;
    var i := 0;
    while i < len
      invariant 0 <= i <= len && name[..i] == s[..i] && (Bytes(s) && old(Bytes(name[..])) ==> Bytes(name[..]))
    {
      name[i] := s[i];
      i := i + 1;
    }
    if len < DIRSIZ {
      name[len] := 0;
    }
    CutPrefix(s, len, DIRSIZ);
    assert name[..len] == s[..len];
    assert forall k :: 0 <= k < len ==> name[..][k] == s[..len][k];
    CutPrefix(name[..], len, DIRSIZ);
    assert name[..][..len] == s[..len];
  }

  lemma WordTaken(path: seq<int>, s: nat, e: nat)
    requires s <= e <= |path| && s < |path| && path[s] != SLASH && Starts(path[e..]) && SLASH !in path[s..e]
    ensures s < e && Components(path[s..]) == [Key(path[s..e])] + Components(path[e..])
  {
    assert path[s..] == path[s..e] + path[e..];
    WordFirst(path[s..e], path[e..]);
  }

  /** One call of skipelem takes the first component off the path. */
  method Skipelem(path: seq<int>, p: nat, name: array<int>) returns (found: bool, next: nat)
    requires p <= |path| && name.Length == DIRSIZ && 0 !in path
    modifies name
    ensures !found ==> Components(path[p..]) == [] && name[..] == old(name[..])
    ensures found ==> p < next <= |path| && Components(path[p..]) == [Key(name[..])] + Components(path[next..])
    ensures found ==> (next == |path| <==> Components(path[next..]) == [])
    ensures Bytes(path) && old(Bytes(name[..])) ==> Bytes(name[..])
  {
    var s := SkipSlashes(path, p);
    if s == |path| {
      assert path[s..] == [];
      return false, s;
    }
    var e := WordFrom(path, s);
    WordTaken(path, s, e);
    CopyName(path[s..e], name);
    next := SkipSlashes(path, e);
    found := true;
    NothingLeft(path[next..]);
  }

  // With no slash in front, no components means no path.
  lemma NothingLeft(s: seq<int>)
    requires s == [] || s[0] != SLASH
    ensures Components(s) == [] <==> s == []
  {
    if s != [] {
      var r := Split(s);
      assert r[0] != [] && Components(s) == [Key(r[0])] + Keep(r[1..]);
    }
  }

  // ---------- namex ----------

  datatype Option<T> = None | Some(value: T)

  // Directories by inode number.
  type Tree = map<int, map<Name, int>>

  // Lookup after lookup, from inode i.
  function Walk(t: Tree, i: int, xs: seq<Name>): Option<int>
    decreases |xs|
  {
    if xs == [] then Some(i)
    else if i !in t || xs[0] !in t[i] then None
    else Walk(t, t[i][xs[0]], xs[1..])
  }

  // The directory that holds the last component.
  function WalkParent(t: Tree, i: int, xs: seq<Name>): Option<int> {
    if xs == [] then None
    else
      match Walk(t, i, xs[..|xs| - 1])
      case None => None
      case Some(d) => if d in t then Some(d) else None
  }

  /** A path leads where its last component is found in the directory that the rest of it leads to. */
  lemma {:induction false} WalkLast(t: Tree, i: int, xs: seq<Name>, x: Name)
    ensures Walk(t, i, []) == Some(i) && WalkParent(t, i, []) == None
    ensures var d := Walk(t, i, xs);
      && WalkParent(t, i, xs + [x]) == (if d.Some? && d.value in t then d else None)
      && Walk(t, i, xs + [x]) == (if d.Some? && d.value in t && x in t[d.value] then Some(t[d.value][x]) else None)
    decreases |xs|
  {
    var all := xs + [x];
    assert all[..|all| - 1] == xs;
    if xs == [] {
      assert all[1..] == [];
    } else if i in t && xs[0] in t[i] {
      assert all[1..] == xs[1..] + [x];
      WalkLast(t, t[i][xs[0]], xs[1..], x);
      ParentStep(t, i, all);
    }
  }

  lemma ParentStep(t: Tree, i: int, xs: seq<Name>)
    requires |xs| > 1 && i in t && xs[0] in t[i]
    ensures WalkParent(t, i, xs) == WalkParent(t, t[i][xs[0]], xs[1..])
  {
    var front, tail := xs[..|xs| - 1], xs[1..];
    assert front[0] == xs[0] && front[1..] == tail[..|tail| - 1];
  }

  lemma ParentFails(t: Tree, i: int, xs: seq<Name>)
    requires xs != [] && (i !in t || (|xs| > 1 && xs[0] !in t[i]))
    ensures WalkParent(t, i, xs) == None
  {
    var front := xs[..|xs| - 1];
    if |xs| > 1 { assert front[0] == xs[0]; }
  }

  // namex locks the inode it is at before every component: does it come to lock one that is free?
  predicate LocksFree(t: Tree, alloc: set<int>, i: int, xs: seq<Name>)
    decreases |xs|
  {
    xs != [] && (i !in alloc || (i in t && xs[0] in t[i] && LocksFree(t, alloc, t[i][xs[0]], xs[1..])))
  }

  // A part of the path, short of all of it, leads to a free inode.
  predicate LeadsToFree(t: Tree, alloc: set<int>, i: int, xs: seq<Name>, k: int) {
    0 <= k < |xs| && Walk(t, i, xs[..k]).Some? && Walk(t, i, xs[..k]).value !in alloc
  }

  /** Which it does exactly when some part of the path leads to one. */
  lemma {:induction false} LocksFreeIff(t: Tree, alloc: set<int>, i: int, xs: seq<Name>)
    requires t.Keys <= alloc
    ensures LocksFree(t, alloc, i, xs) <==> exists k :: LeadsToFree(t, alloc, i, xs, k)
    decreases |xs|
  {
    if xs != [] {
      assert xs[..0] == [];
      if i !in alloc {
        assert LeadsToFree(t, alloc, i, xs, 0);
      } else if i in t && xs[0] in t[i] {
        var e, rest := t[i][xs[0]], xs[1..];
        LocksFreeIff(t, alloc, e, rest);
        forall k | 0 <= k < |rest| ensures LeadsToFree(t, alloc, e, rest, k) == LeadsToFree(t, alloc, i, xs, k + 1) {
          OneOn(t, i, xs, k);
        }
        if k :| LeadsToFree(t, alloc, e, rest, k) { assert LeadsToFree(t, alloc, i, xs, k + 1); }
        if k :| LeadsToFree(t, alloc, i, xs, k) { assert LeadsToFree(t, alloc, e, rest, k - 1); }
      } else {
        forall k ensures !LeadsToFree(t, alloc, i, xs, k) { if 0 < k < |xs| { assert xs[..k][0] == xs[0]; } }
      }
    }
  }

  lemma OneOn(t: Tree, i: int, xs: seq<Name>, k: nat)
    requires k < |xs| - 1 && i in t && xs[0] in t[i]
    ensures Walk(t, i, xs[..k + 1]) == Walk(t, t[i][xs[0]], xs[1..][..k])
  {
    assert xs[..k + 1][0] == xs[0] && xs[..k + 1][1..] == xs[1..][..k];
  }

  lemma LocksFreeStep(t: Tree, alloc: set<int>, i: int, x: Name, rest: seq<Name>)
    ensures LocksFree(t, alloc, i, [x] + rest) <==>
      i !in alloc || (i in t && x in t[i] && LocksFree(t, alloc, t[i][x], rest))
  {
    assert ([x] + rest)[1..] == rest;
  }

  ghost predicate FollowsAt(t: Tree, i: int, xs: seq<Name>, start: int, all: seq<Name>, z: int) {
    && Walk(t, i, xs) == Walk(t, start, all)
    && (xs != [] ==> WalkParent(t, i, xs) == WalkParent(t, start, all) && all != [] && xs[|xs| - 1] == all[|all| - 1])
  }

  // namex, which started at start with the components all, is at i with xs still to go; quantified over
  // an unused z so that the verifier unfolds it only where asked to.
  ghost predicate Follows(t: Tree, i: int, xs: seq<Name>, start: int, all: seq<Name>) {
    forall z {:trigger FollowsAt(t, i, xs, start, all, z)} :: FollowsAt(t, i, xs, start, all, z)
  }

  lemma NextStep(t: Tree, i: int, x: Name, rest: seq<Name>, start: int, all: seq<Name>)
    requires Follows(t, i, [x] + rest, start, all) && i in t && x in t[i]
    ensures Follows(t, t[i][x], rest, start, all)
  {
    var xs := [x] + rest;
    assert FollowsAt(t, i, xs, start, all, 0) && xs[1..] == rest;
    if rest != [] { ParentStep(t, i, xs); }
  }

  lemma LookupFails(t: Tree, i: int, x: Name, rest: seq<Name>, start: int, all: seq<Name>)
    requires Follows(t, i, [x] + rest, start, all) && (i !in t || x !in t[i])
    ensures Walk(t, start, all) == None && (i !in t || rest != [] ==> WalkParent(t, start, all) == None)
  {
    var xs := [x] + rest;
    assert FollowsAt(t, i, xs, start, all, 0);
    if i !in t || rest != [] { ParentFails(t, i, xs); }
  }

  lemma StopsAtParent(t: Tree, i: int, x: Name, start: int, all: seq<Name>)
    requires Follows(t, i, [x] + [], start, all) && i in t
    ensures WalkParent(t, start, all) == Some(i) && all != [] && all[|all| - 1] == x
  {
    var xs := [x] + [];
    assert FollowsAt(t, i, xs, start, all, 0) && xs[..|xs| - 1] == [];
  }

  ghost function TreeOf(cs: map<int, seq<int>>): Tree { map d | d in cs :: AsMap(cs[d]) }

  // The directories of the file system are the keys of cs, with those bytes.
  ghost predicate Holds(f: Files, bm: seq<bv8>, reserved: set<int>, cs: map<int, seq<int>>) {
    forall d {:trigger HasDir(f, bm, reserved, d, cs[d])} :: d in cs ==> HasDir(f, bm, reserved, d, cs[d])
  }

  /**
   namex: the lookups along the components, or for nameiparent those along all but the last, which is
   left in name; a panic exactly when it comes to lock a free inode. alloc tells the inodes with a
   type, isDir the directories among them.
   */
  method Namex(fs: Fs, alloc: set<int>, isDir: set<int>, root: int, cwd: int, path: seq<int>, parent: bool,
               name: array<int>, ghost cs: map<int, seq<int>>)
    returns (r: Outcome)
    requires name.Length == DIRSIZ && 0 !in path && cs.Keys == isDir && Holds(fs.Now(), fs.bitmap, fs.reserved, cs)
    modifies fs, name
    ensures fs.Now() == old(fs.Now()) && fs.bitmap == old(fs.bitmap)
    ensures var start, xs := if path != [] && path[0] == SLASH then root else cwd, Components(path);
      var want := if parent then WalkParent(TreeOf(cs), start, xs) else Walk(TreeOf(cs), start, xs);
      && (r.Panicked? <==> LocksFree(TreeOf(cs), alloc, start, xs))
      && (!r.Panicked? ==> want == (if r.Done? then Some(r.n) else None))
        && (parent && r.Done? ==> Key(name[..]) == xs[|xs| - 1])
    ensures Bytes(path) && old(Bytes(name[..])) ==> Bytes(name[..])
  {
    ghost var t := TreeOf(cs);
    var ip := if path != [] && path[0] == SLASH then root else cwd;
    ghost var start, all := ip, Components(path);
    var p := 0;
    assert path[0..] == path;
    var more, next := Skipelem(path, p, name);
    while more
      invariant p <= |path| && fs.Now() == old(fs.Now()) && fs.bitmap == old(fs.bitmap)
      invariant Bytes(path) && old(Bytes(name[..])) ==> Bytes(name[..])
      invariant Follows(t, ip, Components(path[p..]), start, all)
      invariant LocksFree(t, alloc, ip, Components(path[p..])) == LocksFree(t, alloc, start, all)
      invariant more ==> p < next <= |path| && Components(path[p..]) == [Key(name[..])] + Components(path[next..])
      invariant more ==> (next == |path| <==> Components(path[next..]) == [])
      invariant !more ==> Components(path[p..]) == []
      invariant Components(path[p..]) == [] && parent ==> all == []
      decreases |path| - p, more
    {
      ghost var x, rest := Key(name[..]), Components(path[next..]);
      LocksFreeStep(t, alloc, ip, x, rest);
      if ip !in alloc {
        return Panicked; // "ilock: no type"
      }
      if ip !in isDir {
        LookupFails(t, ip, x, rest, start, all);
        return Refused;
      }
      if parent && next == |path| {
        StopsAtParent(t, ip, x, start, all);
        return Done(ip);
      }
      var hit, _, inum := Dirlookup(fs, ip, name[..], cs[ip]);
      if !hit {
        LookupFails(t, ip, x, rest, start, all);
        return Refused;
      }
      NextStep(t, ip, x, rest, start, all);
      ip, p := inum, next;
      more, next := Skipelem(path, p, name);
    }
    assert FollowsAt(t, ip, [], start, all, 0);
    r := if parent then Refused else Done(ip);
  }
}
