/**
 A directory is a file of 16-byte entries: an inode number in two bytes, zero for a free entry, and
 a name of at most 14 bytes, padded with zeros. It stands for a finite map from names to inode numbers.
 */
module Directory {
  import opened FileBlocks

  const DIRSIZ := 14
  const DIRENT := 16

  // The bytes of a name, with neither terminator nor padding.
  type Name = seq<int>

  // At most n bytes of the C string s, up to its zero.
  function Cut(s: seq<int>, n: nat): Name {
    if n == 0 || s == [] || s[0] == 0 then [] else [s[0]] + Cut(s[1..], n - 1)
  }

  // What the file system sees of a name.
  function Key(s: seq<int>): Name { Cut(s, DIRSIZ) }

  const DOT: Name := [46]
  const DOTDOT: Name := [46, 46]

  predicate IsDot(n: Name) { n == DOT || n == DOTDOT }

  predicate Bytes(s: seq<int>) { forall k :: 0 <= k < |s| ==> 0 <= s[k] < 256 }

  // A C string ends with a zero.
  function Char(s: seq<int>, i: nat): int { if i < |s| then s[i] else 0 }

  // ---------- Comparing and storing names ----------

  /** Two names are the same when their first DIRSIZ bytes, up to a zero, are. */
  method Namecmp(s: seq<int>, t: seq<int>) returns (same: bool)
    ensures same == (Key(s) == Key(t))
  {
    var n, i := DIRSIZ, 0;
    while n > 0 && Char(s, i) != 0 && Char(s, i) == Char(t, i)
      invariant 0 <= n && i <= |s| && i <= |t| && (Key(s) == Key(t) <==> Cut(s[i..], n) == Cut(t[i..], n))
      decreases n
    {
      assert s[i..][1..] == s[i + 1..] && t[i..][1..] == t[i + 1..];
      CutStep(s[i..], t[i..], n);
      n, i := n - 1, i + 1;
    }
    same := n == 0 || Char(s, i) == Char(t, i);
    CutEnd(s[i..], t[i..], n);
  }

  lemma CutStep(s: seq<int>, t: seq<int>, n: nat)
    requires n > 0 && s != [] && t != [] && s[0] == t[0] && s[0] != 0
    ensures Cut(s, n) == Cut(t, n) <==> Cut(s[1..], n - 1) == Cut(t[1..], n - 1)
  {
    assert Cut(s, n)[1..] == Cut(s[1..], n - 1) && Cut(t, n)[1..] == Cut(t[1..], n - 1);
  }

  lemma CutEnd(s: seq<int>, t: seq<int>, n: nat)
    requires n > 0 ==> Char(s, 0) == 0 || Char(s, 0) != Char(t, 0)
    ensures Cut(s, n) == Cut(t, n) <==> n == 0 || Char(s, 0) == Char(t, 0)
  {
    if n > 0 && Char(s, 0) != Char(t, 0) {
      assert Char(s, 0) != 0 ==> Cut(s, n)[0] == Char(s, 0);
      assert Char(t, 0) != 0 ==> Cut(t, n)[0] == Char(t, 0);
    }
  }

  lemma {:induction false} CutPadded(x: Name, z: seq<int>, n: nat)
    requires |x| <= n && (forall k :: 0 <= k < |x| ==> x[k] != 0) && (forall k :: 0 <= k < |z| ==> z[k] == 0)
    ensures Cut(x + z, n) == x
    decreases n
  {
    if x != [] {
      assert (x + z)[1..] == x[1..] + z;
      CutPadded(x[1..], z, n - 1);
    }
  }

  /** strncpy into a name field: the name comes back from the field whatever its length. */
  method Strncpy(t: seq<int>, n: nat) returns (s: seq<int>)
    requires forall k :: 0 <= k < |t| ==> 0 <= t[k] < 256
    ensures |s| == n && Cut(s, n) == Cut(t, n) && forall k :: 0 <= k < |s| ==> 0 <= s[k] < 256
  {
    s := [];
    while |s| < n && Char(t, |s|) != 0
      invariant |s| <= n && |s| <= |t| && s == t[..|s|] && forall k :: 0 <= k < |s| ==> s[k] != 0
    {
      s := s + [Char(t, |s|)];
    }
    ghost var x := s;
    while |s| < n
      invariant |x| <= |s| <= n && s[..|x|] == x && forall k :: |x| <= k < |s| ==> s[k] == 0
    {
      s := s + [0];
    }
    CutPadded(x, s[|x|..], n);
    assert x + s[|x|..] == s;
    CutPrefix(t, |x|, n);
  }

  lemma {:induction false} CutPrefix(t: seq<int>, m: nat, n: nat)
    requires m <= n && m <= |t| && (forall k :: 0 <= k < m ==> t[k] != 0) && (m == n || Char(t, m) == 0)
    ensures Cut(t, n) == t[..m]
    decreases m
  {
    if m > 0 {
      CutPrefix(t[1..], m - 1, n - 1);
      assert t[..m] == [t[0]] + t[1..][..m - 1];
    }
  }

  // ---------- Entries ----------

  function Slots(c: seq<int>): nat { |c| / DIRENT }

  predicate IsDir(c: seq<int>) { |c| % DIRENT == 0 && forall p :: 0 <= p < |c| ==> 0 <= c[p] < 256 }

  function Inum(c: seq<int>, k: nat): int
    requires k < Slots(c)
  {
    c[DIRENT * k] + 256 * c[DIRENT * k + 1]
  }

  function NameAt(c: seq<int>, k: nat): Name
    requires k < Slots(c)
  {
    Key(c[DIRENT * k + 2..DIRENT * k + DIRENT])
  }

  predicate Used(c: seq<int>, k: nat) { k < Slots(c) && Inum(c, k) != 0 }

  predicate ApartAt(c: seq<int>, j: nat, k: nat) { j < k && Used(c, j) && Used(c, k) ==> NameAt(c, j) != NameAt(c, k) }

  // No name twice.
  ghost predicate NoDup(c: seq<int>) { forall j, k {:trigger ApartAt(c, j, k)} :: ApartAt(c, j, k) }

  function MapTo(c: seq<int>, n: nat): map<Name, int>
    requires n <= Slots(c)
  {
    if n == 0 then map[]
    else if Used(c, n - 1) then MapTo(c, n - 1)[NameAt(c, n - 1) := Inum(c, n - 1)]
    else MapTo(c, n - 1)
  }

  // The directory as a map.
  function AsMap(c: seq<int>): map<Name, int> { MapTo(c, Slots(c)) }

  lemma {:induction false} MapHas(c: seq<int>, n: nat, k: nat)
    requires n <= Slots(c) && NoDup(c) && k < n && Used(c, k)
    ensures NameAt(c, k) in MapTo(c, n) && MapTo(c, n)[NameAt(c, k)] == Inum(c, k)
    decreases n
  {
    if k < n - 1 {
      MapHas(c, n - 1, k);
      assert ApartAt(c, k, n - 1);
    }
  }

  lemma {:induction false} MapOnly(c: seq<int>, n: nat, x: Name) returns (k: nat)
    requires n <= Slots(c) && x in MapTo(c, n)
    ensures k < n && Used(c, k) && NameAt(c, k) == x && MapTo(c, n)[x] == Inum(c, k)
    decreases n
  {
    if Used(c, n - 1) && NameAt(c, n - 1) == x { k := n - 1; } else { k := MapOnly(c, n - 1, x); }
  }

  // The 16 bytes of an entry.
  predicate IsEntry(e: seq<int>) { |e| == DIRENT && forall p :: 0 <= p < DIRENT ==> 0 <= e[p] < 256 }

  lemma EntryAfter(c: seq<int>, k: nat, e: seq<int>, j: nat)
    requires IsDir(c) && IsEntry(e) && k <= Slots(c) && j <= Slots(c)
    ensures var c' := Overwrite(c, DIRENT * k, e);
      && IsDir(c') && Slots(c') == (if k < Slots(c) then Slots(c) else k + 1)
      && (j < Slots(c') ==>
            && Inum(c', j) == (if j == k then e[0] + 256 * e[1] else Inum(c, j))
            && NameAt(c', j) == (if j == k then Key(e[2..]) else NameAt(c, j)))
  {
    var c' := Overwrite(c, DIRENT * k, e);
    assert forall p :: 0 <= p < |c'| ==>
      c'[p] == if DIRENT * k <= p < DIRENT * k + DIRENT then e[p - DIRENT * k] else c[p];
    if j < Slots(c') {
      var name := c'[DIRENT * j + 2..DIRENT * j + DIRENT];
      if j == k { assert name == e[2..]; } else { assert name == c[DIRENT * j + 2..DIRENT * j + DIRENT]; }
    }
  }

  predicate PlacedAt(c: seq<int>, c': seq<int>, k: nat, x: Name, inum: int, j: nat) {
    j < Slots(c') ==>
      if j == k then Inum(c', j) == inum && NameAt(c', j) == x
      else j < Slots(c) && Inum(c', j) == Inum(c, j) && NameAt(c', j) == NameAt(c, j)
  }

  // c' is c with entry k, one of its own or the next, replaced.
  ghost predicate Placed(c: seq<int>, c': seq<int>, k: nat, x: Name, inum: int) {
    && k <= Slots(c) && Slots(c') == (if k < Slots(c) then Slots(c) else k + 1)
    && forall j: nat {:trigger PlacedAt(c, c', k, x, inum, j)} :: PlacedAt(c, c', k, x, inum, j)
  }

  lemma OverwritePlaces(c: seq<int>, k: nat, e: seq<int>)
    requires IsDir(c) && IsEntry(e) && k <= Slots(c)
    ensures Placed(c, Overwrite(c, DIRENT * k, e), k, Key(e[2..]), e[0] + 256 * e[1])
  {
    var c', x, inum := Overwrite(c, DIRENT * k, e), Key(e[2..]), e[0] + 256 * e[1];
    EntryAfter(c, k, e, k);
    forall j: nat ensures PlacedAt(c, c', k, x, inum, j) { if j <= Slots(c) { EntryAfter(c, k, e, j); } }
  }

  // Every directory starts with its "." and "..".
  predicate DotsFirst(c: seq<int>) { Used(c, 0) && Used(c, 1) && NameAt(c, 0) == DOT && NameAt(c, 1) == DOTDOT }

  // The entries dirlink and unlink write are not among those two.
  lemma DotsStay(c: seq<int>, c': seq<int>, k: nat, x: Name, inum: int)
    requires DotsFirst(c) && Placed(c, c', k, x, inum) && k >= 2
    ensures DotsFirst(c')
  {
    assert PlacedAt(c, c', k, x, inum, 0) && PlacedAt(c, c', k, x, inum, 1);
  }

  // A new directory's first two entries.
  lemma DotsMade(c: seq<int>, c': seq<int>, i: int, dp: int)
    requires Placed([], c, 0, DOT, i) && Placed(c, c', 1, DOTDOT, dp) && i != 0 && dp != 0
    ensures DotsFirst(c')
  {
    assert PlacedAt([], c, 0, DOT, i, 0) && PlacedAt(c, c', 1, DOTDOT, dp, 0) && PlacedAt(c, c', 1, DOTDOT, dp, 1);
  }

  /** What isdirempty tests, entries after the first two, is what it means: only "." and ".." are there. */
  lemma EmptyIffOnlyDots(c: seq<int>)
    requires NoDup(c) && DotsFirst(c)
    ensures (forall k: nat :: 2 <= k < Slots(c) ==> !Used(c, k)) <==> (forall n :: n in AsMap(c) ==> IsDot(n))
  {
    if forall k: nat :: 2 <= k < Slots(c) ==> !Used(c, k) {
      forall n | n in AsMap(c) ensures IsDot(n) { var k := MapOnly(c, Slots(c), n); }
    }
    forall k: nat | 2 <= k < Slots(c) && Used(c, k) ensures NameAt(c, k) in AsMap(c) && !IsDot(NameAt(c, k)) {
      MapHas(c, Slots(c), k);
      assert ApartAt(c, 0, k) && ApartAt(c, 1, k);
    }
  }

  /** dirlink's write, in a free entry or at the end, adds one name to the map. */
  lemma LinkAdds(c: seq<int>, k: nat, e: seq<int>)
    requires IsDir(c) && NoDup(c) && IsEntry(e) && k <= Slots(c) && !Used(c, k)
    requires e[0] + 256 * e[1] != 0 && Key(e[2..]) !in AsMap(c)
    ensures var c' := Overwrite(c, DIRENT * k, e);
      IsDir(c') && NoDup(c') && AsMap(c') == AsMap(c)[Key(e[2..]) := e[0] + 256 * e[1]]
  {
    var c', x := Overwrite(c, DIRENT * k, e), Key(e[2..]);
    EntryAfter(c, k, e, k);
    forall i, j ensures ApartAt(c', i, j) {
      if i < j && Used(c', i) && Used(c', j) {
        EntryAfter(c, k, e, i);
        EntryAfter(c, k, e, j);
        assert ApartAt(c, i, j);
        if i == k { MapHas(c, Slots(c), j); }
        if j == k { MapHas(c, Slots(c), i); }
      }
    }
    var want := AsMap(c)[x := e[0] + 256 * e[1]];
    forall y ensures y in AsMap(c') <==> y in want {
      if y in AsMap(c') {
        var j := MapOnly(c', Slots(c'), y);
        EntryAfter(c, k, e, j);
        if j != k { MapHas(c, Slots(c), j); }
      }
      if y in want && y != x {
        var j := MapOnly(c, Slots(c), y);
        EntryAfter(c, k, e, j);
        MapHas(c', Slots(c'), j);
      }
      if y == x { MapHas(c', Slots(c'), k); }
    }
    forall y | y in AsMap(c') ensures AsMap(c')[y] == want[y] {
      var j := MapOnly(c', Slots(c'), y);
      EntryAfter(c, k, e, j);
      if j != k { MapHas(c, Slots(c), j); }
    }
  }

  /** unlink's write of a zero entry takes exactly that name out of the map. */
  lemma UnlinkRemoves(c: seq<int>, k: nat, e: seq<int>)
    requires IsDir(c) && NoDup(c) && IsEntry(e) && e[0] == 0 && e[1] == 0 && Used(c, k)
    ensures var c' := Overwrite(c, DIRENT * k, e);
      IsDir(c') && NoDup(c') && AsMap(c') == AsMap(c) - {NameAt(c, k)}
  {
    var c', x := Overwrite(c, DIRENT * k, e), NameAt(c, k);
    EntryAfter(c, k, e, k);
    forall i, j ensures ApartAt(c', i, j) {
      if i < j && Used(c', i) && Used(c', j) {
        EntryAfter(c, k, e, i);
        EntryAfter(c, k, e, j);
        assert ApartAt(c, i, j);
      }
    }
    forall y | y in AsMap(c') ensures y in AsMap(c) && y != x && AsMap(c')[y] == AsMap(c)[y] {
      var j := MapOnly(c', Slots(c'), y);
      EntryAfter(c, k, e, j);
      MapHas(c, Slots(c), j);
      assert ApartAt(c, j, k) && ApartAt(c, k, j);
    }
    forall y | y in AsMap(c) && y != x ensures y in AsMap(c') {
      var j := MapOnly(c, Slots(c), y);
      EntryAfter(c, k, e, j);
      MapHas(c', Slots(c'), j);
    }
  }
}
