/** The free-block bitmap of fs.c: one bit a block, eight to a byte, BPB to a bitmap block. */
module Bitmap {

  const BPB := 512 * 8

  // 1 << k
  function Mask(k: int): bv8
    requires 0 <= k < 8
  {
    if k == 0 then 1 else if k == 1 then 2 else if k == 2 then 4 else if k == 3 then 8
    else if k == 4 then 16 else if k == 5 then 32 else if k == 6 then 64 else 128
  }

  predicate Has(x: bv8, k: int)
    requires 0 <= k < 8
  {
    x & Mask(k) != 0
  }

  function With(x: bv8, k: int): bv8
    requires 0 <= k < 8
  {
    x | Mask(k)
  }

  function Without(x: bv8, k: int): bv8
    requires 0 <= k < 8
  {
    x & !Mask(k)
  }

  lemma MaskLaws(x: bv8, k: int, j: int)
    requires 0 <= k < 8 && 0 <= j < 8
    ensures Has(With(x, k), j) == (j == k || Has(x, j))
    ensures Has(Without(x, k), j) == (j != k && Has(x, j))
  {
    if j == k { Own(x, k); } else { Apart(x, k, j); }
  }

  lemma Own(x: bv8, k: int)
    requires 0 <= k < 8
    ensures (x | Mask(k)) & Mask(k) != 0 && (x & !Mask(k)) & Mask(k) == 0
  {
  }

  lemma Apart(x: bv8, k: int, j: int)
    requires 0 <= k < 8 && 0 <= j < 8 && j != k
    ensures (x | Mask(k)) & Mask(j) == x & Mask(j) && (x & !Mask(k)) & Mask(j) == x & Mask(j)
  {
  }

  // Bit b of the bitmap: is block b in use?
  predicate Bit(bm: seq<bv8>, b: int)
    requires 0 <= b < 8 * |bm|
  {
    Has(bm[b / 8], b % 8)
  }

  function SetBit(bm: seq<bv8>, b: int): seq<bv8>
    requires 0 <= b < 8 * |bm|
  {
    bm[b / 8 := With(bm[b / 8], b % 8)]
  }

  function ClearBit(bm: seq<bv8>, b: int): seq<bv8>
    requires 0 <= b < 8 * |bm|
  {
    bm[b / 8 := Without(bm[b / 8], b % 8)]
  }

  lemma SetBitSets(bm: seq<bv8>, b: int, c: int)
    requires 0 <= b < 8 * |bm| && 0 <= c < 8 * |bm|
    ensures Bit(SetBit(bm, b), c) == (c == b || Bit(bm, c))
  {
    if c / 8 == b / 8 { MaskLaws(bm[b / 8], b % 8, c % 8); }
  }

  lemma ClearBitClears(bm: seq<bv8>, b: int, c: int)
    requires 0 <= b < 8 * |bm| && 0 <= c < 8 * |bm|
    ensures Bit(ClearBit(bm, b), c) == (c != b && Bit(bm, c))
  {
    if c / 8 == b / 8 { MaskLaws(bm[b / 8], b % 8, c % 8); }
  }

  predicate UsedAt(bm: seq<bv8>, b: int) {
    0 <= b < 8 * |bm| ==> Bit(bm, b)
  }

  ghost predicate AllUsed(bm: seq<bv8>, n: int) {
    forall b {:trigger UsedAt(bm, b)} :: 0 <= b < n ==> UsedAt(bm, b)
  }

  lemma OneMoreUsed(bm: seq<bv8>, n: int)
    requires AllUsed(bm, n) && UsedAt(bm, n)
    ensures AllUsed(bm, n + 1)
  {
  }

  lemma ScanAddress(b: int, bi: int)
    requires 0 <= b && 0 <= bi && b % BPB == 0
    ensures (b + bi) / 8 == b / 8 + bi / 8 && (b + bi) % 8 == bi % 8
  {
  }

  // One bitmap block of balloc's scan.
  method ScanBlock(bm: seq<bv8>, size: int, b: int) returns (found: bool, r: int)
    requires 0 <= b < size <= 8 * |bm| && b % BPB == 0 && AllUsed(bm, b)
    ensures found ==> 0 <= r < size && !Bit(bm, r) && AllUsed(bm, r)
    ensures !found ==> AllUsed(bm, if b + BPB < size then b + BPB else size)
  {
    var bi := 0;
    while bi < BPB && b + bi < size
      invariant 0 <= bi <= BPB && b + bi <= size && AllUsed(bm, b + bi)
    {
      ScanAddress(b, bi);
      if !Has(bm[b / 8 + bi / 8], bi % 8) {
        return true, b + bi;
      }
      OneMoreUsed(bm, b + bi);
      bi := bi + 1;
    }
    return false, 0;
  }

  /** The scan of balloc, bitmap block by bitmap block: the lowest free block, or none. */
  method FindFree(bm: seq<bv8>, size: int) returns (found: bool, r: int)
    requires 0 <= size <= 8 * |bm|
    ensures found ==> 0 <= r < size && !Bit(bm, r) && AllUsed(bm, r)
    ensures !found ==> AllUsed(bm, size)
  {
    found, r := false, 0;
    var b := 0;
    while b < size
      invariant 0 <= b && b % BPB == 0 && AllUsed(bm, if b < size then b else size)
      decreases size - b
    {
      found, r := ScanBlock(bm, size, b);
      if found { return; }
      b := b + BPB;
    }
    found := false;
  }

  // Where bfree finds bit b: byte (b % BPB) / 8 of bitmap block b / BPB is byte b / 8 of the whole map.
  method Locate(b: int) returns (at: int, k: int)
    requires 0 <= b
    ensures at == b / 8 && k == b % 8
  {
    var bi := b % BPB;
    at, k := b / BPB * (BPB / 8) + bi / 8, bi % 8;
  }

  // The map with one bit cleared.
  ghost predicate Cleared(bm: seq<bv8>, r: seq<bv8>, b: int) {
    |r| == |bm| && forall c {:trigger Bit(r, c)} :: 0 <= c < 8 * |r| ==> Bit(r, c) == (Bit(bm, c) && c != b)
  }

  lemma ClearBitCleared(bm: seq<bv8>, b: int)
    requires 0 <= b < 8 * |bm|
    ensures Cleared(bm, ClearBit(bm, b), b)
  {
    var r := ClearBit(bm, b);
    forall c | 0 <= c < 8 * |r| ensures Bit(r, c) == (Bit(bm, c) && c != b) { ClearBitClears(bm, b, c); }
  }

  lemma AlreadyClear(bm: seq<bv8>, b: int)
    requires 0 <= b < 8 * |bm| && !Bit(bm, b)
    ensures Cleared(bm, bm, b)
  {
  }

  /** The byte work of bfree: one bit is cleared, if it was set, and no other changes. */
  method FreeBit(bm: seq<bv8>, b: int) returns (ok: bool, r: seq<bv8>)
    requires 0 <= b < 8 * |bm|
    ensures ok == Bit(bm, b) && Cleared(bm, r, b)
  {
    var at, k := Locate(b);
    if !Has(bm[at], k) {
      AlreadyClear(bm, b);
      return false, bm;
    }
    ClearBitCleared(bm, b);
    ok, r := true, bm[at := Without(bm[at], k)];
  }

  // ---------- The free blocks as a set ----------

  function FreeBlocks(bm: seq<bv8>, size: int): set<int> { set b | 0 <= b < size && b < 8 * |bm| && !Bit(bm, b) }

  lemma PickOne<T>(s: set<T>) returns (x: T)
    requires s != {}
    ensures x in s
  {
    x :| x in s;
  }

  predicate NotBelow(s: set<int>, b: int, c: int) { c in s ==> b <= c }

  ghost predicate Least(s: set<int>, b: int) { b in s && forall c {:trigger NotBelow(s, b, c)} :: NotBelow(s, b, c) }

  lemma {:induction false} LeastExists(s: set<int>) returns (b: int)
    requires s != {}
    ensures Least(s, b)
    decreases s
  {
    var x := PickOne(s);
    var rest := s - {x};
    b := x;
    if rest != {} {
      var y := LeastExists(rest);
      b := if x < y then x else y;
      forall c ensures NotBelow(s, b, c) { assert NotBelow(rest, y, c); }
    } else {
      forall c ensures NotBelow(s, b, c) { assert c in s && c != x ==> c in rest; }
    }
  }

  lemma SomeLeast(s: set<int>)
    requires s != {}
    ensures exists b :: Least(s, b)
  {
    var b := LeastExists(s);
  }

  ghost function Lowest(s: set<int>): int
    requires s != {}
  {
    SomeLeast(s);
    var b :| Least(s, b);
    b
  }

  lemma LowestIn(s: set<int>)
    requires s != {}
    ensures Lowest(s) in s
  {
    SomeLeast(s);
    assert Least(s, Lowest(s));
  }

  lemma LowestIs(s: set<int>, b: int)
    requires Least(s, b)
    ensures Lowest(s) == b
  {
    SomeLeast(s);
    var l := Lowest(s);
    assert Least(s, l) && NotBelow(s, b, l) && NotBelow(s, l, b);
  }

  // What the scan finds is the lowest free block, and with its bit set one block less is free.
  lemma ScanFindsLowest(bm: seq<bv8>, size: int, r: int)
    requires 0 <= r < size <= 8 * |bm| && !Bit(bm, r) && AllUsed(bm, r)
    ensures var s := FreeBlocks(bm, size);
      && s != {} && r == Lowest(s) && |SetBit(bm, r)| == |bm| && FreeBlocks(SetBit(bm, r), size) == s - {r}
  {
    var s := FreeBlocks(bm, size);
    assert r in s;
    forall c ensures NotBelow(s, r, c) { assert c < r ==> UsedAt(bm, c); }
    LowestIs(s, r);
    forall c ensures c in FreeBlocks(SetBit(bm, r), size) <==> c in s - {r} {
      if 0 <= c < size { SetBitSets(bm, r, c); }
    }
  }

  lemma NoneFree(bm: seq<bv8>, size: int)
    requires 0 <= size <= 8 * |bm|
    ensures AllUsed(bm, size) <==> FreeBlocks(bm, size) == {}
  {
    if FreeBlocks(bm, size) == {} {
      forall b | 0 <= b < size ensures UsedAt(bm, b) { assert b !in FreeBlocks(bm, size); }
    } else {
      var b := PickOne(FreeBlocks(bm, size));
      assert !UsedAt(bm, b);
    }
  }

  // What is left when m blocks have been taken, each the lowest, as far as there were any.
  ghost function Left(s: set<int>, m: nat): set<int> {
    if m == 0 then s
    else
      var r := Left(s, m - 1);
      if r == {} then r else r - {Lowest(r)}
  }

  lemma {:induction false} LeftMore(s: set<int>, m: nat, c: nat)
    ensures Left(s, m + c) == Left(Left(s, m), c)
    decreases c
  {
    if c > 0 {
      LeftMore(s, m, c - 1);
      assert m + c - 1 == m + (c - 1);
    }
  }

  lemma {:induction false} LeftCount(s: set<int>, m: nat)
    ensures |Left(s, m)| == if m <= |s| then |s| - m else 0
  {
    if m > 0 {
      LeftCount(s, m - 1);
      if Left(s, m - 1) != {} { LowestIn(Left(s, m - 1)); }
    }
  }
}
