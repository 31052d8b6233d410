/**
 The user-level allocator of umalloc.c: a circular, address-sorted free list with splitting and
 coalescing. Addresses and sizes are counted in units of one Header (8 bytes).
 */
module Heap {

  datatype Hdr = Hdr(ptr: int, size: int)

  type Memory = map<int, Hdr>

  const NULL := 0

  // ---------- The circular list ----------

  // The node that order[k] points to: the list wraps once, from its last node to its first.
  function Succ(order: seq<int>, k: int): int
    requires 0 <= k < |order|
  {
    if k + 1 < |order| then order[k + 1] else order[0]
  }

  predicate Less(order: seq<int>, i: int, j: int) {
    0 <= i < j < |order| ==> order[i] < order[j]
  }

  ghost predicate Ascending(order: seq<int>) {
    forall i, j {:trigger Less(order, i, j)} :: Less(order, i, j)
  }

  predicate Links(mem: Memory, order: seq<int>, i: int) {
    0 <= i < |order| ==> order[i] in mem && mem[order[i]].ptr == Succ(order, i)
  }

  ghost predicate Cycle(mem: Memory, order: seq<int>) {
    && |order| >= 1 && Ascending(order)
    && (forall i :: 0 <= i < |order| ==> order[i] in mem)
    && forall i {:trigger Links(mem, order, i)} :: Links(mem, order, i)
  }

  function Insert(order: seq<int>, k: int, b: int): seq<int>
    requires 0 <= k < |order|
  {
    order[..k + 1] + [b] + order[k + 1..]
  }

  function Delete(order: seq<int>, k: int): seq<int>
    requires 0 <= k && k + 1 < |order|
  {
    order[..k + 1] + order[k + 2..]
  }

  lemma AscendingInsert(order: seq<int>, k: int, b: int)
    requires Ascending(order) && 0 <= k < |order| && order[k] < b && (k + 1 < |order| ==> b < order[k + 1])
    ensures Ascending(Insert(order, k, b))
  {
    var o := Insert(order, k, b);
    forall i, j ensures Less(o, i, j) {
      if 0 <= i < j < |o| {
        var i', j' := if i <= k then i else i - 1, if j <= k then j else j - 1;
        assert o[i] == if i == k + 1 then b else order[i'];
        assert o[j] == if j == k + 1 then b else order[j'];
        assert Less(order, i', j') && Less(order, i', k) && Less(order, k + 1, j');
      }
    }
  }

  lemma AscendingDelete(order: seq<int>, k: int)
    requires Ascending(order) && 0 <= k && k + 1 < |order|
    ensures Ascending(Delete(order, k))
  {
    var o := Delete(order, k);
    forall i, j ensures Less(o, i, j) {
      if 0 <= i < j < |o| {
        var i', j' := if i <= k then i else i + 1, if j <= k then j else j + 1;
        assert o[i] == order[i'] && o[j] == order[j'] && Less(order, i', j');
      }
    }
  }

  lemma CycleInsert(mem: Memory, order: seq<int>, k: int, b: int, size: int)
    requires Cycle(mem, order) && 0 <= k < |order| && order[k] < b && (k + 1 < |order| ==> b < order[k + 1])
    ensures Cycle(mem[b := Hdr(Succ(order, k), size)][order[k] := Hdr(b, mem[order[k]].size)], Insert(order, k, b))
  {
    var o, mem' := Insert(order, k, b), mem[b := Hdr(Succ(order, k), size)][order[k] := Hdr(b, mem[order[k]].size)];
    AscendingInsert(order, k, b);
    forall i | 0 <= i < |o| ensures o[i] in mem' && Links(mem', o, i) {
      assert o[i] == if i <= k then order[i] else if i == k + 1 then b else order[i - 1];
      assert Links(mem, order, i) && Links(mem, order, i - 1);
      assert Less(o, i, k) && Less(o, k, i) && Less(o, i, k + 1) && Less(o, k + 1, i);
    }
  }

  lemma CycleDelete(mem: Memory, order: seq<int>, k: int, size: int)
    requires Cycle(mem, order) && 0 <= k && k + 1 < |order|
    ensures Cycle(mem[order[k] := Hdr(Succ(order, k + 1), size)], Delete(order, k))
  {
    var o, mem' := Delete(order, k), mem[order[k] := Hdr(Succ(order, k + 1), size)];
    AscendingDelete(order, k);
    forall i | 0 <= i < |o| ensures o[i] in mem' && Links(mem', o, i) {
      assert o[i] == order[if i <= k then i else i + 1];
      assert Links(mem, order, i) && Links(mem, order, i + 1);
      assert Less(o, i, k) && Less(o, k, i);
    }
  }

  // ---------- Blocks tile the memory obtained from sbrk ----------

  ghost predicate Covers(blocks: map<int, int>, b: int, u: int) {
    b in blocks && b <= u < b + blocks[b]
  }

  // Every unit of core lies in exactly one block, and blocks hold nothing else.
  ghost predicate Tiles(blocks: map<int, int>, core: set<int>) {
    && (forall b :: b in blocks ==> blocks[b] >= 1)
    && (forall b, c, u :: Covers(blocks, b, u) && Covers(blocks, c, u) ==> b == c)
    && (forall b, u :: Covers(blocks, b, u) ==> u in core)
    && forall u :: u in core ==> exists b :: Covers(blocks, b, u)
  }

  lemma TilesDisjoint(blocks: map<int, int>, core: set<int>, b: int, c: int)
    requires Tiles(blocks, core) && b in blocks && c in blocks && b < c
    ensures b + blocks[b] <= c
  {
    assert Covers(blocks, c, c);
    assert Covers(blocks, b, c) <==> c < b + blocks[b];
  }

  lemma TilesMerge(blocks: map<int, int>, core: set<int>, b: int, c: int)
    requires Tiles(blocks, core) && b in blocks && c in blocks && b + blocks[b] == c
    ensures Tiles((blocks - {c})[b := blocks[b] + blocks[c]], core)
  {
    var merged := (blocks - {c})[b := blocks[b] + blocks[c]];
    forall d, u
      ensures Covers(merged, d, u) <==> d != c && (Covers(blocks, d, u) || (d == b && Covers(blocks, c, u))) {}
    forall u | u in core ensures exists d :: Covers(merged, d, u) {
      var d :| Covers(blocks, d, u);
      assert Covers(merged, if d == c then b else d, u);
    }
  }

  lemma TilesSplit(blocks: map<int, int>, core: set<int>, b: int, n: int)
    requires Tiles(blocks, core) && b in blocks && 0 < n < blocks[b]
    ensures b + blocks[b] - n !in blocks
    ensures Tiles(blocks[b := blocks[b] - n][b + blocks[b] - n := n], core)
  {
    var c := b + blocks[b] - n;
    assert Covers(blocks, b, c) && (c in blocks ==> Covers(blocks, c, c));
    var split := blocks[b := blocks[b] - n][c := n];
    forall d, u ensures Covers(split, d, u) ==> Covers(blocks, if d == c then b else d, u) {}
    forall u | u in core ensures exists d :: Covers(split, d, u) {
      var d :| Covers(blocks, d, u);
      assert Covers(split, if d == b && u >= c then c else d, u);
    }
  }

  ghost function Units(b: int, n: int): (r: set<int>)
    ensures forall u :: u in r <==> b <= u < b + n
    decreases if n <= 0 then 0 else n
  {
    if n <= 0 then {} else Units(b, n - 1) + {b + n - 1}
  }

  lemma TilesAdd(blocks: map<int, int>, core: set<int>, b: int, n: int)
    requires Tiles(blocks, core) && n >= 1 && forall u :: u in core ==> u < b
    ensures b !in blocks && Tiles(blocks[b := n], core + Units(b, n))
  {
    assert b in blocks ==> Covers(blocks, b, b);
    var grown := blocks[b := n];
    forall d, u ensures Covers(grown, d, u) <==> Covers(blocks, d, u) || d == b <= u < b + n {
      assert Covers(blocks, d, u) ==> u in core;
    }
    forall u | u in core + Units(b, n) ensures exists d :: Covers(grown, d, u) {
      if u in core {
        var d :| Covers(blocks, d, u);
        assert Covers(grown, d, u);
      } else {
        assert Covers(grown, b, u);
      }
    }
  }

  // ---------- The heap invariant ----------

  predicate Apart(order: seq<int>, blocks: map<int, int>, i: int) {
    1 <= i < |order| - 1 ==> order[i] in blocks && order[i] + blocks[order[i]] != order[i + 1]
  }

  // Free blocks are blocks, and no two neighbours on the list touch.
  ghost predicate FreeList(base: int, order: seq<int>, blocks: map<int, int>) {
    && |order| >= 1 && order[0] == base && base !in blocks && Ascending(order)
    && (forall i :: 1 <= i < |order| ==> order[i] in blocks)
    && forall i {:trigger Apart(order, blocks, i)} :: Apart(order, blocks, i)
  }

  ghost predicate Headers(base: int, mem: Memory, blocks: map<int, int>) {
    && base in mem && mem[base].size == 0
    && forall b :: b in blocks ==> b in mem && mem[b].size == blocks[b]
  }

  ghost predicate Good(base: int, mem: Memory, order: seq<int>, blocks: map<int, int>, core: set<int>, brk: int) {
    && Cycle(mem, order) && FreeList(base, order, blocks) && Headers(base, mem, blocks)
    && Tiles(blocks, core) && base < brk && forall u :: u in core ==> base < u < brk
  }

  ghost function Live(order: seq<int>, blocks: map<int, int>): map<int, int> {
    map b | b in blocks && b !in order :: blocks[b]
  }

  lemma BlockInRange(base: int, mem: Memory, order: seq<int>, blocks: map<int, int>, core: set<int>, brk: int, b: int)
    requires Good(base, mem, order, blocks, core, brk) && b in blocks
    ensures base < b && b + blocks[b] <= brk
  {
    assert Covers(blocks, b, b) && Covers(blocks, b, b + blocks[b] - 1);
  }

  // ---------- free ----------

  predicate Upper(order: seq<int>, blocks: map<int, int>, k: int, b: int)
    requires 0 <= k < |order| && b in blocks
  {
    k + 1 < |order| && b + blocks[b] == order[k + 1]
  }

  predicate Lower(order: seq<int>, blocks: map<int, int>, k: int, b: int)
    requires 0 <= k < |order|
  {
    order[k] in blocks && order[k] + blocks[order[k]] == b
  }

  function FreeOrder(order: seq<int>, blocks: map<int, int>, k: int, b: int): seq<int>
    requires 0 <= k < |order| && b in blocks
  {
    var o := if Upper(order, blocks, k, b) then Delete(order, k) else order;
    if Lower(order, blocks, k, b) then o else Insert(o, k, b)
  }

  function Merge(blocks: map<int, int>, b: int, c: int): map<int, int>
    requires b in blocks && c in blocks
  {
    (blocks - {c})[b := blocks[b] + blocks[c]]
  }

  function FreeBlocks(order: seq<int>, blocks: map<int, int>, k: int, b: int): map<int, int>
    requires 0 <= k < |order| && b in blocks && forall i :: 1 <= i < |order| ==> order[i] in blocks
    requires b !in order
  {
    var bs := if Upper(order, blocks, k, b) then Merge(blocks, b, order[k + 1]) else blocks;
    if Lower(order, blocks, k, b) && order[k] in bs then Merge(bs, order[k], b) else bs
  }

  // The header writes of free, once the search has stopped at p.
  function FreeMem(mem: Memory, p: int, b: int): Memory
    requires p in mem && b in mem && mem[p].ptr in mem
  {
    var q := mem[p].ptr;
    var m1 := if b + mem[b].size == q then mem[b := Hdr(mem[q].ptr, mem[b].size + mem[q].size)]
              else mem[b := Hdr(q, mem[b].size)];
    if p + m1[p].size == b then m1[p := Hdr(m1[b].ptr, m1[p].size + m1[b].size)]
    else m1[p := Hdr(b, m1[p].size)]
  }

  // p = order[k] is the last list node below b.
  ghost predicate Between(order: seq<int>, k: int, b: int) {
    0 <= k < |order| && order[k] < b && (k + 1 < |order| ==> b < order[k + 1])
  }

  lemma CycleSame(mem: Memory, mem': Memory, order: seq<int>)
    requires Cycle(mem, order)
    requires forall i :: 0 <= i < |order| ==> order[i] in mem' && mem'[order[i]].ptr == mem[order[i]].ptr
    ensures Cycle(mem', order)
  {
    forall i ensures Links(mem', order, i) { assert Links(mem, order, i); }
  }

  lemma NotOnList(order: seq<int>, k: int, b: int)
    requires Ascending(order) && Between(order, k, b)
    ensures b !in order
  {
    forall i | 0 <= i < |order| ensures order[i] != b {
      assert Less(order, i, k) && Less(order, k + 1, i);
    }
  }

  lemma FreeTests(base: int, mem: Memory, order: seq<int>, blocks: map<int, int>, core: set<int>, brk: int, k: int,
                  b: int)
    requires Good(base, mem, order, blocks, core, brk) && Between(order, k, b) && b in blocks
    ensures var p := order[k];
      && mem[p].ptr == Succ(order, k) && mem[p].ptr in mem
      && (b + mem[b].size == mem[p].ptr <==> Upper(order, blocks, k, b))
      && (p + mem[p].size == b <==> Lower(order, blocks, k, b))
  {
    BlockInRange(base, mem, order, blocks, core, brk, b);
    assert order[0] in mem && Links(mem, order, k);
    if k == 0 { assert mem[order[k]].size == 0; }
  }

  lemma FreeCycleBoth(mem: Memory, order: seq<int>, k: int, b: int)
    requires Cycle(mem, order) && Between(order, k, b) && b in mem && k + 1 < |order|
    requires mem[order[k]].ptr == order[k + 1]
    requires b + mem[b].size == order[k + 1] && order[k] + mem[order[k]].size == b
    ensures Cycle(FreeMem(mem, order[k], b), Delete(order, k))
  {
    var o := Delete(order, k);
    var m := mem[order[k] := Hdr(Succ(order, k + 1), 0)];
    assert Links(mem, order, k + 1);
    CycleDelete(mem, order, k, 0);
    NotOnList(order, k, b);
    forall i | 0 <= i < |o| ensures o[i] != b {
      assert o[i] == order[if i <= k then i else i + 1];
    }
    CycleSame(m, FreeMem(mem, order[k], b), o);
  }

  lemma FreeCycleUpper(mem: Memory, order: seq<int>, k: int, b: int)
    requires Cycle(mem, order) && Between(order, k, b) && b in mem && k + 1 < |order|
    requires mem[order[k]].ptr == order[k + 1]
    requires b + mem[b].size == order[k + 1] && order[k] + mem[order[k]].size != b
    ensures Cycle(FreeMem(mem, order[k], b), Insert(Delete(order, k), k, b))
  {
    var p, q, o := order[k], order[k + 1], Delete(order, k);
    var size := mem[b].size + mem[q].size;
    CycleDelete(mem, order, k, mem[p].size);
    var m := mem[p := Hdr(Succ(order, k + 1), mem[p].size)];
    assert k + 1 < |o| ==> o[k + 1] == order[k + 2];
    assert Less(order, k + 1, k + 2) && Links(mem, order, k + 1);
    CycleInsert(m, o, k, b, size);
    assert m[b := Hdr(Succ(o, k), size)][p := Hdr(b, mem[p].size)] == FreeMem(mem, p, b);
  }

  lemma FreeCycle(base: int, mem: Memory, order: seq<int>, blocks: map<int, int>, core: set<int>, brk: int, k: int,
                  b: int)
    requires Good(base, mem, order, blocks, core, brk) && Between(order, k, b) && b in blocks
    ensures order[k] in mem && mem[order[k]].ptr in mem
    ensures Cycle(FreeMem(mem, order[k], b), FreeOrder(order, blocks, k, b))
  {
    FreeTests(base, mem, order, blocks, core, brk, k, b);
    if Upper(order, blocks, k, b) {
      if Lower(order, blocks, k, b) { FreeCycleBoth(mem, order, k, b); } else { FreeCycleUpper(mem, order, k, b); }
    } else if Lower(order, blocks, k, b) {
      NotOnList(order, k, b);
      CycleSame(mem, FreeMem(mem, order[k], b), order);
    } else {
      CycleInsert(mem, order, k, b, mem[b].size);
    }
  }

  lemma FreeTiles(base: int, mem: Memory, order: seq<int>, blocks: map<int, int>, core: set<int>, brk: int, k: int,
                  b: int)
    requires Good(base, mem, order, blocks, core, brk) && Between(order, k, b) && b in blocks
    ensures b !in order && Tiles(FreeBlocks(order, blocks, k, b), core)
  {
    NotOnList(order, k, b);
    var bs := if Upper(order, blocks, k, b) then Merge(blocks, b, order[k + 1]) else blocks;
    if Upper(order, blocks, k, b) { TilesMerge(blocks, core, b, order[k + 1]); }
    if Lower(order, blocks, k, b) { TilesMerge(bs, core, order[k], b); }
  }

  lemma FreeHeaders(base: int, mem: Memory, order: seq<int>, blocks: map<int, int>, core: set<int>, brk: int, k: int,
                    b: int)
    requires Good(base, mem, order, blocks, core, brk) && Between(order, k, b) && b in blocks && b !in order
    requires order[k] in mem && mem[order[k]].ptr in mem
    ensures Headers(base, FreeMem(mem, order[k], b), FreeBlocks(order, blocks, k, b))
  {
    FreeTests(base, mem, order, blocks, core, brk, k, b);
  }

  // Absorbing the free block above b takes that block off the list.
  lemma AbsorbUpper(base: int, order: seq<int>, blocks: map<int, int>, k: int, b: int)
    requires FreeList(base, order, blocks) && Between(order, k, b) && b in blocks && Upper(order, blocks, k, b)
    requires order[k] in blocks ==> order[k] + blocks[order[k]] <= b
    ensures FreeList(base, Delete(order, k), Merge(blocks, b, order[k + 1]))
    ensures Between(Delete(order, k), k, b) && !Upper(Delete(order, k), Merge(blocks, b, order[k + 1]), k, b)
  {
    var o, q := Delete(order, k), order[k + 1];
    var bs := Merge(blocks, b, q);
    AscendingDelete(order, k);
    assert Less(order, k + 1, k + 2) && Less(order, k, k + 2) && Apart(order, blocks, k + 1);
    forall i | 0 <= i < |o| ensures o[i] != q && (1 <= i ==> o[i] in bs) {
      assert o[i] == order[if i <= k then i else i + 1];
      assert Less(order, i, k + 1) && Less(order, k + 1, i + 1);
    }
    NotOnList(order, k, b);
    forall i ensures Apart(o, bs, i) {
      if 1 <= i < |o| - 1 {
        assert o[i] == order[if i <= k then i else i + 1] && o[i + 1] == order[if i < k then i + 1 else i + 2];
        assert Apart(order, blocks, i) && Apart(order, blocks, i + 1);
      }
    }
  }

  lemma ListInsert(base: int, order: seq<int>, blocks: map<int, int>, k: int, b: int)
    requires FreeList(base, order, blocks) && Between(order, k, b) && b in blocks
    requires !Upper(order, blocks, k, b) && !Lower(order, blocks, k, b)
    ensures FreeList(base, Insert(order, k, b), blocks)
  {
    var o := Insert(order, k, b);
    AscendingInsert(order, k, b);
    forall i | 0 <= i < |o| ensures o[i] == if i <= k then order[i] else if i == k + 1 then b else order[i - 1] {}
    forall i ensures Apart(o, blocks, i) {
      assert Apart(order, blocks, i) && Apart(order, blocks, i - 1);
    }
  }

  lemma AbsorbIntoLower(base: int, order: seq<int>, blocks: map<int, int>, k: int, b: int)
    requires FreeList(base, order, blocks) && Between(order, k, b) && b in blocks
    requires !Upper(order, blocks, k, b) && Lower(order, blocks, k, b)
    ensures FreeList(base, order, Merge(blocks, order[k], b))
  {
    NotOnList(order, k, b);
    var bs := Merge(blocks, order[k], b);
    forall i ensures Apart(order, bs, i) {
      assert Apart(order, blocks, i) && Less(order, i, k) && Less(order, k, i);
    }
  }

  lemma FreeKeepsList(base: int, order: seq<int>, blocks: map<int, int>, core: set<int>, k: int, b: int)
    requires FreeList(base, order, blocks) && Tiles(blocks, core) && Between(order, k, b) && b in blocks && b !in order
    ensures FreeList(base, FreeOrder(order, blocks, k, b), FreeBlocks(order, blocks, k, b))
  {
    var o, bs := order, blocks;
    if order[k] in blocks { TilesDisjoint(blocks, core, order[k], b); }
    if Upper(order, blocks, k, b) {
      AbsorbUpper(base, order, blocks, k, b);
      o, bs := Delete(order, k), Merge(blocks, b, order[k + 1]);
      assert Less(order, k, k + 1);
    }
    if Lower(order, blocks, k, b) { AbsorbIntoLower(base, o, bs, k, b); } else { ListInsert(base, o, bs, k, b); }
  }

  // What is live after free is what was live before, less the freed block.
  lemma FreeLive(base: int, order: seq<int>, blocks: map<int, int>, k: int, b: int)
    requires FreeList(base, order, blocks) && Between(order, k, b) && b in blocks && b !in order
    ensures Live(FreeOrder(order, blocks, k, b), FreeBlocks(order, blocks, k, b)) == Live(order, blocks) - {b}
  {
    var o, bs := FreeOrder(order, blocks, k, b), FreeBlocks(order, blocks, k, b);
    forall c ensures c in bs && c !in o <==> c in blocks && c !in order && c != b {
      FreeMembers(order, blocks, k, b, c);
    }
  }

  lemma FreeMembers(order: seq<int>, blocks: map<int, int>, k: int, b: int, c: int)
    requires Ascending(order) && Between(order, k, b) && b in blocks && b !in order
    ensures var o, up := FreeOrder(order, blocks, k, b), Upper(order, blocks, k, b);
      c in o <==> (c in order && !(up && c == order[k + 1])) || (c == b && !Lower(order, blocks, k, b))
  {
    if Upper(order, blocks, k, b) { DeleteMembers(order, k, c); }
    assert order[k] in order;
  }

  lemma DeleteMembers(order: seq<int>, k: int, c: int)
    requires Ascending(order) && 0 <= k && k + 1 < |order|
    ensures c in Delete(order, k) <==> c in order && c != order[k + 1]
  {
    var o := Delete(order, k);
    forall i | 0 <= i < |o| ensures o[i] != order[k + 1] {
      assert o[i] == order[if i <= k then i else i + 1];
      assert Less(order, i, k + 1) && Less(order, k + 1, i + 1);
    }
    if c in order && c != order[k + 1] {
      var i :| 0 <= i < |order| && order[i] == c;
      assert o[if i <= k then i else i - 1] == c;
    }
  }

  lemma FreeGood(base: int, mem: Memory, order: seq<int>, blocks: map<int, int>, core: set<int>, brk: int, k: int,
                 b: int)
    requires Good(base, mem, order, blocks, core, brk) && Between(order, k, b) && b in blocks
    ensures b !in order && order[k] in mem && mem[order[k]].ptr in mem
    ensures var o, bs := FreeOrder(order, blocks, k, b), FreeBlocks(order, blocks, k, b);
      Good(base, FreeMem(mem, order[k], b), o, bs, core, brk) && Live(o, bs) == Live(order, blocks) - {b}
        && order[k] in o
  {
    FreeCycle(base, mem, order, blocks, core, brk, k, b);
    FreeTiles(base, mem, order, blocks, core, brk, k, b);
    FreeHeaders(base, mem, order, blocks, core, brk, k, b);
    FreeKeepsList(base, order, blocks, core, k, b);
    FreeLive(base, order, blocks, k, b);
    FreeMembers(order, blocks, k, b, order[k]);
    assert Less(order, k, k + 1);
  }

  ghost function Below(order: seq<int>, b: int): (k: int)
    requires |order| >= 1 && order[0] < b && b !in order
    ensures Between(order, k, b)
  {
    if |order| == 1 || b < order[1] then 0
    else
      assert forall i :: 0 <= i < |order| - 1 ==> order[1..][i] == order[i + 1];
      1 + Below(order[1..], b)
  }

  // Where the search loop of free may stop.
  predicate Stops(p: int, q: int, b: int) {
    (p < b && b < q) || (p >= q && (b > p || b < q))
  }

  lemma StopsOnlyAt(order: seq<int>, j: int, k: int, b: int)
    requires Ascending(order) && Between(order, k, b) && order[0] < b && 0 <= j < |order|
    ensures Stops(order[j], Succ(order, j), b) <==> j == k
  {
    assert Less(order, j, k) && Less(order, j + 1, k) && Less(order, k + 1, j) && Less(order, j, j + 1)
      && Less(order, 0, j);
  }

  // ---------- malloc ----------

  const TWO32 := 0x1_0000_0000

  // nunits as the 32-bit arithmetic of malloc computes it
  function Nunits(nbytes: int): int
    requires 0 <= nbytes < TWO32
  {
    ((nbytes + 7) % TWO32) / 8 + 1
  }

  const MINCORE := 4096

  function CoreUnits(nunits: int): int { if nunits < MINCORE then MINCORE else nunits }

  // nu * sizeof(Header), a uint, as sbrk's int parameter receives it
  function SbrkArgument(nu: int): int {
    var n := (nu * 8) % TWO32;
    if n < TWO32 / 2 then n else n - TWO32
  }

  const MAXREQUEST := 8 * (0x1000_0000 - 2)

  /**
   The arithmetic of malloc and morecore is sound for exactly the requests up to MAXREQUEST: beyond
   it either the block is too small for the request or sbrk is asked for another amount than the
   header claims.
   */
  lemma SoundRequests(nbytes: int)
    requires 0 <= nbytes < TWO32
    ensures nbytes <= MAXREQUEST <==>
      && 8 * (Nunits(nbytes) - 1) >= nbytes
      && SbrkArgument(CoreUnits(Nunits(nbytes))) == 8 * CoreUnits(Nunits(nbytes))
  {
    if nbytes + 7 < TWO32 {
      assert Nunits(nbytes) == (nbytes + 7) / 8 + 1;
    } else {
      assert Nunits(nbytes) == (nbytes + 7 - TWO32) / 8 + 1;
    }
  }

  lemma DeleteKeepsList(base: int, order: seq<int>, blocks: map<int, int>, core: set<int>, k: int)
    requires FreeList(base, order, blocks) && Tiles(blocks, core) && 0 <= k && k + 1 < |order|
    ensures FreeList(base, Delete(order, k), blocks)
  {
    var o := Delete(order, k);
    AscendingDelete(order, k);
    forall i | 0 <= i < |o| ensures o[i] == order[if i <= k then i else i + 1] {}
    forall i ensures Apart(o, blocks, i) {
      assert Apart(order, blocks, i) && Apart(order, blocks, i + 1);
      if 1 <= i == k < |o| - 1 {
        assert Less(order, k, k + 1) && Less(order, k + 1, k + 2);
        TilesDisjoint(blocks, core, order[k], order[k + 1]);
      }
    }
  }

  lemma TakeWhole(base: int, mem: Memory, order: seq<int>, blocks: map<int, int>, core: set<int>, brk: int, k: int)
    requires Good(base, mem, order, blocks, core, brk) && 0 <= k && k + 1 < |order|
    ensures var o, b := Delete(order, k), order[k + 1];
      && Good(base, mem[order[k] := Hdr(mem[b].ptr, mem[order[k]].size)], o, blocks, core, brk)
      && b in blocks && Live(o, blocks) == Live(order, blocks)[b := blocks[b]] && order[k] in o
  {
    var o, b := Delete(order, k), order[k + 1];
    assert Links(mem, order, k + 1);
    CycleDelete(mem, order, k, mem[order[k]].size);
    DeleteKeepsList(base, order, blocks, core, k);
    forall c ensures c in o <==> c in order && c != b { DeleteMembers(order, k, c); }
    assert Less(order, k, k + 1);
  }

  lemma ShrinkKeepsList(base: int, order: seq<int>, blocks: map<int, int>, core: set<int>, k: int, n: int, c: int)
    requires FreeList(base, order, blocks) && Tiles(blocks, core) && 1 <= k < |order| && 0 < n < blocks[order[k]]
    requires c !in order && c !in blocks && c != base
    ensures FreeList(base, order, blocks[order[k] := blocks[order[k]] - n][c := n])
  {
    var bs := blocks[order[k] := blocks[order[k]] - n][c := n];
    forall i ensures Apart(order, bs, i) {
      assert Apart(order, blocks, i) && Less(order, i, k) && Less(order, k, i);
      if 1 <= i == k < |order| - 1 {
        assert Less(order, k, k + 1);
        TilesDisjoint(blocks, core, order[k], order[k + 1]);
      }
    }
  }

  lemma TailIsNew(base: int, mem: Memory, order: seq<int>, blocks: map<int, int>, core: set<int>, brk: int, k: int,
                  n: int)
    requires Good(base, mem, order, blocks, core, brk) && 1 <= k < |order| && 0 < n < blocks[order[k]]
    ensures var p, c := order[k], order[k] + blocks[order[k]] - n;
      c !in blocks && c !in order && base < p < c && Tiles(blocks[p := blocks[p] - n][c := n], core)
  {
    TilesSplit(blocks, core, order[k], n);
    BlockInRange(base, mem, order, blocks, core, brk, order[k]);
    assert forall i :: 0 <= i < |order| ==> order[i] == base || order[i] in blocks;
  }

  lemma TakeTail(base: int, mem: Memory, order: seq<int>, blocks: map<int, int>, core: set<int>, brk: int,
                 k: int, n: int, ptr: int, c: int, m: Memory, bs: map<int, int>)
    requires Good(base, mem, order, blocks, core, brk) && 1 <= k < |order| && 0 < n < blocks[order[k]]
    requires c == order[k] + blocks[order[k]] - n
    requires m == mem[order[k] := Hdr(mem[order[k]].ptr, blocks[order[k]] - n)][c := Hdr(ptr, n)]
    requires bs == blocks[order[k] := blocks[order[k]] - n][c := n]
    ensures Good(base, m, order, bs, core, brk)
  {
    TailIsNew(base, mem, order, blocks, core, brk, k, n);
    CycleSame(mem, m, order);
    ShrinkKeepsList(base, order, blocks, core, k, n, c);
    HeadersTail(base, mem, blocks, order[k], c, n, ptr);
  }

  lemma HeadersTail(base: int, mem: Memory, blocks: map<int, int>, p: int, c: int, n: int, ptr: int)
    requires Headers(base, mem, blocks) && p in blocks && c != p && base != p && base != c
    ensures Headers(base, mem[p := Hdr(mem[p].ptr, blocks[p] - n)][c := Hdr(ptr, n)],
      blocks[p := blocks[p] - n][c := n])
  {
  }

  lemma LiveTail(order: seq<int>, blocks: map<int, int>, p: int, size: int, c: int, n: int)
    requires p in order && p in blocks && c !in order && c !in blocks
    ensures Live(order, blocks[p := size][c := n]) == Live(order, blocks)[c := n]
  {
  }

  lemma Grow(base: int, mem: Memory, order: seq<int>, blocks: map<int, int>, core: set<int>, brk: int, hp: int, n: int,
             ptr: int)
    requires Good(base, mem, order, blocks, core, brk) && hp >= brk && n >= 1
    ensures var bs := blocks[hp := n];
      Good(base, mem[hp := Hdr(ptr, n)], order, bs, core + Units(hp, n), hp + n)
      && hp !in blocks && hp !in order && Live(order, bs) == Live(order, blocks)[hp := n]
  {
    TilesAdd(blocks, core, hp, n);
    forall i | 0 <= i < |order| ensures order[i] != hp {
      if i >= 1 { BlockInRange(base, mem, order, blocks, core, brk, order[i]); }
    }
    CycleSame(mem, mem[hp := Hdr(ptr, n)], order);
    var bs := blocks[hp := n];
    forall i ensures Apart(order, bs, i) { assert Apart(order, blocks, i); }
  }

  // Starting after position f, has malloc's scan passed c when it stands at i?
  predicate Passed(f: int, i: int, c: int) {
    if i > f then f < c < i else c > f || c < i
  }

  ghost predicate NoneFits(mem: Memory, order: seq<int>, nunits: int) {
    forall i :: 0 <= i < |order| ==> order[i] in mem && mem[order[i]].size < nunits
  }

  // ---------- The allocator ----------

  datatype State = State(base: int, mem: Memory, order: seq<int>, blocks: map<int, int>, core: set<int>, brk: int)

  ghost predicate GoodAt(h: State, k: int) {
    Good(h.base, h.mem, h.order, h.blocks, h.core, h.brk)
  }

  // Good, quantified over an unused k so that the verifier unfolds it only where asked to.
  ghost predicate Sound(h: State) {
    forall k {:trigger GoodAt(h, k)} :: GoodAt(h, k)
  }

  lemma Unfold(h: State)
    requires Sound(h)
    ensures Good(h.base, h.mem, h.order, h.blocks, h.core, h.brk)
  {
    assert GoodAt(h, 0);
  }

  lemma FreeSound(h: State, k: int, b: int)
    requires Sound(h) && Between(h.order, k, b) && b in h.blocks && b !in h.order && NULL < h.base
    ensures forall i :: 1 <= i < |h.order| ==> h.order[i] in h.blocks
    ensures h.order[k] in h.mem && b in h.mem && h.mem[h.order[k]].ptr in h.mem && h.order[k] != NULL
    ensures var h' := h.(mem := FreeMem(h.mem, h.order[k], b), order := FreeOrder(h.order, h.blocks, k, b),
                         blocks := FreeBlocks(h.order, h.blocks, k, b));
      && Sound(h') && Live(h'.order, h'.blocks) == Live(h.order, h.blocks) - {b}
      && h.order[k] in h'.order && !NoneFits(h'.mem, h'.order, h.blocks[b])
  {
    Unfold(h);
    FreeGood(h.base, h.mem, h.order, h.blocks, h.core, h.brk, k, b);
    FreedFits(h.base, h.mem, h.order, h.blocks, h.core, h.brk, k, b);
    assert Less(h.order, 0, k);
  }

  lemma GrowSound(h: State, hp: int, n: int, ptr: int)
    requires Sound(h) && hp >= h.brk && n >= 1
    ensures var h' := h.(mem := h.mem[hp := Hdr(ptr, n)], blocks := h.blocks[hp := n],
                         core := h.core + Units(hp, n), brk := hp + n);
      && Sound(h') && hp !in h.blocks && hp !in h.order
      && Live(h'.order, h'.blocks) == Live(h.order, h.blocks)[hp := n]
      && hp !in Live(h.order, h.blocks)
  {
    Unfold(h);
    Grow(h.base, h.mem, h.order, h.blocks, h.core, h.brk, hp, n, ptr);
  }

  lemma TakeWholeSound(h: State, k: int)
    requires Sound(h) && 0 <= k && k + 1 < |h.order| && NULL < h.base
    ensures var b := h.order[k + 1];
      && b in h.mem && h.order[k] in h.mem && h.order[k] != NULL && NULL < b && b in h.order
      && var h' := h.(mem := h.mem[h.order[k] := Hdr(h.mem[b].ptr, h.mem[h.order[k]].size)],
        order := Delete(h.order, k));
      && Sound(h') && Live(h'.order, h'.blocks) == Live(h.order, h.blocks)[b := h.mem[b].size] && h.order[k] in h'.order
  {
    Unfold(h);
    assert Less(h.order, 0, k) && Less(h.order, k, k + 1);
    TakeWhole(h.base, h.mem, h.order, h.blocks, h.core, h.brk, k);
  }

  lemma TakeTailLive(h: State, k: int, n: int)
    requires Sound(h) && 1 <= k < |h.order| && NULL < h.base && h.order[k] in h.mem && 0 < n < h.mem[h.order[k]].size
    ensures var p := h.order[k];
      var size := h.mem[p].size - n;
      && Live(h.order, h.blocks[p := size][p + size := n]) == Live(h.order, h.blocks)[p + size := n]
      && p + size !in Live(h.order, h.blocks) && NULL < p && h.order[k - 1] != NULL
  {
    Unfold(h);
    var p := h.order[k];
    var size := h.mem[p].size - n;
    assert Less(h.order, 0, k - 1) && Less(h.order, 0, k);
    TailIsNew(h.base, h.mem, h.order, h.blocks, h.core, h.brk, k, n);
    LiveTail(h.order, h.blocks, p, size, p + size, n);
  }

  lemma TakeTailSound(h: State, k: int, n: int, ptr: int)
    requires Sound(h) && 1 <= k < |h.order| && h.order[k] in h.mem && 0 < n < h.mem[h.order[k]].size
    ensures var p := h.order[k];
      var size := h.mem[p].size - n;
      Sound(h.(mem := h.mem[p := Hdr(h.mem[p].ptr, size)][p + size := Hdr(ptr, n)],
        blocks := h.blocks[p := size][p + size := n]))
  {
    Unfold(h);
    var p := h.order[k];
    var size := h.mem[p].size - n;
    TakeTail(h.base, h.mem, h.order, h.blocks, h.core, h.brk, k, n, ptr, p + size,
             h.mem[p := Hdr(h.mem[p].ptr, size)][p + size := Hdr(ptr, n)], h.blocks[p := size][p + size := n]);
  }

  lemma ListOf(h: State)
    requires Sound(h)
    ensures Cycle(h.mem, h.order) && h.order[0] == h.base && h.mem[h.base].size == 0
  {
    Unfold(h);
  }

  class Allocator {
    const base: int
    var mem: Memory
    var freep: int
    var brk: int                      // the next address sbrk can give out
    ghost var order: seq<int>         // the free list, from base upwards
    ghost var blocks: map<int, int>   // every free or live block and its size
    ghost var core: set<int>          // every unit obtained from sbrk

    ghost function Heap(): State
      reads this
    {
      State(base, mem, order, blocks, core, brk)
    }

    ghost predicate Valid()
      reads this
    {
      && NULL < base < brk
      && if freep == NULL then order == [] && blocks == map[] && core == {} else Sound(Heap()) && freep in order
    }

    ghost function LiveBlocks(): map<int, int>
      reads this
    {
      Live(order, blocks)
    }

    constructor (base: int, brk: int)
      requires NULL < base < brk
      ensures Valid() && LiveBlocks() == map[] && core == {} && this.base == base && freep == NULL
    {
      this.base, this.brk, freep, mem := base, brk, NULL, map[];
      order, blocks, core := [], map[], {};
    }

    // The search loop of free: the list node after which b belongs.
    method FindSpot(b: int) returns (p: int, ghost k: int)
      requires Sound(Heap()) && freep in order && b in blocks && b !in order
      ensures Between(order, k, b) && p == order[k]
    {
      Unfold(Heap());
      BlockInRange(base, mem, order, blocks, core, brk, b);
      k := Below(order, b);
      p := freep;
      ghost var j :| 0 <= j < |order| && order[j] == p;
      assert Links(mem, order, j);
      while !(b > p && b < mem[p].ptr)
        invariant 0 <= j < |order| && p == order[j] && Links(mem, order, j)
        decreases if j <= k then k - j else k + |order| - j
      {
        StopsOnlyAt(order, j, k, b);
        if p >= mem[p].ptr && (b > p || b < mem[p].ptr) { break; }
        p, j := mem[p].ptr, if j + 1 < |order| then j + 1 else 0;
        assert Links(mem, order, j);
      }
      StopsOnlyAt(order, j, k, b);
    }

    // The header writes of free.
    method Coalesce(p: int, b: int)
      requires p in mem && b in mem && mem[p].ptr in mem
      modifies this`mem
      ensures mem == FreeMem(old(mem), p, b)
    {
      var q := mem[p].ptr;
      if b + mem[b].size == q {
        mem := mem[b := Hdr(mem[q].ptr, mem[b].size + mem[q].size)];
      } else {
        mem := mem[b := Hdr(q, mem[b].size)];
      }
      if p + mem[p].size == b {
        mem := mem[p := Hdr(mem[b].ptr, mem[p].size + mem[b].size)];
      } else {
        mem := mem[p := Hdr(b, mem[p].size)];
      }
    }

    /** free: the block leaves the live ones and joins the free list, merged with free neighbours. */
    method Free(b: int)
      requires Valid() && b in LiveBlocks()
      modifies this`mem, this`freep, this`order, this`blocks
      ensures Valid() && freep != NULL && LiveBlocks() == old(LiveBlocks()) - {b}
      ensures !NoneFits(mem, order, old(blocks)[b])
    {
      assert b in blocks && b !in order && freep != NULL;
      var p;
      ghost var k;
      p, k := FindSpot(b);
      FreeSound(Heap(), k, b);
      ghost var o, bs := FreeOrder(order, blocks, k, b), FreeBlocks(order, blocks, k, b);
      Coalesce(p, b);
      freep := p;
      order, blocks := o, bs;
    }

    // sbrk of a positive amount: refused (grant < 0), or given `grant` units above the break seen
    // last, since other code may have called sbrk too.
    method Sbrk(nu: int, grant: int) returns (p: int)
      requires nu >= 1 && NULL < brk
      modifies this`brk
      ensures p == NULL <==> grant < 0
      ensures p == NULL ==> brk == old(brk)
      ensures p != NULL ==> p == old(brk) + grant && brk == p + nu
    {
      if grant < 0 { return NULL; }
      p := brk + grant;
      brk := p + nu;
    }

    // What sbrk gave becomes a live block of its own, for free to take.
    method AddCore(hp: int, nu: int, ghost was: int)
      requires NULL < base < was && hp >= was && nu >= 1 && freep != NULL && freep in order && brk == hp + nu
      requires Sound(Heap().(brk := was))
      modifies this`mem, this`blocks, this`core
      ensures Valid() && hp !in old(LiveBlocks()) && LiveBlocks() == old(LiveBlocks())[hp := nu]
      ensures hp in blocks && blocks[hp] == nu && core == old(core) + Units(hp, nu)
    {
      var ptr := if hp in mem then mem[hp].ptr else NULL;
      GrowSound(Heap().(brk := was), hp, nu, ptr);
      mem := mem[hp := Hdr(ptr, nu)];
      blocks, core := blocks[hp := nu], core + Units(hp, nu);
    }

    /** morecore: memory from sbrk becomes one more free block, or merges with one. */
    method Morecore(nunits: int, grant: int) returns (p: int)
      requires Valid() && freep != NULL && nunits >= 1
      modifies this
      ensures Valid() && freep != NULL && LiveBlocks() == old(LiveBlocks())
      ensures p == NULL <==> grant < 0
      ensures p == NULL ==> mem == old(mem) && order == old(order) && freep == old(freep) && core == old(core)
      ensures p != NULL ==> p == freep && !NoneFits(mem, order, nunits)
      ensures p != NULL ==> core == old(core) + Units(old(brk) + grant, CoreUnits(nunits))
    {
      var nu := if nunits < MINCORE then MINCORE else nunits;
      ghost var was := brk;
      var hp := Sbrk(nu, grant);
      if hp == NULL { return NULL; }
      AddedAndFreed(LiveBlocks(), hp, nu);
      AddCore(hp, nu, was);
      Free(hp);
      SmallerFits(mem, order, nunits, nu);
      p := freep;
    }

    // The scan of malloc, from the node after freep once round the list.
    method Scan(nunits: int) returns (found: bool, prevp: int, p: int, ghost i: int)
      requires Sound(Heap()) && freep in order && nunits >= 1
      ensures found ==> 1 <= i < |order| && p == order[i] && prevp == order[i - 1] && p in mem && mem[p].size >= nunits
      ensures !found ==> NoneFits(mem, order, nunits)
    {
      ListOf(Heap());
      ghost var f :| 0 <= f < |order| && order[f] == freep;
      prevp := freep;
      p := mem[prevp].ptr;
      assert Links(mem, order, f);
      i := if f + 1 < |order| then f + 1 else 0;
      while mem[p].size < nunits
        invariant 0 <= i < |order| && p == order[i] && prevp == order[if i == 0 then |order| - 1 else i - 1]
        invariant forall c :: 0 <= c < |order| && Passed(f, i, c) ==> mem[order[c]].size < nunits
        decreases if i > f then |order| - i + f else f - i
      {
        if p == freep {
          assert Less(order, i, f) && Less(order, f, i);
          return false, prevp, p, i;
        }
        assert Links(mem, order, i);
        prevp, p := p, mem[p].ptr;
        i := if i + 1 < |order| then i + 1 else 0;
      }
      return true, prevp, p, i;
    }

    // An exact fit comes off the list whole.
    method CarveWhole(prevp: int, p: int, ghost i: int)
      requires Valid() && freep != NULL && 1 <= i < |order| && p == order[i] && prevp == order[i - 1] && p in mem
      modifies this`mem, this`freep, this`order
      ensures Valid() && freep != NULL && NULL < p && p !in old(LiveBlocks())
      ensures LiveBlocks() == old(LiveBlocks())[p := old(mem)[p].size]
    {
      TakeWholeSound(Heap(), i - 1);
      mem := mem[prevp := Hdr(mem[p].ptr, mem[prevp].size)];
      order := Delete(order, i - 1);
      freep := prevp;
    }

    // A larger block gives up its tail and stays on the list.
    method CarveTail(nunits: int, prevp: int, p: int, ghost i: int) returns (b: int)
      requires Valid() && freep != NULL && 1 <= i < |order| && p == order[i] && prevp == order[i - 1]
      requires p in mem && 0 < nunits < mem[p].size
      modifies this`mem, this`freep, this`blocks
      ensures Valid() && freep != NULL && NULL < b && b !in old(LiveBlocks())
      ensures LiveBlocks() == old(LiveBlocks())[b := nunits]
    {
      var size := mem[p].size - nunits;
      b := p + size;
      var ptr := if b in mem then mem[b].ptr else NULL;
      TakeTailSound(Heap(), i, nunits, ptr);
      TakeTailLive(Heap(), i, nunits);
      mem := mem[p := Hdr(mem[p].ptr, size)];
      mem := mem[b := Hdr(ptr, nunits)];
      blocks := blocks[p := size][b := nunits];
      freep := prevp;
    }

    // The very first call sets up a list of base alone.
    method StartList()
      requires Valid()
      modifies this`mem, this`freep, this`order
      ensures Valid() && freep != NULL && LiveBlocks() == old(LiveBlocks())
    {
      if freep == NULL {
        mem := mem[base := Hdr(base, 0)];
        freep := base;
        order := [base];
        FirstList(base, mem, brk);
      }
    }

    // The loop of malloc: the first block that fits, after morecore if there is none. It goes on from
    // morecore's result, the new freep.
    method FindFit(nunits: int, grant: int) returns (found: bool, prevp: int, p: int, ghost i: int)
      requires Valid() && freep != NULL && nunits >= 1
      modifies this
      ensures Valid() && freep != NULL && LiveBlocks() == old(LiveBlocks())
      ensures found ==> 1 <= i < |order| && p == order[i] && prevp == order[i - 1] && p in mem && mem[p].size >= nunits
      ensures found ==> core == old(core) || core == old(core) + Units(old(brk) + grant, CoreUnits(nunits))
      ensures !found ==> core == old(core) && grant < 0 && NoneFits(mem, order, nunits)
    {
      found, prevp, p, i := Scan(nunits);
      if !found {
        p := Morecore(nunits, grant);
        if p != NULL {
          found, prevp, p, i := Scan(nunits);
        }
      }
    }

    // The block found leaves the list, or gives up its tail.
    method Carve(nunits: int, prevp: int, p: int, ghost i: int) returns (b: int)
      requires Valid() && freep != NULL && 1 <= i < |order| && p == order[i] && prevp == order[i - 1]
      requires p in mem && 0 < nunits <= mem[p].size
      modifies this`mem, this`freep, this`order, this`blocks
      ensures Valid() && freep != NULL && NULL < b && b !in old(LiveBlocks())
      ensures LiveBlocks() == old(LiveBlocks())[b := nunits]
    {
      b := p;
      if mem[p].size == nunits {
        CarveWhole(prevp, p, i);
      } else {
        b := CarveTail(nunits, prevp, p, i);
      }
    }

    /**
     malloc: a fresh live block big enough for the request, disjoint by Valid() from every other
     block; failure only if no free block fits and sbrk refuses. The payload starts at r = b + 1.
     */
    method Malloc(nbytes: int, grant: int) returns (r: int)
      requires Valid() && 0 <= nbytes <= MAXREQUEST
      modifies this
      ensures Valid() && freep != NULL
      ensures r != NULL ==>
        && r - 1 !in old(LiveBlocks()) && LiveBlocks() == old(LiveBlocks())[r - 1 := Nunits(nbytes)]
        && 8 * (Nunits(nbytes) - 1) >= nbytes
      ensures r == NULL ==>
        && LiveBlocks() == old(LiveBlocks()) && core == old(core) && grant < 0
        && NoneFits(mem, order, Nunits(nbytes))
      ensures core == old(core) || core == old(core) + Units(old(brk) + grant, CoreUnits(Nunits(nbytes)))
    {
      SoundRequests(nbytes);
      var nunits := ((nbytes + 7) % TWO32) / 8 + 1;
      StartList();
      var found, prevp, p;
      ghost var i;
      found, prevp, p, i := FindFit(nunits, grant);
      if !found { return NULL; }
      var b := Carve(nunits, prevp, p, i);
      r := b + 1;
    }
  }

  lemma AddedAndFreed(live: map<int, int>, b: int, n: int)
    ensures b !in live ==> live[b := n] - {b} == live
  {
  }

  lemma SmallerFits(mem: Memory, order: seq<int>, n: int, m: int)
    requires n <= m && !NoneFits(mem, order, m)
    ensures !NoneFits(mem, order, n)
  {
  }

  lemma FirstList(base: int, mem: Memory, brk: int)
    requires base in mem && mem[base] == Hdr(base, 0) && base < brk
    ensures Sound(State(base, mem, [base], map[], {}, brk)) && Live([base], map[]) == map[]
  {
    assert Good(base, mem, [base], map[], {}, brk) by {
      assert Ascending([base]) by { forall i, j ensures Less([base], i, j) {} }
      forall i ensures Apart([base], map[], i) {}
      forall i ensures Links(mem, [base], i) {}
    }
  }

  // ---------- Conservation ----------

  ghost function Pick<T>(s: set<T>): (b: T)
    requires s != {}
    ensures b in s
  {
    var x :| x in s;
    x
  }

  ghost function Total(blocks: map<int, int>): int {
    if blocks.Keys == {} then 0
    else
      var b := Pick(blocks.Keys);
      blocks[b] + Total(blocks - {b})
  }

  lemma {:induction false} UnitsCount(b: int, n: nat)
    ensures |Units(b, n)| == n
  {
    if n > 0 { UnitsCount(b, n - 1); }
  }

  lemma TilesRemove(blocks: map<int, int>, core: set<int>, b: int)
    requires Tiles(blocks, core) && b in blocks
    ensures Units(b, blocks[b]) <= core && Tiles(blocks - {b}, core - Units(b, blocks[b]))
  {
    var mine, rest := Units(b, blocks[b]), blocks - {b};
    forall u ensures u in mine <==> Covers(blocks, b, u) {}
    forall c, u ensures Covers(rest, c, u) <==> c != b && Covers(blocks, c, u) {}
    forall u | u in core - mine ensures exists c :: Covers(rest, c, u) {
      var c :| Covers(blocks, c, u);
      assert Covers(rest, c, u);
    }
  }

  lemma NothingTilesNothing(blocks: map<int, int>, core: set<int>)
    requires Tiles(blocks, core) && blocks.Keys == {}
    ensures core == {}
  {
    forall u ensures u !in core {
      assert forall b :: Covers(blocks, b, u) ==> b in blocks.Keys;
    }
  }

  lemma {:induction false} TotalIsCore(blocks: map<int, int>, core: set<int>)
    requires Tiles(blocks, core)
    ensures Total(blocks) == |core|
    decreases |blocks.Keys|
  {
    if blocks.Keys == {} {
      NothingTilesNothing(blocks, core);
    } else {
      var b := Pick(blocks.Keys);
      TilesRemove(blocks, core, b);
      assert (blocks - {b}).Keys == blocks.Keys - {b};
      TotalIsCore(blocks - {b}, core - Units(b, blocks[b]));
      UnitsCount(b, blocks[b]);
    }
  }

  ghost function Covered(blocks: map<int, int>, core: set<int>): set<int> {
    set u | u in core && exists b :: Covers(blocks, b, u)
  }

  lemma SomeTiles(blocks: map<int, int>, core: set<int>, part: map<int, int>)
    requires Tiles(blocks, core) && part.Keys <= blocks.Keys && forall b :: b in part ==> part[b] == blocks[b]
    ensures Tiles(part, Covered(part, core))
  {
    assert forall b, u :: Covers(part, b, u) ==> Covers(blocks, b, u);
  }

  /** What malloc has handed out and what is free always add up to what sbrk has given. */
  lemma Conservation(h: State)
    requires Sound(h)
    ensures Total(Live(h.order, h.blocks)) + Total(h.blocks - Live(h.order, h.blocks).Keys) == |h.core|
  {
    Unfold(h);
    var live := Live(h.order, h.blocks);
    var free := h.blocks - live.Keys;
    SomeTiles(h.blocks, h.core, live);
    SomeTiles(h.blocks, h.core, free);
    var a, b := Covered(live, h.core), Covered(free, h.core);
    TotalIsCore(live, a);
    TotalIsCore(free, b);
    Partition(h.blocks, h.core, live, free);
    assert |a + b| == |a| + |b|;
  }

  lemma Partition(blocks: map<int, int>, core: set<int>, live: map<int, int>, free: map<int, int>)
    requires Tiles(blocks, core) && live.Keys <= blocks.Keys && free == blocks - live.Keys
    requires forall b :: b in live ==> live[b] == blocks[b]
    ensures Covered(live, core) !! Covered(free, core) && Covered(live, core) + Covered(free, core) == core
  {
    forall b, u ensures Covers(blocks, b, u) <==> Covers(live, b, u) || Covers(free, b, u) {}
    forall u | u in core ensures u in Covered(live, core) + Covered(free, core) {
      var b :| Covers(blocks, b, u);
      assert Covers(live, b, u) || Covers(free, b, u);
    }
    forall u | u in Covered(live, core) ensures u !in Covered(free, core) {
      var b :| Covers(live, b, u);
      assert forall c :: Covers(free, c, u) ==> c == b;
    }
  }

  lemma FreedFits(base: int, mem: Memory, order: seq<int>, blocks: map<int, int>, core: set<int>, brk: int, k: int,
                  b: int)
    requires Good(base, mem, order, blocks, core, brk) && Between(order, k, b) && b in blocks && b !in order
    requires order[k] in mem && mem[order[k]].ptr in mem
    ensures var m, o := FreeMem(mem, order[k], b), FreeOrder(order, blocks, k, b);
      !NoneFits(m, o, blocks[b])
  {
    FreeTests(base, mem, order, blocks, core, brk, k, b);
    var m, o := FreeMem(mem, order[k], b), FreeOrder(order, blocks, k, b);
    var i := if Lower(order, blocks, k, b) then k else k + 1;
    assert o[i] == if Lower(order, blocks, k, b) then order[k] else b;
    assert forall c :: c in blocks ==> Covers(blocks, c, c) && blocks[c] >= 1;
    assert Less(order, k, k + 1);
  }
}
