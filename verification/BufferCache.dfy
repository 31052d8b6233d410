/**
 The buffer cache of bio.c: NBUF buffers on a doubly linked ring kept in order of most recent
 release, holding sectors of the disk. The cache refines the plain map `contents` from sectors to
 what was last stored in them.
 */
module BufferCache {

  const NBUF := 30

  // The ring's sentinel, bcache.head.
  const HEAD := NBUF

  type Block = seq<int>

  datatype Key = Key(dev: int, sector: int)

  datatype Buf = Buf(key: Key, busy: bool, valid: bool, dirty: bool, data: Block, prev: int, next: int)

  const NODEV := -1

  // ---------- The ring ----------

  function Around(order: seq<int>): seq<int> { [HEAD] + order + [HEAD] }

  ghost predicate Linked(bs: seq<Buf>, i: int, j: int) {
    0 <= i < |bs| && 0 <= j < |bs| && bs[i].next == j && bs[j].prev == i
  }

  ghost predicate Distinct(order: seq<int>) {
    forall i, j :: 0 <= i < j < |order| ==> order[i] != order[j]
  }

  // head.next, head.next.next, ... visits exactly `order` and returns to head, both ways round.
  ghost predicate Ring(bs: seq<Buf>, order: seq<int>) {
    && |bs| == NBUF + 1 && Distinct(order)
    && (forall i :: 0 <= i < |order| ==> 0 <= order[i] < NBUF)
    && forall i :: 0 <= i <= |order| ==> Linked(bs, Around(order)[i], Around(order)[i + 1])
  }

  function Without(order: seq<int>, k: nat): seq<int>
    requires k < |order|
  {
    order[..k] + order[k + 1..]
  }

  function Join(bs: seq<Buf>, i: int, j: int): seq<Buf>
    requires 0 <= i < |bs| && 0 <= j < |bs|
  {
    var a := bs[j := bs[j].(prev := i)];
    a[i := a[i].(next := j)]
  }

  lemma UnlinkRing(bs: seq<Buf>, order: seq<int>, k: nat)
    requires Ring(bs, order) && k < |order|
    ensures var b := bs[order[k]];
      Linked(bs, b.prev, order[k]) && Linked(bs, order[k], b.next) && Ring(Join(bs, b.prev, b.next), Without(order, k))
  {
    var e, rest := Around(order), Without(order, k);
    var f := Around(rest);
    assert Linked(bs, e[k], e[k + 1]) && Linked(bs, e[k + 1], e[k + 2]);
    assert e[k + 1] == order[k];
    var bs' := Join(bs, e[k], e[k + 2]);
    assert forall i :: 0 <= i <= k ==> f[i] == e[i];
    assert forall i :: k < i < |f| ==> f[i] == e[i + 1];
    forall i | 0 <= i <= |rest| ensures Linked(bs', f[i], f[i + 1]) {
      if i < k {
        assert Linked(bs, e[i], e[i + 1]);
      } else if i > k {
        assert Linked(bs, e[i + 1], e[i + 2]);
      }
    }
  }

  function InsertFront(bs: seq<Buf>, b: int): seq<Buf>
    requires |bs| == NBUF + 1 && 0 <= b < NBUF && 0 <= bs[HEAD].next < |bs|
  {
    Join(Join(bs, b, bs[HEAD].next), HEAD, b)
  }

  lemma InsertRing(bs: seq<Buf>, order: seq<int>, b: int)
    requires Ring(bs, order) && 0 <= b < NBUF && b !in order
    ensures Linked(bs, HEAD, Around(order)[1]) && Ring(InsertFront(bs, b), [b] + order)
  {
    var e, f := Around(order), Around([b] + order);
    assert Linked(bs, e[0], e[1]);
    var bs' := InsertFront(bs, b);
    assert forall i :: 1 <= i < |f| ==> f[i] == ([b] + e[1..])[i - 1];
    forall i | 0 <= i <= |order| + 1 ensures Linked(bs', f[i], f[i + 1]) {
      if i >= 2 {
        assert Linked(bs, e[i - 1], e[i]);
      }
    }
  }

  // ---------- What the buffers hold ----------

  ghost predicate UniqueKeys(bs: seq<Buf>) {
    |bs| == NBUF + 1 &&
    forall i, j :: 0 <= i < j < NBUF && bs[i].key == bs[j].key ==> bs[i].key.dev == NODEV
  }

  // A valid buffer holds what was last stored; a sector with no dirty buffer is on disk as stored.
  ghost predicate Coherent(bs: seq<Buf>, disk: map<Key, Block>, contents: map<Key, Block>) {
    && |bs| == NBUF + 1 && disk.Keys == contents.Keys && (forall k :: k in disk ==> k.dev != NODEV)
    && (forall i :: 0 <= i < NBUF && bs[i].valid ==> bs[i].key in disk && bs[i].data == contents[bs[i].key])
    && (forall i :: 0 <= i < NBUF && bs[i].dirty ==> bs[i].valid)
    && forall k :: k in disk && (forall i :: 0 <= i < NBUF && bs[i].key == k ==> !bs[i].dirty) ==>
      disk[k] == contents[k]
  }

  ghost predicate Complete(order: seq<int>) {
    |order| == NBUF && forall b :: 0 <= b < NBUF ==> b in order
  }

  // Sorted by time of last release, the most recent first.
  ghost predicate Recency(order: seq<int>, stamp: seq<int>, now: int) {
    && |stamp| == NBUF
    && (forall i :: 0 <= i < |order| ==> 0 <= order[i] < NBUF && stamp[order[i]] < now)
    && forall i, j :: 0 <= i < j < |order| ==> stamp[order[i]] > stamp[order[j]]
  }

  lemma MoveToFront(order: seq<int>, k: nat, stamp: seq<int>, now: int)
    requires Distinct(order) && Complete(order) && Recency(order, stamp, now) && k < |order|
    ensures var o, b := [order[k]] + Without(order, k), order[k];
      Complete(o) && Recency(o, stamp[b := now], now + 1) && order[k] !in Without(order, k)
  {
    var b, rest := order[k], Without(order, k);
    var o := [b] + rest;
    assert forall i :: 0 <= i < |rest| ==> rest[i] == order[if i < k then i else i + 1];
    forall c | 0 <= c < NBUF ensures c in o {
      assert c in order;
      var i :| 0 <= i < |order| && order[i] == c;
      if i != k { assert rest[if i < k then i else i - 1] == c; }
    }
  }

  // A clean idle buffer can be given away without losing anything stored.
  lemma RecycleCoherent(bs: seq<Buf>, disk: map<Key, Block>, contents: map<Key, Block>, b: int, k: Key)
    requires Coherent(bs, disk, contents) && UniqueKeys(bs) && 0 <= b < NBUF && !bs[b].dirty
    requires forall i :: 0 <= i < NBUF ==> bs[i].key != k
    ensures var bs' := bs[b := bs[b].(key := k, busy := true, valid := false, dirty := false)];
      Coherent(bs', disk, contents) && UniqueKeys(bs')
  {
    var bs' := bs[b := bs[b].(key := k, busy := true, valid := false, dirty := false)];
    forall k' | k' in disk && forall i :: 0 <= i < NBUF && bs'[i].key == k' ==> !bs'[i].dirty
      ensures disk[k'] == contents[k']
    {
      assert forall i :: 0 <= i < NBUF && bs[i].key == k' ==> !bs[i].dirty by {
        assert forall i :: 0 <= i < NBUF && i != b ==> bs'[i] == bs[i];
      }
    }
  }

  // Filling the only buffer of a sector, from disk or with a new value.
  lemma FillCoherent(bs: seq<Buf>, disk: map<Key, Block>, contents: map<Key, Block>, b: int, data: Block,
                     disk': map<Key, Block>, dirty: bool)
    requires Coherent(bs, disk, contents) && UniqueKeys(bs) && 0 <= b < NBUF && bs[b].key in disk
    requires disk' == if dirty then disk else disk[bs[b].key := data]
    ensures var bs' := bs[b := bs[b].(data := data, valid := true, dirty := dirty)];
      Coherent(bs', disk', contents[bs[b].key := data]) && UniqueKeys(bs')
  {
    var bs' := bs[b := bs[b].(data := data, valid := true, dirty := dirty)];
    var contents' := contents[bs[b].key := data];
    assert forall i :: 0 <= i < NBUF && i != b ==> bs'[i] == bs[i] && bs[i].key != bs[b].key;
    forall k | k in disk' && forall i :: 0 <= i < NBUF && bs'[i].key == k ==> !bs'[i].dirty
      ensures disk'[k] == contents'[k]
    {
      if k != bs[b].key {
        assert forall i :: 0 <= i < NBUF && bs[i].key == k ==> !bs[i].dirty;
      } else {
        assert bs'[b].key == k;
      }
    }
  }

  lemma RelinkCoherent(bs: seq<Buf>, bs': seq<Buf>, disk: map<Key, Block>, contents: map<Key, Block>)
    requires Coherent(bs, disk, contents) && UniqueKeys(bs) && |bs'| == NBUF + 1
    requires forall i :: 0 <= i < NBUF ==>
      bs'[i].key == bs[i].key && bs'[i].valid == bs[i].valid && bs'[i].dirty == bs[i].dirty && bs'[i].data == bs[i].data
    ensures Coherent(bs', disk, contents) && UniqueKeys(bs')
  {
    forall k | k in disk && forall i :: 0 <= i < NBUF && bs'[i].key == k ==> !bs'[i].dirty
      ensures disk[k] == contents[k]
    {
      assert forall i :: 0 <= i < NBUF && bs[i].key == k ==> !bs[i].dirty;
    }
  }

  datatype Got = Found(b: int) | MustSleep(b: int) | NoBuffers

  // The buffer found was idle and is busy now, for k; it held k, or it was clean and nobody held k. The
  // others are as they were. Without a buffer nothing changes: k is busy, or every buffer is in use.
  ghost predicate FetchedAt(bs: seq<Buf>, bs': seq<Buf>, k: Key, r: Got, z: int) {
    && |bs| == |bs'| == NBUF + 1
    && match r
       case Found(b) =>
         && 0 <= b < NBUF && !bs[b].busy && bs'[b].busy && bs'[b].key == k
         && (forall i :: 0 <= i < NBUF && i != b ==> bs'[i] == bs[i])
         && if bs[b].key == k then bs'[b].dirty == bs[b].dirty
            else
              && !bs[b].dirty && !bs'[b].dirty && |InUse(bs)| < NBUF
              && forall i :: 0 <= i < NBUF ==> bs[i].key != k
       case MustSleep(b) => bs' == bs && 0 <= b < NBUF && bs[b].key == k && bs[b].busy
       case NoBuffers => bs' == bs && |InUse(bs)| == NBUF && forall i :: 0 <= i < NBUF ==> bs[i].key != k
  }

  // Quantified over an unused z so that the verifier unfolds it only where asked to.
  ghost predicate Fetched(bs: seq<Buf>, bs': seq<Buf>, k: Key, r: Got) {
    forall z {:trigger FetchedAt(bs, bs', k, r, z)} :: FetchedAt(bs, bs', k, r, z)
  }

  // ---------- Buffers in use ----------

  // The buffers that bget may not recycle.
  function InUse(bs: seq<Buf>): set<int> { set i | 0 <= i < NBUF && i < |bs| && (bs[i].busy || bs[i].dirty) }

  lemma {:induction false} SizeBelow(a: set<int>, n: nat)
    requires forall x :: x in a ==> 0 <= x < n
    ensures |a| <= n && (|a| == n <==> forall x :: 0 <= x < n ==> x in a)
    decreases n
  {
    if n == 0 {
      forall x ensures x !in a {}
      assert a == {};
    } else {
      var b := a - {n - 1};
      SizeBelow(b, n - 1);
      assert n - 1 in a || b == a;
      assert forall x :: 0 <= x < n - 1 ==> (x in a <==> x in b);
    }
  }

  lemma AllInUse(bs: seq<Buf>)
    requires |bs| == NBUF + 1
    ensures |InUse(bs)| <= NBUF
    ensures |InUse(bs)| == NBUF <==> forall i :: 0 <= i < NBUF ==> bs[i].busy || bs[i].dirty
  {
    SizeBelow(InUse(bs), NBUF);
    forall i | 0 <= i < NBUF ensures i in InUse(bs) <==> bs[i].busy || bs[i].dirty {}
  }

  class Cache {
    const buf: array<Buf>          // bcache.buf, with bcache.head at index HEAD
    var disk: map<Key, Block>
    ghost var order: seq<int>      // the ring, starting at head.next
    ghost var stamp: seq<int>      // when each buffer was last released
    ghost var now: int
    ghost var contents: map<Key, Block>
    ghost var writes: seq<(Key, Block)> // the disk writes so far, in order

    ghost predicate Valid()
      reads this, buf
    {
      && buf.Length == NBUF + 1
      && Ring(buf[..], order) && Complete(order) && Recency(order, stamp, now)
      && Coherent(buf[..], disk, contents) && UniqueKeys(buf[..])
    }

    /** binit: every buffer on the ring, none of them holding a sector. */
    constructor (disk: map<Key, Block>)
      requires forall k :: k in disk ==> k.dev != NODEV
      ensures Valid() && fresh(buf) && this.disk == disk && contents == disk && writes == []
      ensures forall i :: 0 <= i < NBUF ==> !buf[i].busy && !buf[i].valid && !buf[i].dirty
    {
      var bs;
      ghost var o;
      bs, o := Binit();
      buf, order := bs, o;
      this.disk, contents := disk, disk;
      stamp, now, writes := seq(NBUF, i => i), NBUF, [];
      new;
      InitialOrder(order, stamp);
    }

    // The first loop of bget: the buffer holding k, or HEAD.
    method FindCached(k: Key) returns (b: int)
      requires Valid()
      ensures 0 <= b <= HEAD
      ensures b == HEAD ==> forall i :: 0 <= i < NBUF ==> buf[i].key != k
      ensures b != HEAD ==> buf[b].key == k
    {
      ghost var n := 0;
      assert Linked(buf[..], Around(order)[0], Around(order)[1]);
      b := buf[HEAD].next;
      while b != HEAD && buf[b].key != k
        invariant 0 <= n <= NBUF && b == Around(order)[n + 1] && 0 <= b <= HEAD
        invariant forall i :: 0 <= i < n ==> buf[order[i]].key != k
        decreases NBUF - n
      {
        assert Linked(buf[..], Around(order)[n + 1], Around(order)[n + 2]);
        b := buf[b].next;
        n := n + 1;
      }
      if b == HEAD {
        forall i | 0 <= i < NBUF ensures buf[i].key != k { OnRing(order, i); }
      }
    }

    // The second loop of bget: the clean idle buffer nearest the ring's tail, or HEAD.
    method FindVictim() returns (b: int)
      requires Valid()
      ensures 0 <= b <= HEAD
      ensures b == HEAD ==> forall i :: 0 <= i < NBUF ==> buf[i].busy || buf[i].dirty
      ensures b != HEAD ==> !buf[b].busy && !buf[b].dirty
      ensures b != HEAD ==> forall i :: 0 <= i < NBUF && !buf[i].busy && !buf[i].dirty ==> stamp[b] <= stamp[i]
    {
      ghost var n := NBUF;
      assert Linked(buf[..], Around(order)[NBUF], Around(order)[NBUF + 1]);
      b := buf[HEAD].prev;
      while b != HEAD && (buf[b].busy || buf[b].dirty)
        invariant 0 <= n <= NBUF && b == Around(order)[n] && 0 <= b <= HEAD
        invariant forall i :: n <= i < NBUF ==> buf[order[i]].busy || buf[order[i]].dirty
        decreases n
      {
        assert Linked(buf[..], Around(order)[n - 1], Around(order)[n]);
        b := buf[b].prev;
        n := n - 1;
      }
      forall i | 0 <= i < NBUF && !buf[i].busy && !buf[i].dirty
        ensures b != HEAD && stamp[b] <= stamp[i]
      {
        OnRing(order, i);
      }
    }

    /** bget: a hit, or the least recently released clean idle buffer; nothing stored is lost. */
    method Bget(k: Key) returns (r: Got)
      requires Valid() && k.dev != NODEV
      modifies buf
      ensures Valid()
      ensures r.Found? ==>
        && 0 <= r.b < NBUF && !old(buf[r.b]).busy
        && (if old(buf[r.b]).key == k then buf[r.b] == old(buf[r.b]).(busy := true)
            else
              && buf[r.b] == old(buf[r.b]).(key := k, busy := true, valid := false, dirty := false)
              && !old(buf[r.b]).dirty && (forall i :: 0 <= i < NBUF ==> old(buf[i]).key != k)
              && forall i :: 0 <= i < NBUF && !old(buf[i]).busy && !old(buf[i]).dirty ==> stamp[r.b] <= stamp[i])
        && forall i :: 0 <= i < NBUF && i != r.b ==> buf[i] == old(buf[i])
      ensures r.MustSleep? ==> 0 <= r.b < NBUF && buf[r.b].key == k && buf[r.b].busy
      ensures r.NoBuffers? ==> forall i :: 0 <= i < NBUF ==> buf[i].key != k
      ensures r.NoBuffers? ==> |InUse(old(buf[..]))| == NBUF
      ensures r.Found? && old(buf[r.b]).key != k ==> |InUse(old(buf[..]))| < NBUF
      ensures !r.Found? ==> buf[..] == old(buf[..])
    {
      AllInUse(buf[..]);
      var b := FindCached(k);
      if b != HEAD {
        if buf[b].busy { return MustSleep(b); }
        ghost var after := buf[..][b := buf[b].(busy := true)];
        RelinkCoherent(buf[..], after, disk, contents);
        SameLinks(buf[..], after, order);
        buf[b] := buf[b].(busy := true);
        assert buf[..] == after;
        return Found(b);
      }
      b := FindVictim();
      if b == HEAD { return NoBuffers; }
      ghost var after := buf[..][b := buf[b].(key := k, busy := true, valid := false, dirty := false)];
      RecycleCoherent(buf[..], disk, contents, b, k);
      SameLinks(buf[..], after, order);
      buf[b] := buf[b].(key := k, busy := true, valid := false, dirty := false);
      assert buf[..] == after;
      return Found(b);
    }

    /** A successful bread hands out a busy buffer with what was last stored in the sector. */
    method Bread(k: Key) returns (r: Got)
      requires Valid() && k in disk
      modifies buf
      ensures Valid()
      ensures Fetched(old(buf[..]), buf[..], k, r) && k in contents
      ensures r.Found? ==> 0 <= r.b < NBUF && buf[r.b].valid && buf[r.b].data == contents[k]
    {
      r := Bget(k);
      if r.Found? && !buf[r.b].valid {
        // iderw, reading
        var b := r.b;
        ghost var after := buf[..][b := buf[b].(data := disk[k], valid := true)];
        NotDirty(buf[..], disk, contents, b);
        assert disk[k := disk[k]] == disk && contents[k := disk[k]] == contents;
        FillCoherent(buf[..], disk, contents, b, disk[k], disk, false);
        SameLinks(buf[..], after, order);
        buf[b] := buf[b].(data := disk[k], valid := true);
        assert buf[..] == after;
      }
    }

    /** The holder changes the data and calls log_write: the block is stored and pinned. */
    method Store(b: int, data: Block)
      requires Valid() && 0 <= b < NBUF && buf[b].busy && buf[b].key in disk
      modifies buf, this`contents
      ensures Valid() && contents == old(contents)[buf[b].key := data]
      ensures buf[b] == old(buf[b]).(data := data, valid := true, dirty := true)
      ensures forall i :: 0 <= i < NBUF && i != b ==> buf[i] == old(buf[i])
    {
      ghost var after := buf[..][b := buf[b].(data := data, valid := true, dirty := true)];
      FillCoherent(buf[..], disk, contents, b, data, disk, true);
      SameLinks(buf[..], after, order);
      buf[b] := buf[b].(data := data, valid := true, dirty := true);
      contents := contents[buf[b].key := data];
      assert buf[..] == after;
    }

    /** The holder changes the data and calls bwrite: the block is stored and on disk. */
    method Bwrite(b: int, data: Block)
      requires Valid() && 0 <= b < NBUF && buf[b].busy && buf[b].key in disk
      modifies buf, this`contents, this`disk, this`writes
      ensures Valid() && contents == old(contents)[buf[b].key := data]
      ensures writes == old(writes) + [(buf[b].key, data)]
      ensures disk == old(disk)[buf[b].key := data]
      ensures buf[b] == old(buf[b]).(data := data, valid := true, dirty := false)
      ensures forall i :: 0 <= i < NBUF && i != b ==> buf[i] == old(buf[i])
    {
      ghost var after := buf[..][b := buf[b].(data := data, valid := true, dirty := false)];
      FillCoherent(buf[..], disk, contents, b, data, disk[buf[b].key := data], false);
      SameLinks(buf[..], after, order);
      buf[b] := buf[b].(data := data, valid := true, dirty := false);
      disk := disk[buf[b].key := data];
      contents := contents[buf[b].key := data];
      writes := writes + [(buf[b].key, data)];
      assert buf[..] == after;
    }

    /** brelse: idle again, and at the front of the ring, the others in the order they were. */
    method Brelse(b: int)
      requires Valid() && 0 <= b < NBUF && buf[b].busy
      modifies buf, this`order, this`stamp, this`now
      ensures Valid()
      ensures !buf[b].busy && order[0] == b && stamp == old(stamp)[b := old(now)] && now == old(now) + 1
      ensures SameBufs(old(buf[..])[b := old(buf[b]).(busy := false)], buf[..])
    {
      ghost var was := buf[..];
      OnRing(order, b);
      ghost var k :| 0 <= k < NBUF && order[k] == b;
      MoveToFront(order, k, stamp, now);
      Relink(buf, b, order, k);
      order, stamp, now := [b] + Without(order, k), stamp[b := now], now + 1;
      ReleaseKeeps(was, buf[..], b, order, disk, contents);
      ghost var released := buf[..][b := buf[b].(busy := false)];
      buf[b] := buf[b].(busy := false);
      assert buf[..] == released;
    }
  }

  method LinkFront(buf: array<Buf>, b: int)
    requires buf.Length == NBUF + 1 && 0 <= b < NBUF
    requires 0 <= buf[HEAD].next < buf.Length && buf[HEAD].next != b
    modifies buf
    ensures buf[..] == InsertFront(old(buf[..]), b)
  {
    var first := buf[HEAD].next;
    buf[b] := buf[b].(next := first);
    buf[b] := buf[b].(prev := HEAD);
    buf[first] := buf[first].(prev := b);
    buf[HEAD] := buf[HEAD].(next := b);
  }

  method Unlink(buf: array<Buf>, b: int)
    requires buf.Length == NBUF + 1 && 0 <= b < NBUF
    requires 0 <= buf[b].next < buf.Length && 0 <= buf[b].prev < buf.Length && buf[b].next != b
    modifies buf
    ensures buf[..] == Join(old(buf[..]), old(buf[b]).prev, old(buf[b]).next)
  {
    var n := buf[b].next;
    buf[n] := buf[n].(prev := buf[b].prev);
    var p := buf[b].prev;
    buf[p] := buf[p].(next := buf[b].next);
  }

  predicate SameBufs(bs: seq<Buf>, bs': seq<Buf>) {
    && |bs| == |bs'| == NBUF + 1
    && forall i :: 0 <= i < NBUF ==>
         && bs'[i].key == bs[i].key && bs'[i].valid == bs[i].valid && bs'[i].data == bs[i].data
         && bs'[i].dirty == bs[i].dirty && bs'[i].busy == bs[i].busy
  }

  lemma JoinSame(bs: seq<Buf>, i: int, j: int)
    requires |bs| == NBUF + 1 && 0 <= i <= HEAD && 0 <= j <= HEAD
    ensures SameBufs(bs, Join(bs, i, j))
  {
  }

  lemma ReleaseKeeps(was: seq<Buf>, relinked: seq<Buf>, b: int, order: seq<int>,
                     disk: map<Key, Block>, contents: map<Key, Block>)
    requires Coherent(was, disk, contents) && UniqueKeys(was) && 0 <= b < NBUF
    requires SameBufs(was, relinked) && Ring(relinked, order)
    ensures var released := relinked[b := relinked[b].(busy := false)];
      && Coherent(released, disk, contents) && UniqueKeys(released) && Ring(released, order)
      && SameBufs(was[b := was[b].(busy := false)], released)
  {
    var released := relinked[b := relinked[b].(busy := false)];
    RelinkCoherent(was, released, disk, contents);
    SameLinks(relinked, released, order);
  }

  lemma RelinkRing(bs: seq<Buf>, order: seq<int>, k: nat)
    requires Ring(bs, order) && k < |order|
    ensures var b := order[k];
      && 0 <= bs[b].next <= HEAD && 0 <= bs[b].prev <= HEAD && bs[b].next != b
      && var unlinked := Join(bs, bs[b].prev, bs[b].next);
      && 0 <= unlinked[HEAD].next <= HEAD && unlinked[HEAD].next != b
      && Ring(InsertFront(unlinked, b), [b] + Without(order, k)) && SameBufs(bs, InsertFront(unlinked, b))
  {
    var b := order[k];
    UnlinkRing(bs, order, k);
    NoSelfLink(bs, order, k);
    var unlinked := Join(bs, bs[b].prev, bs[b].next);
    InsertRing(unlinked, Without(order, k), b);
    JoinSame(bs, bs[b].prev, bs[b].next);
    JoinSame(unlinked, b, unlinked[HEAD].next);
    JoinSame(Join(unlinked, b, unlinked[HEAD].next), HEAD, b);
  }

  // The pointer writes of brelse.
  method Relink(buf: array<Buf>, b: int, ghost order: seq<int>, ghost k: nat)
    requires buf.Length == NBUF + 1 && Ring(buf[..], order) && k < |order| && order[k] == b
    modifies buf
    ensures Ring(buf[..], [b] + Without(order, k)) && SameBufs(old(buf[..]), buf[..])
  {
    RelinkRing(buf[..], order, k);
    Unlink(buf, b);
    LinkFront(buf, b);
  }

  lemma NoSelfLink(bs: seq<Buf>, order: seq<int>, k: nat)
    requires Ring(bs, order) && k < |order|
    ensures bs[order[k]].next != order[k] && order[k] !in Without(order, k)
  {
    var e := Around(order);
    assert e[k + 1] == order[k] && Linked(bs, e[k + 1], e[k + 2]);
    assert forall i :: 0 <= i < |Without(order, k)| ==> Without(order, k)[i] == order[if i < k then i else i + 1];
  }

  method Binit() returns (buf: array<Buf>, ghost order: seq<int>)
    ensures fresh(buf) && buf.Length == NBUF + 1 && Ring(buf[..], order)
    ensures |order| == NBUF && forall i :: 0 <= i < NBUF ==> order[i] == NBUF - 1 - i
    ensures forall i :: 0 <= i < NBUF ==> !buf[i].busy && !buf[i].valid && !buf[i].dirty && buf[i].key.dev == NODEV
  {
    buf := new Buf[NBUF + 1](_ => Buf(Key(0, 0), false, false, false, [], HEAD, HEAD));
    order := [];
    var b := 0;
    while b < NBUF
      invariant 0 <= b <= NBUF && Ring(buf[..], order)
      invariant |order| == b && forall i :: 0 <= i < b ==> order[i] == b - 1 - i
      invariant forall i :: 0 <= i < NBUF ==> !buf[i].busy && !buf[i].valid && !buf[i].dirty
      invariant forall i :: 0 <= i < b ==> buf[i].key.dev == NODEV
    {
      ghost var was := buf[..];
      buf[b] := buf[b].(key := Key(NODEV, 0));
      SameLinks(was, buf[..], order);
      InsertRing(buf[..], order, b);
      LinkFront(buf, b);
      order := [b] + order;
      b := b + 1;
    }
  }

  lemma OnRing(order: seq<int>, b: int)
    requires Complete(order) && 0 <= b < NBUF
    ensures exists k :: 0 <= k < NBUF && order[k] == b
  {
    assert b in order;
  }

  lemma NotDirty(bs: seq<Buf>, disk: map<Key, Block>, contents: map<Key, Block>, b: int)
    requires Coherent(bs, disk, contents) && UniqueKeys(bs) && 0 <= b < NBUF && !bs[b].valid && bs[b].key in disk
    ensures !bs[b].dirty && disk[bs[b].key] == contents[bs[b].key]
  {
    assert forall i :: 0 <= i < NBUF && bs[i].key == bs[b].key ==> i == b;
  }

  lemma InitialOrder(order: seq<int>, stamp: seq<int>)
    requires |order| == NBUF && forall i :: 0 <= i < NBUF ==> order[i] == NBUF - 1 - i
    requires |stamp| == NBUF && forall i :: 0 <= i < NBUF ==> stamp[i] == i
    ensures Complete(order) && Recency(order, stamp, NBUF)
  {
    forall b | 0 <= b < NBUF ensures b in order {
      assert order[NBUF - 1 - b] == b;
    }
  }

  lemma SameLinks(bs: seq<Buf>, bs': seq<Buf>, order: seq<int>)
    requires Ring(bs, order) && |bs'| == |bs|
    requires forall i :: 0 <= i < |bs| ==> bs'[i].prev == bs[i].prev && bs'[i].next == bs[i].next
    ensures Ring(bs', order)
  {
    forall i | 0 <= i <= |order| ensures Linked(bs', Around(order)[i], Around(order)[i + 1]) {
      assert Linked(bs, Around(order)[i], Around(order)[i + 1]);
    }
  }
}
