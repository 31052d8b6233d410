/**
 What a user of the buffer cache needs of it: which sectors are busy and which are pinned, what they
 hold, and when bread finds a buffer.
 */
module CacheUse {
  import opened BufferCache

  function BusyKeys(bs: seq<Buf>): set<Key> { set i | 0 <= i < NBUF && i < |bs| && bs[i].busy :: bs[i].key }

  function DirtyKeys(bs: seq<Buf>): set<Key> { set i | 0 <= i < NBUF && i < |bs| && bs[i].dirty :: bs[i].key }

  ghost predicate GoodAt(c: Cache, z: int)
    reads c, c.buf
  {
    c.Valid() && BusyKeys(c.buf[..]) <= c.disk.Keys
  }

  // A consistent cache whose busy buffers hold sectors; quantified over an unused z so that the
  // verifier unfolds it only where asked to.
  ghost predicate Good(c: Cache)
    reads c, c.buf
  {
    forall z {:trigger GoodAt(c, z)} :: GoodAt(c, z)
  }

  ghost function Pick<T>(s: set<T>): (x: T)
    requires s != {}
    ensures x in s
  {
    var x :| x in s;
    x
  }

  function KeysOf(bs: seq<Buf>, a: set<int>): set<Key>
    requires forall i :: i in a ==> 0 <= i < |bs|
  {
    set i | i in a :: bs[i].key
  }

  lemma {:induction false} KeysCount(bs: seq<Buf>, a: set<int>)
    requires forall i :: i in a ==> 0 <= i < |bs|
    requires forall i, j :: i in a && j in a && i != j ==> bs[i].key != bs[j].key
    ensures |KeysOf(bs, a)| == |a|
  {
    if a == {} {
      assert KeysOf(bs, a) == {};
    } else {
      var i := Pick(a);
      var b := a - {i};
      KeysCount(bs, b);
      assert KeysOf(bs, a) == KeysOf(bs, b) + {bs[i].key};
    }
  }

  // The busy and the pinned sectors are as many as the buffers bget may not recycle.
  lemma UsedCount(c: Cache)
    requires Good(c)
    ensures c.buf.Length == NBUF + 1 && |BusyKeys(c.buf[..]) + DirtyKeys(c.buf[..])| == |InUse(c.buf[..])| <= NBUF
  {
    assert GoodAt(c, 0);
    var bs := c.buf[..];
    AllInUse(bs);
    assert BusyKeys(bs) + DirtyKeys(bs) == KeysOf(bs, InUse(bs));
    forall i | i in InUse(bs) ensures bs[i].key.dev != NODEV {
      if bs[i].busy { assert bs[i].key in BusyKeys(bs); }
    }
    KeysCount(bs, InUse(bs));
  }

  lemma CleanSame(c: Cache, k: Key)
    requires Good(c)
    ensures c.disk.Keys == c.contents.Keys
    ensures k in c.disk && k !in DirtyKeys(c.buf[..]) ==> c.disk[k] == c.contents[k]
  {
    assert GoodAt(c, 0);
  }

  // The buffer is busy for its holder, with what was last stored in sector k.
  ghost predicate Holds(c: Cache, b: int, k: Key)
    reads c, c.buf
  {
    && 0 <= b < NBUF && b < c.buf.Length && c.buf[b].key == k && c.buf[b].busy && c.buf[b].valid
    && k in c.contents && c.buf[b].data == c.contents[k]
  }

  // Somebody else's busy buffer is as it was.
  predicate StaysAt(bs: seq<Buf>, bs': seq<Buf>, i: int) {
    0 <= i < NBUF && i < |bs| && i < |bs'| && bs[i].busy ==>
      bs'[i].key == bs[i].key && bs'[i].busy && bs'[i].valid == bs[i].valid && bs'[i].data == bs[i].data
  }

  ghost predicate Stays(bs: seq<Buf>, bs': seq<Buf>, b: int) {
    |bs'| == |bs| && forall i {:trigger StaysAt(bs, bs', i)} :: i != b ==> StaysAt(bs, bs', i)
  }

  lemma BusyIff(bs: seq<Buf>, bs': seq<Buf>, k: Key, r: Got)
    requires Fetched(bs, bs', k, r) && UniqueKeys(bs) && k.dev != NODEV
    ensures r.MustSleep? <==> k in BusyKeys(bs)
    ensures r.NoBuffers? <==> k !in BusyKeys(bs) + DirtyKeys(bs) && |InUse(bs)| == NBUF
  {
    assert FetchedAt(bs, bs', k, r, 0);
    AllInUse(bs);
    if k in BusyKeys(bs) { var i :| 0 <= i < NBUF && bs[i].busy && bs[i].key == k; }
    if k in DirtyKeys(bs) { var i :| 0 <= i < NBUF && bs[i].dirty && bs[i].key == k; }
  }

  lemma BusyAfter(bs: seq<Buf>, bs': seq<Buf>, k: Key, r: Got)
    requires Fetched(bs, bs', k, r)
    ensures BusyKeys(bs') == BusyKeys(bs) + (if r.Found? then {k} else {}) && DirtyKeys(bs') == DirtyKeys(bs)
    ensures Stays(bs, bs', if r.Found? then r.b else -1)
    ensures r.Found? ==> 0 <= r.b < |bs| && r.b < |bs'| && !bs[r.b].busy && bs'[r.b].busy && bs'[r.b].key == k
  {
    assert FetchedAt(bs, bs', k, r, 0);
    forall x ensures x in BusyKeys(bs') <==> x in BusyKeys(bs) || (r.Found? && x == k) {
      if x in BusyKeys(bs) {
        var i :| 0 <= i < NBUF && bs[i].busy && bs[i].key == x;
        assert bs'[i].busy && bs'[i].key == x;
      }
      if r.Found? && x == k { assert bs'[r.b].key == x; }
    }
    forall x ensures x in DirtyKeys(bs') <==> x in DirtyKeys(bs) {
      if x in DirtyKeys(bs) {
        var i :| 0 <= i < NBUF && bs[i].dirty && bs[i].key == x;
        assert bs'[i].dirty && bs'[i].key == x;
      }
    }
  }

  /**
   bread: sleeps exactly on a busy sector, and panics exactly on one that is neither busy nor pinned
   when NBUF sectors are. Otherwise the sector is busy now, with what was last stored in it.
   */
  method Get(c: Cache, k: Key) returns (r: Got)
    requires Good(c) && k in c.disk
    modifies c.buf
    ensures Good(c) && DirtyKeys(c.buf[..]) == old(DirtyKeys(c.buf[..]))
    ensures var busy, dirty := old(BusyKeys(c.buf[..])), DirtyKeys(c.buf[..]);
      && (r.MustSleep? <==> k in busy)
      && (r.NoBuffers? <==> k !in busy + dirty && |busy + dirty| >= NBUF)
      && BusyKeys(c.buf[..]) == busy + if r.Found? then {k} else {}
    ensures r.Found? ==> Holds(c, r.b, k) && !old(c.buf[..])[r.b].busy
    ensures Stays(old(c.buf[..]), c.buf[..], if r.Found? then r.b else -1)
  {
    assert GoodAt(c, 0);
    UsedCount(c);
    ghost var bs := c.buf[..];
    r := c.Bread(k);
    BusyIff(bs, c.buf[..], k, r);
    BusyAfter(bs, c.buf[..], k, r);
  }

  lemma IdleAfter(bs: seq<Buf>, bs': seq<Buf>, b: int)
    requires |bs| == NBUF + 1 && 0 <= b < NBUF && UniqueKeys(bs) && bs[b].key.dev != NODEV
    requires SameBufs(bs[b := bs[b].(busy := false)], bs')
    ensures BusyKeys(bs') == BusyKeys(bs) - {bs[b].key} && DirtyKeys(bs') == DirtyKeys(bs)
  {
    forall x ensures x in BusyKeys(bs') <==> x in BusyKeys(bs) && x != bs[b].key {
      if x in BusyKeys(bs) && x != bs[b].key {
        var i :| 0 <= i < NBUF && bs[i].busy && bs[i].key == x;
        assert bs'[i].busy && bs'[i].key == x;
      }
    }
    forall x ensures x in DirtyKeys(bs') <==> x in DirtyKeys(bs) {
      if x in DirtyKeys(bs) {
        var i :| 0 <= i < NBUF && bs[i].dirty && bs[i].key == x;
        assert bs'[i].dirty && bs'[i].key == x;
      }
    }
  }

  /** brelse: the sector is no longer busy. */
  method Put(c: Cache, b: int)
    requires Good(c) && 0 <= b < NBUF && b < c.buf.Length && c.buf[b].busy && c.buf[b].key in c.disk
    modifies c.buf, c`order, c`stamp, c`now
    ensures Good(c) && DirtyKeys(c.buf[..]) == old(DirtyKeys(c.buf[..]))
    ensures BusyKeys(c.buf[..]) == old(BusyKeys(c.buf[..])) - {old(c.buf[b]).key}
    ensures Stays(old(c.buf[..]), c.buf[..], b)
  {
    assert GoodAt(c, 0);
    ghost var bs := c.buf[..];
    c.Brelse(b);
    IdleAfter(bs, c.buf[..], b);
  }

  lemma CleanAfter(bs: seq<Buf>, bs': seq<Buf>, b: int)
    requires |bs| == |bs'| == NBUF + 1 && 0 <= b < NBUF && UniqueKeys(bs) && bs[b].key.dev != NODEV
    requires bs'[b].key == bs[b].key && bs'[b].busy == bs[b].busy && !bs'[b].dirty
    requires forall i :: 0 <= i < NBUF && i != b ==> bs'[i] == bs[i]
    ensures BusyKeys(bs') == BusyKeys(bs) && DirtyKeys(bs') == DirtyKeys(bs) - {bs[b].key}
  {
    forall x ensures x in BusyKeys(bs') <==> x in BusyKeys(bs) {
      if x in BusyKeys(bs) {
        var i :| 0 <= i < NBUF && bs[i].busy && bs[i].key == x;
        assert bs'[i].busy && bs'[i].key == x;
      }
    }
    forall x ensures x in DirtyKeys(bs') <==> x in DirtyKeys(bs) && x != bs[b].key {
      if x in DirtyKeys(bs) && x != bs[b].key {
        var i :| 0 <= i < NBUF && bs[i].dirty && bs[i].key == x;
        assert bs'[i].dirty && bs'[i].key == x;
      }
    }
  }

  /** bwrite by the holder: the block is stored, on disk, and no longer pinned. */
  method WriteOut(c: Cache, b: int, data: Block)
    requires Good(c) && 0 <= b < NBUF && b < c.buf.Length && c.buf[b].busy && c.buf[b].key in c.disk
    modifies c.buf, c`contents, c`disk, c`writes
    ensures Good(c) && BusyKeys(c.buf[..]) == old(BusyKeys(c.buf[..]))
    ensures c.writes == old(c.writes) + [(old(c.buf[b]).key, data)]
    ensures DirtyKeys(c.buf[..]) == old(DirtyKeys(c.buf[..])) - {old(c.buf[b]).key}
    ensures c.contents == old(c.contents)[old(c.buf[b]).key := data] && c.disk == old(c.disk)[old(c.buf[b]).key := data]
    ensures c.buf[b].key == old(c.buf[b]).key && c.buf[b].busy && Stays(old(c.buf[..]), c.buf[..], b)
    ensures c.disk.Keys == old(c.disk).Keys
  {
    assert GoodAt(c, 0);
    ghost var bs := c.buf[..];
    c.Bwrite(b, data);
    assert c.disk.Keys == old(c.disk).Keys;
    CleanAfter(bs, c.buf[..], b);
  }

  lemma PinnedAfter(bs: seq<Buf>, bs': seq<Buf>, b: int)
    requires |bs| == |bs'| == NBUF + 1 && 0 <= b < NBUF
    requires bs'[b].key == bs[b].key && bs'[b].busy == bs[b].busy && bs'[b].dirty
    requires forall i :: 0 <= i < NBUF && i != b ==> bs'[i] == bs[i]
    ensures BusyKeys(bs') == BusyKeys(bs) && DirtyKeys(bs') == DirtyKeys(bs) + {bs[b].key}
  {
    forall x ensures x in BusyKeys(bs') <==> x in BusyKeys(bs) {
      if x in BusyKeys(bs) {
        var i :| 0 <= i < NBUF && bs[i].busy && bs[i].key == x;
        assert bs'[i].busy && bs'[i].key == x;
      }
    }
    forall x ensures x in DirtyKeys(bs') <==> x in DirtyKeys(bs) || x == bs[b].key {
      if x in DirtyKeys(bs) {
        var i :| 0 <= i < NBUF && bs[i].dirty && bs[i].key == x;
        assert bs'[i].dirty && bs'[i].key == x;
      }
      if x == bs[b].key { assert bs'[b].key == x; }
    }
  }

  /** The holder changes the data and marks the buffer B_DIRTY. */
  method Pin(c: Cache, b: int, data: Block)
    requires Good(c) && 0 <= b < NBUF && b < c.buf.Length && c.buf[b].busy && c.buf[b].key in c.disk
    modifies c.buf, c`contents
    ensures Good(c) && BusyKeys(c.buf[..]) == old(BusyKeys(c.buf[..]))
    ensures DirtyKeys(c.buf[..]) == old(DirtyKeys(c.buf[..])) + {old(c.buf[b]).key}
    ensures c.contents == old(c.contents)[old(c.buf[b]).key := data]
    ensures c.buf[b].key == old(c.buf[b]).key && c.buf[b].busy && Stays(old(c.buf[..]), c.buf[..], b)
  {
    assert GoodAt(c, 0);
    ghost var bs := c.buf[..];
    c.Store(b, data);
    PinnedAfter(bs, c.buf[..], b);
  }

  /** A sector that is busy is in some buffer, and the ring leads to it. */
  method Locate(c: Cache, k: Key) returns (b: int)
    requires Good(c) && k in BusyKeys(c.buf[..]) && k in c.disk
    ensures 0 <= b < NBUF && b < c.buf.Length && c.buf[b].key == k && c.buf[b].busy
  {
    assert GoodAt(c, 0);
    ghost var i :| 0 <= i < NBUF && c.buf[i].busy && c.buf[i].key == k;
    b := c.FindCached(k);
  }
}
