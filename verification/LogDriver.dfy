/**
 log.c as it runs on the buffer cache: the global `log` and the loops of write_log, write_head,
 install_trans, commit, recover_from_log, begin_op, log_write and end_op. `trace` records the sector
 writes in order, so a crash after any of them is a prefix of it. Readers outside every operation take
 and release buffers in between, and can leave none.
 */
module LogDriver {
  import opened BufferCache
  import opened CacheUse
  import opened LogDisk
  import opened GroupCommit

  type Block = LogDisk.Block

  // ---------- The cache as a disk ----------

  // The sectors of one device.
  ghost function View(m: map<Key, Block>, dev: int): Disk { map k | k in m && k.dev == dev :: k.sector := m[k] }

  lemma ViewAt(m: map<Key, Block>, dev: int, x: int)
    ensures x in View(m, dev) <==> Key(dev, x) in m
    ensures x in View(m, dev) ==> View(m, dev)[x] == m[Key(dev, x)]
  {
    if Key(dev, x) in m { assert Key(dev, x).sector in View(m, dev); }
  }

  lemma ViewSet(m: map<Key, Block>, dev: int, x: int, b: Block)
    ensures View(m[Key(dev, x) := b], dev) == View(m, dev)[x := b]
  {
    var v, w := View(m[Key(dev, x) := b], dev), View(m, dev)[x := b];
    forall y ensures (y in v <==> y in w) && (y in v ==> v[y] == w[y]) {
      ViewAt(m, dev, y);
      ViewAt(m[Key(dev, x) := b], dev, y);
    }
  }

  predicate OffLogAt(g: Geometry, xs: set<int>, x: int) { InLog(g, x) ==> x !in xs }

  // None of the sectors is in the log area.
  ghost predicate OffLog(g: Geometry, xs: set<int>) { forall x {:trigger OffLogAt(g, xs, x)} :: OffLogAt(g, xs, x) }

  lemma OffLogLess(g: Geometry, xs: set<int>, ys: set<int>)
    requires OffLog(g, xs)
    ensures OffLog(g, xs - ys)
  {
    var zs := xs - ys;
    forall x ensures OffLogAt(g, zs, x) { assert OffLogAt(g, xs, x); }
  }

  lemma OffLogMore(g: Geometry, xs: set<int>, y: int)
    requires OffLog(g, xs) && !InLog(g, y)
    ensures OffLog(g, xs + {y})
  {
    var zs := xs + {y};
    forall x ensures OffLogAt(g, zs, x) { assert OffLogAt(g, xs, x); }
  }

  ghost predicate OneDevice(ks: set<Key>, dev: int) { forall k :: k in ks ==> k.dev == dev }

  function Keys(dev: int, xs: set<int>): set<Key> { set x | x in xs :: Key(dev, x) }

  lemma {:induction false} KeysMany(dev: int, xs: set<int>)
    ensures |Keys(dev, xs)| == |xs|
  {
    if xs == {} {
      assert Keys(dev, xs) == {};
    } else {
      var x := Pick(xs);
      KeysMany(dev, xs - {x});
      assert Keys(dev, xs) == Keys(dev, xs - {x}) + {Key(dev, x)};
    }
  }

  lemma KeysUsed(dev: int, held: set<int>, pins: set<int>, x: int)
    ensures Key(dev, x) in Keys(dev, held) <==> x in held
    ensures Key(dev, x) in Keys(dev, held) + Keys(dev, pins) <==> x in held || x in pins
    ensures |Keys(dev, held) + Keys(dev, pins)| == |pins + held|
    ensures Keys(dev, held) + {Key(dev, x)} == Keys(dev, held + {x})
    ensures Keys(dev, held) - {Key(dev, x)} == Keys(dev, held - {x})
  {
    KeysMany(dev, held + pins);
    assert Keys(dev, held) + Keys(dev, pins) == Keys(dev, held + pins) && held + pins == pins + held;
  }

  lemma KeysLess(dev: int, pins: set<int>, x: int)
    ensures Keys(dev, pins) - {Key(dev, x)} == Keys(dev, pins - {x})
  {
  }

  lemma KeysPlus(dev: int, xs: set<int>, ys: set<int>)
    ensures Keys(dev, xs) + Keys(dev, ys) == Keys(dev, xs + ys) && |Keys(dev, xs) + Keys(dev, ys)| == |xs + ys|
    ensures Keys(dev, xs) - Keys(dev, ys) == Keys(dev, xs - ys)
  {
    KeysMany(dev, xs + ys);
  }

  // ---------- Readers, and when a turn finds a buffer ----------

  // A reader outside every operation takes the buffer of a sector, or releases it.
  datatype Act = Read(x: int) | Release(x: int)

  datatype Option<T> = None | Some(value: T)

  // The sectors readers hold after they have acted, with pins pinned: to read one that is held they have
  // to wait, and to read another when every buffer is in use is a panic.
  function Readers(pins: set<int>, held: set<int>, acts: seq<Act>): Option<set<int>>
    decreases |acts|
  {
    if acts == [] then Some(held)
    else
      match acts[0]
      case Release(x) => Readers(pins, held - {x}, acts[1..])
      case Read(x) =>
        if x in pins + held || |pins + held| < NBUF then Readers(pins, held + {x}, acts[1..]) else None
  }

  // A turn of commit that needs a buffer for a log block. It waits for readers of the home block, which
  // is pinned; a turn of install_trans unpins it.
  datatype Turn = Turn(home: set<int>, unpins: bool)

  // What is held after the turn; nothing if some bread of it, or of a reader before it, panics.
  function AfterTurn(pins: set<int>, held: set<int>, acts: seq<Act>, turn: Turn): Option<set<int>> {
    match Readers(pins, held, acts)
    case None => None
    case Some(h) => if |pins + h| < NBUF then Some(h - turn.home) else None
  }

  datatype Plan = Plan(pins: set<int>, held: set<int>, turns: seq<Turn>, acts: seq<seq<Act>>)

  function PinsAt(p: Plan, j: nat): set<int>
    requires j <= |p.turns|
  {
    if j == 0 then p.pins else PinsAt(p, j - 1) - if p.turns[j - 1].unpins then p.turns[j - 1].home else {}
  }

  // What readers hold when j turns are done, if they can be.
  function HeldAt(p: Plan, j: nat): Option<set<int>>
    requires j <= |p.turns| <= |p.acts|
  {
    if j == 0 then Some(p.held)
    else
      match HeldAt(p, j - 1)
      case None => None
      case Some(h) => AfterTurn(PinsAt(p, j - 1), h, p.acts[j - 1], p.turns[j - 1])
  }

  // j turns of the plan are done, h is held and pins is pinned; k of the writes ws are on the disk e that
  // was d. (Quantified over an unused z so that the verifier unfolds it only where asked to.)
  ghost predicate AtTurn(p: Plan, j: nat, h: set<int>, pins: set<int>, ws: seq<Write>, k: nat, d: Disk, e: Disk) {
    forall z {:trigger AtTurnZ(p, j, h, pins, ws, k, d, e, z)} :: AtTurnZ(p, j, h, pins, ws, k, d, e, z)
  }

  ghost predicate AtTurnZ(p: Plan, j: nat, h: set<int>, pins: set<int>, ws: seq<Write>, k: nat, d: Disk, e: Disk,
                          z: int) {
    && j <= |p.turns| <= |p.acts| && HeldAt(p, j) == Some(h) && PinsAt(p, j) == pins
    && k <= |ws| && e == Apply(d, ws[..k]) && e.Keys == d.Keys
  }

  // All the plan's turns are through, and the readers hold h.
  ghost predicate AtEnd(p: Plan, h: set<int>) {
    |p.turns| <= |p.acts| && HeldAt(p, |p.turns|) == Some(h)
  }

  // The plan gets stuck at turn j: a reader or the turn itself finds no buffer.
  ghost predicate StuckAt(p: Plan, j: nat) {
    j < |p.turns| <= |p.acts| && HeldAt(p, j).Some? && HeldAt(p, j + 1) == None
  }

  function Unpin(pins: set<int>, turn: Turn): set<int> { if turn.unpins then pins - turn.home else pins }

  // k of the writes have been made.
  ghost predicate Done(ws: seq<Write>, k: nat, d: Disk, e: Disk) {
    forall z {:trigger DoneZ(ws, k, d, e, z)} :: DoneZ(ws, k, d, e, z)
  }

  ghost predicate DoneZ(ws: seq<Write>, k: nat, d: Disk, e: Disk, z: int) {
    k <= |ws| && e == Apply(d, ws[..k]) && e.Keys == d.Keys
  }

  lemma DoneOf(p: Plan, j: nat, h: set<int>, pins: set<int>, ws: seq<Write>, k: nat, d: Disk, e: Disk)
    requires AtTurn(p, j, h, pins, ws, k, d, e)
    ensures Done(ws, k, d, e)
  {
    assert AtTurnZ(p, j, h, pins, ws, k, d, e, 0);
  }

  lemma TurnOn(p: Plan, j: nat, h: set<int>, pins: set<int>, ws: seq<Write>, k: nat, d: Disk, e: Disk, h': set<int>)
    requires AtTurn(p, j, h, pins, ws, k, d, e) && j < |p.turns| <= |p.acts| && k < |ws| && ws[k].sector in d
    requires AfterTurn(pins, h, p.acts[j], p.turns[j]) == Some(h')
    ensures AtTurn(p, j + 1, h', Unpin(pins, p.turns[j]), ws, k + 1, d, e[ws[k].sector := ws[k].block])
  {
    assert AtTurnZ(p, j, h, pins, ws, k, d, e, 0);
    ApplySnoc(d, ws, k);
    assert pins - {} == pins;
  }

  lemma TurnStops(p: Plan, j: nat, h: set<int>, pins: set<int>, ws: seq<Write>, k: nat, d: Disk, e: Disk)
    requires AtTurn(p, j, h, pins, ws, k, d, e) && j < |p.turns| <= |p.acts|
    requires AfterTurn(pins, h, p.acts[j], p.turns[j]) == None
    ensures StuckAt(p, j)
  {
    assert AtTurnZ(p, j, h, pins, ws, k, d, e, 0);
  }

  // The turns of write_log, write_head, install_trans and write_head.
  function CommitTurns(lh: seq<int>): seq<Turn> {
    if lh == [] then []
    else
      seq(|lh|, i requires 0 <= i < |lh| => Turn({lh[i]}, false)) + [Turn({}, false)]
      + seq(|lh|, i requires 0 <= i < |lh| => Turn({lh[i]}, true)) + [Turn({}, false)]
  }

  function RecoverTurns(lh: seq<int>): seq<Turn> {
    seq(|lh|, i requires 0 <= i < |lh| => Turn({lh[i]}, true)) + [Turn({}, false)]
  }

  predicate MayActAt(g: Geometry, ks: set<int>, acts: seq<Act>, i: int) {
    0 <= i < |acts| ==> acts[i].x in ks && !InLog(g, acts[i].x)
  }

  // Readers read home sectors of the disk.
  ghost predicate MayAct(g: Geometry, ks: set<int>, acts: seq<Act>) {
    forall i {:trigger MayActAt(g, ks, acts, i)} :: MayActAt(g, ks, acts, i)
  }

  predicate HomeSameAt(g: Geometry, d: Disk, e: Disk, x: int) { x in d && !InLog(g, x) ==> x in e && e[x] == d[x] }

  // The sectors outside the log area hold the same.
  ghost predicate HomeSame(g: Geometry, d: Disk, e: Disk) {
    forall x {:trigger HomeSameAt(g, d, e, x)} :: HomeSameAt(g, d, e, x)
  }

  lemma HomeSameOn(g: Geometry, d: Disk, e: Disk, x: int, b: Block)
    requires HomeSame(g, d, e) && InLog(g, x)
    ensures HomeSame(g, d, e[x := b])
  {
    var f := e[x := b];
    forall y ensures HomeSameAt(g, d, f, y) { assert HomeSameAt(g, d, e, y); }
  }

  predicate LogSameAt(g: Geometry, d: Disk, e: Disk, x: int) { InLog(g, x) ==> x in d && x in e && e[x] == d[x] }

  // The log area of e is that of d.
  ghost predicate LogSame(g: Geometry, d: Disk, e: Disk) {
    forall x {:trigger LogSameAt(g, d, e, x)} :: LogSameAt(g, d, e, x)
  }

  lemma LogSameOn(g: Geometry, d: Disk, e: Disk, y: int, b: Block)
    requires LogSame(g, d, e) && !InLog(g, y)
    ensures LogSame(g, d, e[y := b])
  {
    var f := e[y := b];
    forall x ensures LogSameAt(g, d, f, x) { assert LogSameAt(g, d, e, x); }
  }

  // The sectors still pinned when k are installed.
  function Rest(pins: set<int>, lh: seq<int>, k: nat): set<int>
    requires k <= |lh|
  {
    if k == 0 then pins else Rest(pins, lh, k - 1) - {lh[k - 1]}
  }

  lemma {:induction false} RestIs(pins: set<int>, lh: seq<int>, k: nat, x: int)
    requires k <= |lh|
    ensures x in Rest(pins, lh, k) <==> x in pins && x !in lh[..k]
  {
    if k > 0 {
      RestIs(pins, lh, k - 1, x);
      assert lh[..k] == lh[..k - 1] + [lh[k - 1]];
    }
  }

  predicate InstallAt(g: Geometry, lh: seq<int>, acts: seq<seq<Act>>, at: nat, ks: set<int>, p: Plan, i: int) {
    0 <= i < |lh| && at + i < |p.turns| && at + i < |acts| ==> p.turns[at + i] == Turn({lh[i]}, true)
  }

  // From turn `at` on the plan installs lh. Either lh is pinned, or it is boot: nothing is, and nobody reads.
  ghost predicate Installing(g: Geometry, lh: seq<int>, acts: seq<seq<Act>>, at: nat, held: set<int>, pins: set<int>,
                             ks: set<int>, p: Plan) {
    && at + |lh| < |p.turns| <= |acts| && p.acts == acts && (pins == {} ==> held == {})
    && forall z {:trigger InstallingZ(g, lh, acts, at, held, pins, ks, p, z)} ::
      InstallingZ(g, lh, acts, at, held, pins, ks, p, z)
  }

  ghost predicate InstallingZ(g: Geometry, lh: seq<int>, acts: seq<seq<Act>>, at: nat, held: set<int>, pins: set<int>,
                              ks: set<int>, p: Plan, z: int) {
    && at + |lh| < |p.turns| <= |acts| && p.acts == acts && p.turns[at + |lh|] == Turn({}, false)
    && (forall i {:trigger InstallAt(g, lh, acts, at, ks, p, i)} :: InstallAt(g, lh, acts, at, ks, p, i))
    && (forall i :: 0 <= i < |acts| ==> MayAct(g, ks, acts[i]))
    && if pins == {} then held == {} && forall i :: 0 <= i < |acts| ==> acts[i] == []
       else GroupCommit.Distinct(lh) && forall x :: x in lh <==> x in pins
  }

  lemma InstallTurn(g: Geometry, lh: seq<int>, acts: seq<seq<Act>>, at: nat, held: set<int>, pins: set<int>,
                    ks: set<int>, p: Plan, k: nat, h: set<int>)
    requires Installing(g, lh, acts, at, held, pins, ks, p) && k < |lh| && (pins == {} ==> h == {})
    ensures p.turns[at + k] == Turn({lh[k]}, true) && MayAct(g, ks, acts[at + k])
    ensures var q := Rest(pins, lh, k); lh[k] in q || (q == {} && h == {} && acts[at + k] == [])
    ensures pins == {} ==> Rest(pins, lh, k) == {} && AfterTurn({}, {}, acts[at + k], Turn({lh[k]}, true)) == Some({})
  {
    assert InstallingZ(g, lh, acts, at, held, pins, ks, p, 0) && InstallAt(g, lh, acts, at, ks, p, k);
    RestIs(pins, lh, k, lh[k]);
    if pins == {} {
      forall x ensures x !in Rest(pins, lh, k) { RestIs(pins, lh, k, x); }
      var none: set<int> := {};
      assert none - {lh[k]} == none && none + none == none;
    } else {
      forall i | 0 <= i < k ensures lh[i] != lh[k] {}
      assert lh[k] !in lh[..k];
    }
  }

  predicate InstalledAt(g: Geometry, d: Disk, lh: seq<int>, ws: seq<Write>, i: int) {
    0 <= i < |lh| ==>
      && i < |ws| && LogSector(g, i) in d && ws[i] == Write(lh[i], d[LogSector(g, i)]) && lh[i] in d
      && InLog(g, LogSector(g, i)) && !InLog(g, lh[i])
  }

  // The first of the writes install lh from the log blocks of d.
  ghost predicate Installed(g: Geometry, d: Disk, lh: seq<int>, ws: seq<Write>) {
    |lh| <= |ws| && forall i {:trigger InstalledAt(g, d, lh, ws, i)} :: InstalledAt(g, d, lh, ws, i)
  }

  lemma RestNone(g: Geometry, lh: seq<int>, acts: seq<seq<Act>>, at: nat, held: set<int>, pins: set<int>, ks: set<int>,
                 p: Plan)
    requires Installing(g, lh, acts, at, held, pins, ks, p)
    ensures Rest(pins, lh, |lh|) == {}
  {
    assert InstallingZ(g, lh, acts, at, held, pins, ks, p, 0);
    forall x ensures x !in Rest(pins, lh, |lh|) {
      RestIs(pins, lh, |lh|, x);
      assert lh[..|lh|] == lh;
    }
  }

  predicate CopyAt(g: Geometry, lh: seq<int>, acts: seq<seq<Act>>, pins: set<int>, ks: set<int>, b: Disk, p: Plan,
                   ws: seq<Write>, i: int) {
    0 <= i < |lh| && i < |p.turns| && i < |acts| && i < |ws| ==>
      && lh[i] in pins && lh[i] in ks && lh[i] in b && !InLog(g, lh[i]) && InLog(g, LogSector(g, i))
        && LogSector(g, i) in ks
      && p.turns[i] == Turn({lh[i]}, false) && ws[i] == Write(LogSector(g, i), b[lh[i]])
  }

  // The plan begins with the copies of lh to the log, whose blocks are pinned.
  ghost predicate Copying(g: Geometry, lh: seq<int>, acts: seq<seq<Act>>, pins: set<int>, ks: set<int>, b: Disk,
                          p: Plan, ws: seq<Write>) {
    && (forall i {:trigger CopyAt(g, lh, acts, pins, ks, b, p, ws, i)} :: CopyAt(g, lh, acts, pins, ks, b, p, ws, i))
    && forall i :: 0 <= i < |acts| ==> MayAct(g, ks, acts[i])
  }

  // An install of lh from turn `at` of plan p on, by the writes ws, on a disk that was d.
  datatype Task = Task(at: nat, held: set<int>, pins: set<int>, d: Disk, lh: seq<int>, p: Plan, ws: seq<Write>)

  // What recovery does from the disk d, and from turn `at` of the plan on.
  ghost predicate Recovers(g: Geometry, t: Task) {
    && WellFormed(g, t.d) && t.lh == HeaderSectors(t.d[g.start]) && t.ws == RecoverWrites(g, t.d)
    && Installing(g, t.lh, t.p.acts, t.at, t.held, t.pins, t.d.Keys, t.p)
  }

  // The last turn of it clears the header.
  ghost predicate Clears(g: Geometry, t: Task) {
    && |t.ws| == |t.lh| + 1 && g.start in t.d && |t.d[g.start]| == BWORDS && InLog(g, g.start)
    && t.ws[|t.lh|] == Write(g.start, EncodeHeader(t.d[g.start], []))
    && t.at + |t.lh| < |t.p.turns| <= |t.p.acts| && t.p.turns[t.at + |t.lh|] == Turn({}, false)
    && MayAct(g, t.d.Keys, t.p.acts[t.at + |t.lh|])
    && (t.pins == {} ==> t.p.acts[t.at + |t.lh|] == [])
  }

  lemma RecoveryPlan(g: Geometry, t: Task)
    requires Recovers(g, t)
    ensures Installed(g, t.d, t.lh, t.ws) && Clears(g, t)
  {
    assert InstallingZ(g, t.lh, t.p.acts, t.at, t.held, t.pins, t.d.Keys, t.p, 0);
    forall i ensures InstalledAt(g, t.d, t.lh, t.ws, i) { assert 0 <= i < |t.lh| ==> InLog(g, LogSector(g, i)); }
  }

  lemma QuietTurn(turn: Turn)
    ensures AfterTurn({}, {}, [], turn) == Some({})
  {
    var none: set<int> := {};
    assert none - turn.home == none && none + none == none;
  }

  // ---------- Commit and recovery as plans ----------

  // A commit of lh, all of it pinned, while readers act as acts says.
  ghost predicate Commits(g: Geometry, d: Disk, b: Disk, lh: seq<int>, held: set<int>, pins: set<int>,
                          acts: seq<seq<Act>>) {
    && Committable(g, d, lh, b) && GroupCommit.Distinct(lh) && (forall x :: x in lh <==> x in pins)
    && |CommitTurns(lh)| <= |acts| && forall i :: 0 <= i < |acts| ==> MayAct(g, d.Keys, acts[i])
  }

  function CommitPlan(lh: seq<int>, held: set<int>, pins: set<int>, acts: seq<seq<Act>>): Plan {
    Plan(pins, held, CommitTurns(lh), acts)
  }

  // Its writes: the copies, the header over the disk as it then is, and what recovery would write.
  lemma CommitShape(g: Geometry, d: Disk, b: Disk, lh: seq<int>)
    requires Committable(g, d, lh, b) && lh != []
    ensures var ws, n := CommitWrites(g, d, lh, b), |lh|;
      var d1 := Apply(d, ws[..n]);
      && |ws| == 2 * n + 2 && g.start in d1 && |d1[g.start]| == BWORDS && d1.Keys == d.Keys
      && ws[n] == Write(g.start, EncodeHeader(d1[g.start], lh))
      && var d2 := d1[g.start := ws[n].block];
      && WellFormed(g, d2) && HeaderSectors(d2[g.start]) == lh && ws[n + 1..] == RecoverWrites(g, d2)
  {
    var ws, n, copies := CommitWrites(g, d, lh, b), |lh|, LogCopies(g, lh, b);
    CommitInParts(g, d, lh, b);
    BeforeCommitPoint(g, d, lh, b, n);
    assert ws[..n] == copies;
    var d1 := Apply(d, copies);
    var d2 := d1[g.start := EncodeHeader(d1[g.start], lh)];
    assert ws == copies + [Write(g.start, EncodeHeader(d1[g.start], lh))] + RecoverWrites(g, d2);
    assert ws[n + 1..] == RecoverWrites(g, d2);
    CommitKeys(g, d, b, lh, n);
  }

  lemma TurnsAt(lh: seq<int>, i: nat)
    requires lh != [] && i < |lh|
    ensures var ts, n := CommitTurns(lh), |lh|;
      && |ts| == 2 * n + 2 && ts[i] == Turn({lh[i]}, false) && ts[n] == Turn({}, false)
      && ts[n + 1 + i] == Turn({lh[i]}, true) && ts[2 * n + 1] == Turn({}, false)
  {
  }

  lemma CommitStarts(g: Geometry, d: Disk, b: Disk, lh: seq<int>, held: set<int>, pins: set<int>, acts: seq<seq<Act>>)
    requires Commits(g, d, b, lh, held, pins, acts) && lh != []
    ensures var p, ws, n := CommitPlan(lh, held, pins, acts), CommitWrites(g, d, lh, b), |lh|;
      && Copying(g, lh, acts, pins, d.Keys, b, p, ws) && AtTurn(p, 0, held, pins, ws, 0, d, d)
      && |ws| == |p.turns| == 2 * n + 2 <= |acts| && p.turns[n] == Turn({}, false) && MayAct(g, d.Keys, acts[n])
  {
    var p, ws := CommitPlan(lh, held, pins, acts), CommitWrites(g, d, lh, b);
    TurnsAt(lh, 0);
    forall i ensures CopyAt(g, lh, acts, pins, d.Keys, b, p, ws, i) {
      if 0 <= i < |lh| {
        TurnsAt(lh, i);
        assert InLog(g, LogSector(g, i));
      }
    }
    assert ws[..0] == [] && AtTurnZ(p, 0, held, pins, ws, 0, d, d, 0);
  }

  lemma CommitInstalls(g: Geometry, d: Disk, b: Disk, lh: seq<int>, held: set<int>, pins: set<int>, acts: seq<seq<Act>>,
                       h: set<int>)
    requires Commits(g, d, b, lh, held, pins, acts) && lh != []
    ensures Installing(g, lh, acts, |lh| + 1, h, pins, d.Keys, CommitPlan(lh, held, pins, acts))
  {
    var p, at := CommitPlan(lh, held, pins, acts), |lh| + 1;
    TurnsAt(lh, 0);
    forall i ensures InstallAt(g, lh, acts, at, d.Keys, p, i) { if 0 <= i < |lh| { TurnsAt(lh, i); } }
    assert lh[0] in lh;
    assert InstallingZ(g, lh, acts, at, h, pins, d.Keys, p, 0);
  }

  // While nobody reads, less and less is in use.
  lemma {:induction false} QuietShrinks(p: Plan, j: nat)
    requires j <= |p.turns| <= |p.acts| && (forall i :: 0 <= i < j ==> p.acts[i] == []) && |p.pins + p.held| < NBUF
    ensures PinsAt(p, j) <= p.pins && HeldAt(p, j).Some? && HeldAt(p, j).value <= p.held
  {
    if j > 0 {
      QuietShrinks(p, j - 1);
      SubsetCount(PinsAt(p, j - 1) + HeldAt(p, j - 1).value, p.pins + p.held);
    }
  }

  lemma SubsetCount(xs: set<int>, ys: set<int>)
    requires xs <= ys
    ensures |xs| <= |ys|
  {
    assert ys == xs + (ys - xs);
  }

  // Before the first turn of install_trans is done everything is still pinned.
  lemma {:induction false} PinnedTill(lh: seq<int>, held: set<int>, pins: set<int>, acts: seq<seq<Act>>, j: nat)
    requires lh != [] && j <= |lh| + 1
    ensures j <= |CommitTurns(lh)| && PinsAt(CommitPlan(lh, held, pins, acts), j) == pins
  {
    TurnsAt(lh, 0);
    if j > 0 {
      PinnedTill(lh, held, pins, acts, j - 1);
      if j <= |lh| { TurnsAt(lh, j - 1); }
    }
  }

  /**
   With readers that only hold what they held, one free buffer at the start is enough to end; without
   one commit panics at its first turn, before it has written anything.
   */
  lemma SteadyReaders(lh: seq<int>, held: set<int>, pins: set<int>, acts: seq<seq<Act>>)
    requires |CommitTurns(lh)| <= |acts| && forall i :: 0 <= i < |acts| ==> acts[i] == []
    ensures var p := CommitPlan(lh, held, pins, acts);
      if lh == [] || |pins + held| < NBUF then exists h :: AtEnd(p, h) else StuckAt(p, 0)
  {
    var p := CommitPlan(lh, held, pins, acts);
    if lh == [] {
      assert AtEnd(p, held);
    } else if |pins + held| < NBUF {
      QuietShrinks(p, |p.turns|);
      assert AtEnd(p, HeldAt(p, |p.turns|).value);
    } else {
      TurnsAt(lh, 0);
      assert HeldAt(p, 0) == Some(held);
    }
  }

  lemma OneTooMany(pins: set<int>, x: int, turn: Turn)
    requires |pins| == NBUF - 1 && x !in pins
    ensures AfterTurn(pins, {}, [Read(x)], turn) == None
  {
    var acts, none: set<int> := [Read(x)], {};
    assert acts[1..] == [] && pins + none == pins && none + {x} == {x};
    assert Readers(pins, none, acts) == Readers(pins, {x}, []);
    assert |pins + {x}| == NBUF;
  }

  /**
   With one buffer to spare, one reader is enough: if it comes before any turn up to the first of
   install_trans, commit panics at that turn, with the writes of the turns before it on the disk.
   */
  lemma LateReader(lh: seq<int>, pins: set<int>, acts: seq<seq<Act>>, j: nat, x: int)
    requires lh != [] && j <= |lh| + 1 && |CommitTurns(lh)| <= |acts| && |pins| == NBUF - 1 && x !in pins
    requires (forall i :: 0 <= i < j ==> acts[i] == []) && acts[j] == [Read(x)]
    ensures StuckAt(CommitPlan(lh, {}, pins, acts), j)
  {
    var p := CommitPlan(lh, {}, pins, acts);
    TurnsAt(lh, 0);
    assert p.pins + p.held == pins;
    QuietShrinks(p, j);
    PinnedTill(lh, {}, pins, acts, j);
    OneTooMany(pins, x, p.turns[j]);
  }

  // The same turn, counting the writes from here on.
  lemma Rebase(p: Plan, j: nat, h: set<int>, pins: set<int>, ws: seq<Write>, k: nat, d: Disk, e: Disk, rest: seq<Write>)
    requires AtTurn(p, j, h, pins, ws, k, d, e)
    ensures AtTurn(p, j, h, pins, rest, 0, e, e)
  {
    assert AtTurnZ(p, j, h, pins, ws, k, d, e, 0);
    assert rest[..0] == [];
  }

  lemma PutsJoin(dev: int, w0: seq<(Key, Block)>, ws: seq<Write>, n: nat, m: nat)
    requires n <= |ws| && m <= |ws| - n
    ensures w0 + Puts(dev, ws[..n]) + Puts(dev, ws[n..][..m]) == w0 + Puts(dev, ws[..n + m])
  {
    assert ws[..n + m] == ws[..n] + ws[n..][..m];
    PutsPlus(dev, ws[..n], ws[n..][..m]);
    PlusPlus(w0, Puts(dev, ws[..n]), Puts(dev, ws[n..][..m]));
  }

  lemma PlusPlus<T>(a: seq<T>, b: seq<T>, c: seq<T>)
    ensures a + b + c == a + (b + c)
  {
  }

  lemma DonePlus(ws: seq<Write>, n: nat, d: Disk, e: Disk, m: nat, f: Disk)
    requires Done(ws, n, d, e) && n <= |ws| && m <= |ws| - n && Done(ws[n..], m, e, f)
    ensures Done(ws, n + m, d, f)
  {
    assert DoneZ(ws, n, d, e, 0) && DoneZ(ws[n..], m, e, f, 0);
    assert ws[..n + m] == ws[..n] + ws[n..][..m];
    ApplyConcat(d, ws[..n], ws[n..][..m]);
  }

  lemma Ends(p: Plan, h: set<int>, pins: set<int>, ws: seq<Write>, k: nat, d: Disk, e: Disk)
    requires AtTurn(p, |p.turns|, h, pins, ws, k, d, e)
    ensures AtEnd(p, h)
  {
    assert AtTurnZ(p, |p.turns|, h, pins, ws, k, d, e, 0);
  }

  lemma NothingLogged(g: Geometry, d: Disk, b: Disk, lh: seq<int>, held: set<int>, pins: set<int>, acts: seq<seq<Act>>)
    requires Commits(g, d, b, lh, held, pins, acts) && lh == []
    ensures var p, ws := CommitPlan(lh, held, pins, acts), CommitWrites(g, d, lh, b);
      pins == {} && ws == [] && |p.turns| == 0 && AtEnd(p, held) && Done(ws, 0, d, d) && ws[..0] == []
  {
    forall x ensures x !in pins { assert x !in lh; }
    var ws := CommitWrites(g, d, lh, b);
    assert ws[..0] == [] && DoneZ(ws, 0, d, d, 0);
  }

  function RestTask(lh: seq<int>, p: Plan, ws: seq<Write>, h: set<int>, e: Disk): Task
    requires |lh| + 1 <= |ws|
  {
    Task(|lh| + 1, h, p.pins, e, lh, p, ws[|lh| + 1..])
  }

  // What is left after the header is what recovery would do.
  lemma RestRecovers(g: Geometry, d: Disk, b: Disk, lh: seq<int>, held: set<int>, pins: set<int>, acts: seq<seq<Act>>,
                     h: set<int>, e: Disk)
    requires Commits(g, d, b, lh, held, pins, acts) && lh != []
    requires var p, ws, k := CommitPlan(lh, held, pins, acts), CommitWrites(g, d, lh, b), |lh| + 1;
      AtTurn(p, k, h, pins, ws, k, d, e)
    ensures var p, ws, k := CommitPlan(lh, held, pins, acts), CommitWrites(g, d, lh, b), |lh| + 1;
      var t := RestTask(lh, p, ws, h, e);
      && Installed(g, e, lh, t.ws) && Clears(g, t) && Installing(g, lh, acts, k, h, pins, e.Keys, p)
      && AtTurn(p, k, h, pins, t.ws, 0, e, e) && |p.turns| == |ws| == 2 * |lh| + 2
  {
    var p, ws, k := CommitPlan(lh, held, pins, acts), CommitWrites(g, d, lh, b), |lh| + 1;
    assert AtTurnZ(p, k, h, pins, ws, k, d, e, 0);
    TurnsAt(lh, 0);
    CommitShape(g, d, b, lh);
    CommitInstalls(g, d, b, lh, held, pins, acts, h);
    ApplySnoc(d, ws, |lh|);
    Rebase(p, k, h, pins, ws, k, d, e, ws[k..]);
    RecoveryPlan(g, RestTask(lh, p, ws, h, e));
  }

  // Recovery at boot, when nobody reads: nothing is pinned or held at any turn.
  function BootTask(g: Geometry, d: Disk, lh: seq<int>, ws: seq<Write>): Task {
    Task(0, {}, {}, d, lh, Plan({}, {}, RecoverTurns(lh), seq(|lh| + 1, _ => [])), ws)
  }

  lemma BootRecovers(g: Geometry, d: Disk, lh: seq<int>)
    requires WellFormed(g, d) && lh == HeaderSectors(d[g.start])
    ensures var t := BootTask(g, d, lh, RecoverWrites(g, d));
      Installed(g, d, lh, t.ws) && Clears(g, t) && AtTurn(t.p, 0, {}, {}, t.ws, 0, d, d)
      && Installing(g, lh, t.p.acts, 0, {}, {}, d.Keys, t.p)
  {
    var t := BootTask(g, d, lh, RecoverWrites(g, d));
    forall i | 0 <= i < |t.p.acts| ensures MayAct(g, d.Keys, t.p.acts[i]) {}
    forall i ensures InstallAt(g, lh, t.p.acts, 0, d.Keys, t.p, i) {}
    assert InstallingZ(g, lh, t.p.acts, 0, {}, {}, d.Keys, t.p, 0);
    RecoveryPlan(g, t);
    assert t.ws[..0] == [] && AtTurnZ(t.p, 0, {}, {}, t.ws, 0, d, d, 0);
  }

  lemma CommitKeys(g: Geometry, d: Disk, b: Disk, lh: seq<int>, k: nat)
    requires Committable(g, d, lh, b) && k <= |CommitWrites(g, d, lh, b)|
    ensures Apply(d, CommitWrites(g, d, lh, b)[..k]).Keys == d.Keys
  {
    var ws := CommitWrites(g, d, lh, b);
    forall i | 0 <= i < k ensures ws[..k][i].sector in d && |ws[..k][i].block| == BWORDS {
      WritesStayOnDisk(g, d, lh, b, i);
    }
    ApplyKeepsShape(d, ws[..k]);
  }

  // A sector write as the cache makes it.
  function Put1(dev: int, w: Write): (Key, Block) { (Key(dev, w.sector), w.block) }

  function Puts(dev: int, ws: seq<Write>): seq<(Key, Block)> { seq(|ws|, i requires 0 <= i < |ws| => Put1(dev, ws[i])) }

  lemma PutsOn(dev: int, ws: seq<Write>, k: nat)
    requires k < |ws|
    ensures Puts(dev, ws[..k + 1]) == Puts(dev, ws[..k]) + [(Key(dev, ws[k].sector), ws[k].block)]
  {
  }

  lemma PutsPlus(dev: int, a: seq<Write>, b: seq<Write>)
    ensures Puts(dev, a + b) == Puts(dev, a) + Puts(dev, b)
  {
  }

  lemma LogStays(g: Geometry, d: Disk, x: int, data: Block)
    requires LogSame(g, d, d) && x in d
    ensures LogSame(g, d[x := data], d[x := data]) && d[x := data].Keys == d.Keys
  {
    var e := d[x := data];
    forall y ensures LogSameAt(g, e, e, y) { assert LogSameAt(g, d, d, y); }
  }

  class Log {
    const cache: Cache
    const g: Geometry
    const dev: int
    var lh: seq<int>           // lh.n is |lh|
    var outstanding: int
    var committing: bool

    // The sectors in busy are being used, those in pins are pinned, and no others; quantified over an
    // unused z, like Mirrors, so that the verifier unfolds it only where asked to.
    ghost predicate Using(busy: set<int>, pins: set<int>)
      reads cache, cache.buf
    {
      forall z {:trigger UsingAt(busy, pins, z)} :: UsingAt(busy, pins, z)
    }

    ghost predicate UsingAt(busy: set<int>, pins: set<int>, z: int)
      reads cache, cache.buf
    {
      && Good(cache) && OneDevice(cache.disk.Keys, dev)
      && BusyKeys(cache.buf[..]) == Keys(dev, busy) && DirtyKeys(cache.buf[..]) == Keys(dev, pins)
    }

    // The disk is d, and b is what was last stored in its sectors.
    ghost predicate Mirrors(d: Disk, b: Disk)
      reads cache`disk, cache`contents
    {
      forall z {:trigger MirrorsAt(d, b, z)} :: MirrorsAt(d, b, z)
    }

    ghost predicate MirrorsAt(d: Disk, b: Disk, z: int)
      reads cache`disk, cache`contents
    {
      d == View(cache.disk, dev) && b == View(cache.contents, dev)
    }

    // Readers outside every operation hold the buffers of held, and log_write has pinned pins.
    ghost predicate Valid(held: set<int>, pins: set<int>, d: Disk, b: Disk)
      reads cache, cache.buf
    {
      Using(held, pins) && Mirrors(d, b) && OffLog(g, held) && OffLog(g, pins) && LogSame(g, d, d)
    }

    constructor (cache: Cache, g: Geometry, dev: int)
      requires Good(cache) && BusyKeys(cache.buf[..]) == {} && DirtyKeys(cache.buf[..]) == {}
      requires OneDevice(cache.disk.Keys, dev) && forall x :: InLog(g, x) ==> Key(dev, x) in cache.disk
      ensures Valid({}, {}, View(cache.disk, dev), View(cache.contents, dev))
      ensures this.cache == cache && this.g == g && this.dev == dev && lh == [] && outstanding == 0 && !committing
    {
      this.cache, this.g, this.dev := cache, g, dev;
      lh, outstanding, committing := [], 0, false;
      new;
      ghost var d := View(cache.disk, dev);
      forall x ensures LogSameAt(g, d, d, x) { ViewAt(cache.disk, dev, x); }
    }

    // What a sector holds, in the cache and, unless it is pinned, on the disk.
    lemma DataOf(busy: set<int>, pins: set<int>, d: Disk, b: Disk, y: int)
      requires Using(busy, pins) && Mirrors(d, b) && y in d
      ensures Key(dev, y) in cache.disk && Key(dev, y) in cache.contents && y in b
      ensures b[y] == cache.contents[Key(dev, y)] && (y !in pins ==> d[y] == b[y])
    {
      assert UsingAt(busy, pins, 0) && MirrorsAt(d, b, 0);
      KeysUsed(dev, pins, {}, y);
      ViewAt(cache.disk, dev, y);
      CleanSame(cache, Key(dev, y));
      ViewAt(cache.contents, dev, y);
    }

    // bread of a sector that need not be waited for.
    method Take(x: int, ghost busy: set<int>, ghost pins: set<int>) returns (ok: bool, b: int)
      requires Using(busy, pins) && Key(dev, x) in cache.disk && x !in busy
      modifies cache.buf
      ensures ok == (x in pins || |pins + busy| < NBUF) && Using(if ok then busy + {x} else busy, pins)
      ensures ok ==> Holds(cache, b, Key(dev, x))
      ensures Stays(old(cache.buf[..]), cache.buf[..], if ok then b else -1)
      ensures ok ==> 0 <= b < |old(cache.buf[..])| && !old(cache.buf[..])[b].busy
    {
      assert UsingAt(busy, pins, 0);
      KeysUsed(dev, busy, pins, x);
      var r := Get(cache, Key(dev, x));
      ok, b := r.Found?, if r.Found? then r.b else -1;
    }

    // brelse.
    method Give(b: int, x: int, ghost busy: set<int>, ghost pins: set<int>)
      requires Using(busy, pins) && 0 <= b < NBUF && b < cache.buf.Length
      requires cache.buf[b].busy && cache.buf[b].key == Key(dev, x) && Key(dev, x) in cache.disk
      modifies cache.buf, cache`order, cache`stamp, cache`now
      ensures Using(busy - {x}, pins) && Stays(old(cache.buf[..]), cache.buf[..], b)
    {
      assert UsingAt(busy, pins, 0);
      KeysUsed(dev, busy, pins, x);
      Put(cache, b);
    }

    // A reader releases its buffer.
    method Drop(x: int, ghost busy: set<int>, ghost pins: set<int>) returns (b: int)
      requires Using(busy, pins) && x in busy && Key(dev, x) in cache.disk
      modifies cache.buf, cache`order, cache`stamp, cache`now
      ensures Using(busy - {x}, pins) && Stays(old(cache.buf[..]), cache.buf[..], b)
      ensures 0 <= b < |old(cache.buf[..])| && old(cache.buf[..])[b].key == Key(dev, x)
    {
      assert UsingAt(busy, pins, 0);
      KeysUsed(dev, busy, pins, x);
      b := Locate(cache, Key(dev, x));
      Give(b, x, busy, pins);
    }

    // One reader acts.
    method Other(act: Act, held: set<int>, ghost pins: set<int>, ghost d: Disk, ghost b: Disk)
      returns (ok: bool, h: set<int>)
      requires Valid(held, pins, d, b) && act.x in d && !InLog(g, act.x)
      modifies cache.buf, cache`order, cache`stamp, cache`now
      ensures ok == (act.Release? || act.x in pins + held || |pins + held| < NBUF)
      ensures ok ==> Valid(h, pins, d, b) && h == if act.Release? then held - {act.x} else held + {act.x}
    {
      var x := act.x;
      DataOf(held, pins, d, b, x);
      OffLogLess(g, held, {x});
      OffLogMore(g, held, x);
      ok := true;
      if act.Release? {
        h := held - {x};
        if x in held { var _ := Drop(x, held, pins); } else { assert h == held; }
      } else {
        h := held + {x};
        if x !in held {
          var i;
          ok, i := Take(x, held, pins);
        } else {
          assert h == held;
        }
      }
    }

    method Others(acts: seq<Act>, held: set<int>, ghost pins: set<int>, ghost d: Disk, ghost b: Disk)
      returns (ok: bool, h: set<int>)
      requires Valid(held, pins, d, b) && MayAct(g, d.Keys, acts)
      modifies cache.buf, cache`order, cache`stamp, cache`now
      ensures Readers(pins, held, acts) == (if ok then Some(h) else None) && (ok ==> Valid(h, pins, d, b))
    {
      var i := 0;
      ok, h := true, held;
      while i < |acts|
        invariant 0 <= i <= |acts| && Valid(h, pins, d, b)
        invariant Readers(pins, h, acts[i..]) == Readers(pins, held, acts)
      {
        assert acts[i..][1..] == acts[i + 1..] && MayActAt(g, d.Keys, acts, i);
        ok, h := Other(acts[i], h, pins, d, b);
        if !ok { return; }
        i := i + 1;
      }
    }

    // The readers act, and then the turn takes the buffer of its log block.
    method Borrow(x: int, acts: seq<Act>, held: set<int>, ghost pins: set<int>, ghost d: Disk, ghost b: Disk)
      returns (ok: bool, h: set<int>, a: int)
      requires Valid(held, pins, d, b) && MayAct(g, d.Keys, acts) && InLog(g, x)
      modifies cache.buf, cache`order, cache`stamp, cache`now
      ensures match Readers(pins, held, acts)
        case None => !ok
        case Some(k) => ok == (|pins + k| < NBUF) && (ok ==> h == k)
      ensures ok ==>
        Using(h + {x}, pins) && Holds(cache, a, Key(dev, x)) && OffLog(g, h) && x !in h && x !in pins && x in d
    {
      a := -1;
      ok, h := Others(acts, held, pins, d, b);
      if ok {
        assert OffLogAt(g, h, x) && OffLogAt(g, pins, x) && LogSameAt(g, d, d, x);
        DataOf(h, pins, d, b, x);
        ok, a := Take(x, h, pins);
      }
    }

    // Then it takes the home block, for which it may have to wait.
    method TakeHome(x: int, a: int, y: int, held: set<int>, ghost pins: set<int>) returns (b: int)
      requires Using(held + {x}, pins) && Holds(cache, a, Key(dev, x)) && y != x && x !in held
      requires Key(dev, y) in cache.disk && (y in pins || (pins == {} && held == {}))
      modifies cache.buf, cache`order, cache`stamp, cache`now
      ensures Using(held - {y} + {x, y}, pins) && b != a
      ensures Holds(cache, a, Key(dev, x)) && Holds(cache, b, Key(dev, y))
    {
      ghost var bs := cache.buf[..];
      if y in held {
        var c := Drop(y, held + {x}, pins);
        assert StaysAt(bs, cache.buf[..], a);
      }
      ghost var mid, busy := cache.buf[..], held - {y} + {x};
      assert busy == held + {x} - {y} && (y !in held ==> busy == held + {x});
      assert pins == {} && held == {} ==> pins + busy == {x};
      var ok;
      ok, b := Take(y, busy, pins);
      assert busy + {y} == held - {y} + {x, y} && StaysAt(mid, cache.buf[..], a);
    }

    // bwrite of one buffer, which unpins its sector.
    method Store(i: int, x: int, data: Block, ghost busy: set<int>, ghost pins: set<int>, ghost d: Disk, ghost b: Disk)
      requires Using(busy, pins) && Mirrors(d, b) && Holds(cache, i, Key(dev, x)) && Key(dev, x) in cache.disk
      modifies cache.buf, cache`contents, cache`disk, cache`writes
      ensures Using(busy, pins - {x}) && Mirrors(d[x := data], b[x := data])
      ensures cache.disk.Keys == old(cache.disk).Keys && cache.writes == old(cache.writes) + [(Key(dev, x), data)]
      ensures i < cache.buf.Length && cache.buf[i].key == Key(dev, x) && cache.buf[i].busy
      ensures Stays(old(cache.buf[..]), cache.buf[..], i)
    {
      assert UsingAt(busy, pins, 0) && MirrorsAt(d, b, 0);
      KeysLess(dev, pins, x);
      ViewSet(cache.disk, dev, x, data);
      ViewSet(cache.contents, dev, x, data);
      WriteOut(cache, i, data);
    }

    // Both buffers are released, b first.
    method GiveBoth(a: int, x: int, b: int, y: int, ghost left: set<int>, ghost pins: set<int>)
      requires Using(left + {x, y}, pins) && x != y && x !in left && y !in left && a != b
      requires 0 <= a < NBUF && a < cache.buf.Length && cache.buf[a].busy && cache.buf[a].key == Key(dev, x)
      requires 0 <= b < NBUF && b < cache.buf.Length && cache.buf[b].busy && cache.buf[b].key == Key(dev, y)
      requires Key(dev, x) in cache.disk && Key(dev, y) in cache.disk
      modifies cache.buf, cache`order, cache`stamp, cache`now
      ensures Using(left, pins)
    {
      ghost var bs := cache.buf[..];
      Give(b, y, left + {x, y}, pins);
      assert StaysAt(bs, cache.buf[..], a);
      Give(a, x, left + {x, y} - {y}, pins);
      assert left + {x, y} - {y} - {x} == left;
    }

    // The pinned block of y goes to the log block x.
    method CopyOut(a: int, x: int, y: int, held: set<int>, ghost pins: set<int>, ghost d: Disk, ghost b: Disk)
      requires Using(held + {x}, pins) && Mirrors(d, b) && Holds(cache, a, Key(dev, x))
      requires x !in held && x !in pins && x in d && y in pins && y in d && y in b
      modifies cache, cache.buf
      ensures Using(held - {y}, pins) && Mirrors(d[x := b[y]], b[x := b[y]])
      ensures cache.writes == old(cache.writes) + [(Key(dev, x), b[y])]
    {
      DataOf(held + {x}, pins, d, b, x);
      DataOf(held + {x}, pins, d, b, y);
      var c := TakeHome(x, a, y, held, pins);
      ghost var bs := cache.buf[..];
      assert pins - {x} == pins;
      Store(a, x, cache.buf[c].data, held - {y} + {x, y}, pins, d, b);
      assert StaysAt(bs, cache.buf[..], c);
      GiveBoth(a, x, c, y, held - {y}, pins);
    }

    // The log block x goes to its home y.
    method CopyHome(a: int, x: int, y: int, held: set<int>, ghost pins: set<int>, ghost d: Disk, ghost b: Disk)
      requires Using(held + {x}, pins) && Mirrors(d, b) && Holds(cache, a, Key(dev, x))
      requires x !in held && x != y && x in d && y in d && x in b && (y in pins || (pins == {} && held == {}))
      modifies cache, cache.buf
      ensures Using(held - {y}, pins - {y}) && Mirrors(d[y := b[x]], b[y := b[x]])
      ensures cache.writes == old(cache.writes) + [(Key(dev, y), b[x])]
    {
      DataOf(held + {x}, pins, d, b, x);
      DataOf(held + {x}, pins, d, b, y);
      var c := TakeHome(x, a, y, held, pins);
      ghost var bs := cache.buf[..];
      Store(c, y, cache.buf[a].data, held - {y} + {x, y}, pins, d, b);
      assert StaysAt(bs, cache.buf[..], a) && {x, y} == {y, x};
      GiveBoth(c, y, a, x, held - {y}, pins - {y});
    }

    // The words of write_head, in a buffer that holds was.
    method EncodeHead(was: Block) returns (hb: Block)
      requires |was| == BWORDS && |lh| <= LOGSIZE
      ensures hb == EncodeHeader(was, lh)
    {
      hb := was[0 := |lh|];
      var i := 0;
      while i < |lh|
        invariant 0 <= i <= |lh| && |hb| == BWORDS
        invariant hb == [|lh|] + lh[..i] + was[1 + i..]
      {
        hb := hb[1 + i := lh[i]];
        i := i + 1;
      }
      assert lh[..i] == lh;
    }

    // The header goes to the first block of the log area.
    method CopyHeader(a: int, held: set<int>, ghost pins: set<int>, ghost d: Disk, ghost b: Disk)
      requires Using(held + {g.start}, pins) && Mirrors(d, b) && Holds(cache, a, Key(dev, g.start))
      requires g.start !in held && g.start !in pins && g.start in d && |d[g.start]| == BWORDS && |lh| <= LOGSIZE
      modifies cache, cache.buf
      ensures Using(held, pins)
      ensures var hb := EncodeHeader(d[g.start], lh);
        Mirrors(d[g.start := hb], b[g.start := hb]) && cache.writes == old(cache.writes) + [(Key(dev, g.start), hb)]
    {
      DataOf(held + {g.start}, pins, d, b, g.start);
      var hb := EncodeHead(cache.buf[a].data);
      assert pins - {g.start} == pins;
      Store(a, g.start, hb, held + {g.start}, pins, d, b);
      Give(a, g.start, held + {g.start}, pins);
      assert held + {g.start} - {g.start} == held;
    }

    // One turn of write_log: a pinned block goes to its log block.
    method CopyTurn(tail: nat, acts: seq<Act>, held: set<int>, ghost pins: set<int>, ghost d: Disk, ghost b: Disk)
      returns (ok: bool, h: set<int>)
      requires Valid(held, pins, d, b) && MayAct(g, d.Keys, acts) && tail < |lh| && InLog(g, LogSector(g, tail))
      requires lh[tail] in pins && lh[tail] in d && lh[tail] in b
      modifies cache, cache.buf
      ensures AfterTurn(pins, held, acts, Turn({lh[tail]}, false)) == if ok then Some(h) else None
      ensures var x, data := LogSector(g, tail), b[lh[tail]];
        if ok then
          && Valid(h, pins, d[x := data], b[x := data]) && d[x := data].Keys == d.Keys
          && cache.writes == old(cache.writes) + [(Key(dev, x), data)]
        else Mirrors(d, b) && cache.writes == old(cache.writes)
    {
      var x, y := LogSector(g, tail), lh[tail];
      var k, a;
      ok, k, a := Borrow(x, acts, held, pins, d, b);
      h := k - {y};
      if ok {
        OffLogLess(g, k, {y});
        LogStays(g, d, x, b[y]);
        CopyOut(a, x, y, k, pins, d, b);
      }
    }

    // One turn of install_trans: a log block goes home, and is no longer pinned.
    method HomeTurn(tail: nat, acts: seq<Act>, held: set<int>, ghost pins: set<int>, ghost d: Disk, ghost b: Disk)
      returns (ok: bool, h: set<int>)
      requires Valid(held, pins, d, b) && MayAct(g, d.Keys, acts) && tail < |lh|
      requires InLog(g, LogSector(g, tail)) && !InLog(g, lh[tail])
      requires lh[tail] in d && (lh[tail] in pins || (pins == {} && held == {} && acts == []))
      modifies cache, cache.buf
      ensures AfterTurn(pins, held, acts, Turn({lh[tail]}, true)) == if ok then Some(h) else None
      ensures LogSector(g, tail) in d
      ensures var y, data := lh[tail], d[LogSector(g, tail)];
        if ok then
          && Valid(h, pins - {y}, d[y := data], b[y := data]) && d[y := data].Keys == d.Keys
          && cache.writes == old(cache.writes) + [(Key(dev, y), data)]
        else Mirrors(d, b) && cache.writes == old(cache.writes)
    {
      var x, y := LogSector(g, tail), lh[tail];
      assert LogSameAt(g, d, d, x) && OffLogAt(g, pins, x);
      DataOf(held, pins, d, b, x);
      var k, a;
      ok, k, a := Borrow(x, acts, held, pins, d, b);
      h := k - {y};
      if ok {
        OffLogLess(g, k, {y});
        OffLogLess(g, pins, {y});
        LogStays(g, d, y, d[x]);
        CopyHome(a, x, y, k, pins, d, b);
      }
    }

    /** write_head: one turn, one write, of the header that encodes the logged sectors. */
    method WriteHead(acts: seq<Act>, held: set<int>, ghost pins: set<int>, ghost d: Disk, ghost b: Disk)
      returns (ok: bool, h: set<int>)
      requires Valid(held, pins, d, b) && MayAct(g, d.Keys, acts) && InLog(g, g.start) && |lh| <= LOGSIZE
      requires g.start in d && |d[g.start]| == BWORDS
      modifies cache, cache.buf
      ensures AfterTurn(pins, held, acts, Turn({}, false)) == if ok then Some(h) else None
      ensures var hb := EncodeHeader(d[g.start], lh);
        if ok then
          && Valid(h, pins, d[g.start := hb], b[g.start := hb]) && d[g.start := hb].Keys == d.Keys
          && cache.writes == old(cache.writes) + [(Key(dev, g.start), hb)]
        else Mirrors(d, b) && cache.writes == old(cache.writes)
    {
      var a;
      ok, h, a := Borrow(g.start, acts, held, pins, d, b);
      assert h - {} == h;
      if ok {
        LogStays(g, d, g.start, EncodeHeader(d[g.start], lh));
        CopyHeader(a, h, pins, d, b);
      }
    }

    /** write_log: the loop's writes are the log copies in order, up to the first turn without a buffer. */
    method WriteLog(acts: seq<seq<Act>>, held: set<int>, ghost pins: set<int>, ghost d: Disk, ghost b: Disk,
                    ghost p: Plan, ghost ws: seq<Write>)
      returns (ok: bool, h: set<int>, ghost done: nat, ghost e: Disk, ghost c: Disk)
      requires Valid(held, pins, d, b) && AtTurn(p, 0, held, pins, ws, 0, d, d) && p.acts == acts
      requires Copying(g, lh, acts, pins, d.Keys, b, p, ws) && |lh| <= |ws| && |lh| <= |p.turns| <= |acts|
      modifies cache, cache.buf
      ensures done <= |lh| && (ok <==> done == |lh|) && Mirrors(e, c) && Done(ws, done, d, e)
      ensures cache.writes == old(cache.writes) + Puts(dev, ws[..done])
      ensures if ok then Valid(h, pins, e, c) && AtTurn(p, done, h, pins, ws, done, d, e) && HomeSame(g, b, c)
              else StuckAt(p, done)
    {
      ok, h, done, e, c := true, held, 0, d, b;
      forall x ensures HomeSameAt(g, b, c, x) {}
      var tail := 0;
      while tail < |lh|
        invariant 0 <= tail <= |lh| <= |ws| && done == tail && Valid(h, pins, e, c) && HomeSame(g, b, c)
        invariant AtTurn(p, tail, h, pins, ws, tail, d, e) && cache.writes == old(cache.writes) + Puts(dev, ws[..tail])
      {
        PutsOn(dev, ws, tail);
        DoneOf(p, tail, h, pins, ws, tail, d, e);
        ok, h := CopyStep(tail, acts, h, pins, d, b, e, c, p, ws);
        if !ok { return; }
        ghost var w := ws[tail];
        e, c := e[w.sector := w.block], c[w.sector := w.block];
        tail, done := tail + 1, done + 1;
      }
      DoneOf(p, tail, h, pins, ws, tail, d, e);
    }

    // One turn of write_log, with what the plan says of it.
    method CopyStep(tail: nat, acts: seq<seq<Act>>, h0: set<int>, ghost pins: set<int>, ghost d: Disk, ghost b: Disk,
                    ghost e: Disk, ghost c: Disk, ghost p: Plan, ghost ws: seq<Write>)
      returns (ok: bool, h: set<int>)
      requires Valid(h0, pins, e, c) && AtTurn(p, tail, h0, pins, ws, tail, d, e) && HomeSame(g, b, c) && p.acts == acts
      requires Copying(g, lh, acts, pins, d.Keys, b, p, ws) && tail < |lh| <= |ws| && |lh| <= |p.turns| <= |acts|
      modifies cache, cache.buf
      ensures var x, data, k := ws[tail].sector, ws[tail].block, tail + 1;
        if ok then
          && Valid(h, pins, e[x := data], c[x := data]) && AtTurn(p, k, h, pins, ws, k, d, e[x := data])
          && HomeSame(g, b, c[x := data]) && cache.writes == old(cache.writes) + [(Key(dev, x), data)]
        else StuckAt(p, tail) && Mirrors(e, c) && cache.writes == old(cache.writes)
    {
      ghost var y := lh[tail];
      assert CopyAt(g, lh, acts, pins, d.Keys, b, p, ws, tail) && HomeSameAt(g, b, c, y);
      assert AtTurnZ(p, tail, h0, pins, ws, tail, d, e, 0);
      ok, h := CopyTurn(tail, acts[tail], h0, pins, e, c);
      if ok {
        TurnOn(p, tail, h0, pins, ws, tail, d, e, h);
        HomeSameOn(g, b, c, LogSector(g, tail), b[y]);
      } else {
        TurnStops(p, tail, h0, pins, ws, tail, d, e);
      }
    }

    // install_trans, which started from held, pins and d, has installed tail blocks.
    ghost predicate Midway(t: Task, tail: nat, h: set<int>, q: set<int>, e: Disk, c: Disk)
      reads this, cache, cache.buf
    {
      forall z {:trigger MidwayZ(t, tail, h, q, e, c, z)} :: MidwayZ(t, tail, h, q, e, c, z)
    }

    ghost predicate MidwayZ(t: Task, tail: nat, h: set<int>, q: set<int>, e: Disk, c: Disk, z: int)
      reads this, cache, cache.buf
    {
      && Valid(h, q, e, c) && tail <= |lh| && lh == t.lh && Installed(g, t.d, lh, t.ws)
      && Installing(g, lh, t.p.acts, t.at, t.held, t.pins, t.d.Keys, t.p)
      && AtTurn(t.p, t.at + tail, h, q, t.ws, tail, t.d, e) && LogSame(g, t.d, e) && e.Keys == t.d.Keys
      && q == Rest(t.pins, lh, tail) && (t.pins == {} ==> h == {})
    }

    // One turn of install_trans, with what the plan says of it.
    method InstallStep(tail: nat, acts: seq<seq<Act>>, at: nat, h0: set<int>, ghost q: set<int>, ghost e: Disk,
                       ghost c: Disk, ghost t: Task)
      returns (ok: bool, h: set<int>)
      requires Midway(t, tail, h0, q, e, c) && tail < |lh| && acts == t.p.acts && at == t.at && at + tail < |acts|
      modifies cache, cache.buf
      ensures tail < |t.ws| && (t.pins == {} ==> ok && h == {})
      ensures var y, data := t.ws[tail].sector, t.ws[tail].block;
        if ok then
          && Midway(t, tail + 1, h, q - {y}, e[y := data], c[y := data])
          && cache.writes == old(cache.writes) + [(Key(dev, y), data)]
        else
          && StuckAt(t.p, at + tail) && Mirrors(e, c) && LogSame(g, t.d, e) && Done(t.ws, tail, t.d, e)
          && cache.writes == old(cache.writes)
    {
      assert MidwayZ(t, tail, h0, q, e, c, 0);
      ghost var x, y, j, k := LogSector(g, tail), lh[tail], at + tail, tail + 1;
      InstallTurn(g, lh, acts, at, t.held, t.pins, t.d.Keys, t.p, tail, h0);
      DoneOf(t.p, j, h0, q, t.ws, tail, t.d, e);
      assert InstalledAt(g, t.d, lh, t.ws, tail) && LogSameAt(g, t.d, e, x);
      ok, h := HomeTurn(tail, acts[at + tail], h0, q, e, c);
      if ok {
        TurnOn(t.p, j, h0, q, t.ws, tail, t.d, e, h);
        LogSameOn(g, t.d, e, y, t.d[x]);
        assert Rest(t.pins, lh, k) == q - {y};
        assert AtTurn(t.p, t.at + k, h, q - {y}, t.ws, k, t.d, e[y := t.d[x]]);
      } else {
        TurnStops(t.p, j, h0, q, t.ws, tail, t.d, e);
      }
    }

    lemma MidwayEnds(t: Task, h: set<int>, q: set<int>, e: Disk, c: Disk)
      requires Midway(t, |lh|, h, q, e, c)
      ensures Valid(h, {}, e, c) && AtTurn(t.p, t.at + |lh|, h, {}, t.ws, |lh|, t.d, e) && LogSame(g, t.d, e)
      ensures Done(t.ws, |lh|, t.d, e) && (t.pins == {} ==> h == {}) && e.Keys == t.d.Keys && |lh| <= |t.ws|
    {
      assert MidwayZ(t, |lh|, h, q, e, c, 0);
      RestNone(g, lh, t.p.acts, t.at, t.held, t.pins, t.d.Keys, t.p);
      DoneOf(t.p, t.at + |lh|, h, q, t.ws, |lh|, t.d, e);
    }

    /** install_trans: the loop's writes are the installs in order, up to the first turn without a buffer. */
    method InstallTrans(acts: seq<seq<Act>>, at: nat, held: set<int>, ghost b: Disk, ghost t: Task)
      returns (ok: bool, h: set<int>, ghost done: nat, ghost e: Disk, ghost c: Disk)
      requires Midway(t, 0, held, t.pins, t.d, b) && acts == t.p.acts && at == t.at && at + |lh| < |acts|
      modifies cache, cache.buf
      ensures done <= |lh| <= |t.ws| && (ok <==> done == |lh|) && Mirrors(e, c) && LogSame(g, t.d, e)
      ensures cache.writes == old(cache.writes) + Puts(dev, t.ws[..done]) && Done(t.ws, done, t.d, e)
      ensures if ok then Valid(h, {}, e, c) && AtTurn(t.p, at + done, h, {}, t.ws, done, t.d, e)
        else StuckAt(t.p, at + done)
      ensures t.pins == {} ==> ok && h == {}
    {
      ghost var q := t.pins;
      assert |lh| <= |t.ws| by { assert MidwayZ(t, 0, held, q, t.d, b, 0); }
      ok, h, done, e, c := true, held, 0, t.d, b;
      var tail := 0;
      while tail < |lh|
        invariant 0 <= tail <= |lh| <= |t.ws| && done == tail && Midway(t, tail, h, q, e, c)
        invariant cache.writes == old(cache.writes) + Puts(dev, t.ws[..tail])
      {
        PutsOn(dev, t.ws, tail);
        ok, h := InstallStep(tail, acts, at, h, q, e, c, t);
        if !ok { return; }
        ghost var w := t.ws[tail];
        q, e, c := q - {w.sector}, e[w.sector := w.block], c[w.sector := w.block];
        tail, done := tail + 1, done + 1;
      }
      MidwayEnds(t, h, q, e, c);
    }

    // The tail that commit and recover_from_log share.
    method InstallAndClear(acts: seq<seq<Act>>, at: nat, held: set<int>, ghost b: Disk, ghost t: Task)
      returns (ok: bool, h: set<int>, ghost done: nat, ghost e: Disk, ghost c: Disk)
      requires Midway(t, 0, held, t.pins, t.d, b) && acts == t.p.acts && at == t.at && lh == t.lh && Clears(g, t)
      modifies cache, cache.buf, this`lh
      ensures done <= |t.ws| && (ok <==> done == |t.ws|) && Mirrors(e, c) && Done(t.ws, done, t.d, e)
      ensures cache.writes == old(cache.writes) + Puts(dev, t.ws[..done])
      ensures if ok then Valid(h, {}, e, c) && lh == [] && AtTurn(t.p, at + done, h, {}, t.ws, done, t.d, e)
              else StuckAt(t.p, at + done)
      ensures t.pins == {} ==> ok && h == {}
    {
      ghost var w0 := cache.writes;
      ok, h, done, e, c := InstallTrans(acts, at, held, b, t);
      if ok {
        ok, h, done, e, c := ClearHead(acts, at, h, e, c, t, w0);
      }
    }

    method ClearHead(acts: seq<seq<Act>>, at: nat, h0: set<int>, ghost e0: Disk, ghost c0: Disk, ghost t: Task,
                     ghost w0: seq<(Key, Block)>)
      returns (ok: bool, h: set<int>, ghost done: nat, ghost e: Disk, ghost c: Disk)
      requires Valid(h0, {}, e0, c0) && AtTurn(t.p, at + |lh|, h0, {}, t.ws, |lh|, t.d, e0) && Done(t.ws, |lh|, t.d, e0)
      requires Clears(g, t) && acts == t.p.acts && at == t.at && lh == t.lh && LogSame(g, t.d, e0)
      requires t.pins == {} ==> h0 == {}
      requires cache.writes == w0 + Puts(dev, t.ws[..|lh|])
      modifies cache, cache.buf, this`lh
      ensures done <= |t.ws| && (ok <==> done == |t.ws|) && Mirrors(e, c) && Done(t.ws, done, t.d, e)
      ensures cache.writes == w0 + Puts(dev, t.ws[..done])
      ensures if ok then Valid(h, {}, e, c) && lh == [] && AtTurn(t.p, at + done, h, {}, t.ws, done, t.d, e)
              else StuckAt(t.p, at + done)
      ensures t.pins == {} ==> ok && h == {}
    {
      var n := |lh|;
      ghost var ws, j := t.ws, at + n;
      assert DoneZ(ws, n, t.d, e0, 0) && LogSameAt(g, t.d, e0, g.start);
      QuietTurn(Turn({}, false));
      PutsOn(dev, ws, n);
      done, e, c := n, e0, c0;
      lh := [];
      ok, h := WriteHead(acts[at + n], h0, {}, e0, c0);
      if ok {
        e, c, done := e0[g.start := ws[n].block], c0[g.start := ws[n].block], n + 1;
        TurnOn(t.p, j, h0, {}, ws, n, t.d, e0, h);
        DoneOf(t.p, j + 1, h, {}, ws, done, t.d, e);
      } else {
        TurnStops(t.p, j, h0, {}, ws, n, t.d, e0);
      }
    }

    // The first two parts of commit: the copies and the header, which is the commit point.
    method LogAndHead(acts: seq<seq<Act>>, held: set<int>, ghost pins: set<int>, ghost d: Disk, ghost b: Disk)
      returns (ok: bool, h: set<int>, ghost done: nat, ghost e: Disk, ghost c: Disk)
      requires Valid(held, pins, d, b) && Commits(g, d, b, lh, held, pins, acts) && lh != []
      modifies cache, cache.buf
      ensures var p, ws := CommitPlan(lh, held, pins, acts), CommitWrites(g, d, lh, b);
        && done <= |lh| + 1 <= |ws| && (ok <==> done == |lh| + 1) && Mirrors(e, c) && Done(ws, done, d, e)
        && cache.writes == old(cache.writes) + Puts(dev, ws[..done])
        && if ok then Valid(h, pins, e, c) && AtTurn(p, done, h, pins, ws, done, d, e) else StuckAt(p, done)
    {
      ghost var p, ws, n, w0 := CommitPlan(lh, held, pins, acts), CommitWrites(g, d, lh, b), |lh|, cache.writes;
      CommitStarts(g, d, b, lh, held, pins, acts);
      CommitShape(g, d, b, lh);
      ok, h, done, e, c := WriteLog(acts, held, pins, d, b, p, ws);
      if ok {
        assert DoneZ(ws, n, d, e, 0);
        ok, h, done, e, c := HeadStep(acts[|lh|], h, pins, d, e, c, p, ws, w0);
      }
    }

    method HeadStep(acts: seq<Act>, h0: set<int>, ghost pins: set<int>, ghost d: Disk, ghost e0: Disk, ghost c0: Disk,
                    ghost p: Plan, ghost ws: seq<Write>, ghost w0: seq<(Key, Block)>)
      returns (ok: bool, h: set<int>, ghost done: nat, ghost e: Disk, ghost c: Disk)
      requires Valid(h0, pins, e0, c0) && AtTurn(p, |lh|, h0, pins, ws, |lh|, d, e0) && e0.Keys == d.Keys && |lh| < |ws|
      requires |lh| < |p.turns| <= |p.acts| && p.acts[|lh|] == acts && p.turns[|lh|] == Turn({}, false)
      requires MayAct(g, d.Keys, acts) && InLog(g, g.start) && |lh| <= LOGSIZE && g.start in e0
      requires |e0[g.start]| == BWORDS
      requires ws[|lh|] == Write(g.start, EncodeHeader(e0[g.start], lh)) && cache.writes == w0 + Puts(dev, ws[..|lh|])
      modifies cache, cache.buf
      ensures |lh| <= done <= |lh| + 1 && (ok <==> done == |lh| + 1) && Mirrors(e, c) && Done(ws, done, d, e)
      ensures cache.writes == w0 + Puts(dev, ws[..done])
      ensures if ok then Valid(h, pins, e, c) && AtTurn(p, done, h, pins, ws, done, d, e) else StuckAt(p, done)
    {
      ghost var n := |lh|;
      PutsOn(dev, ws, n);
      DoneOf(p, n, h0, pins, ws, n, d, e0);
      done, e, c := n, e0, c0;
      ok, h := WriteHead(acts, h0, pins, e0, c0);
      if ok {
        e, c, done := e0[g.start := ws[n].block], c0[g.start := ws[n].block], n + 1;
        TurnOn(p, n, h0, pins, ws, n, d, e0, h);
        DoneOf(p, done, h, pins, ws, done, d, e);
      } else {
        TurnStops(p, n, h0, pins, ws, n, d, e0);
      }
    }

    // The last two parts: install_trans and the cleared header.
    method CommitRest(acts: seq<seq<Act>>, h0: set<int>, ghost d: Disk, ghost c0: Disk, ghost ws: seq<Write>,
                      ghost w0: seq<(Key, Block)>, ghost t: Task)
      returns (ok: bool, h: set<int>, ghost done: nat, ghost e: Disk, ghost c: Disk)
      requires Midway(t, 0, h0, t.pins, t.d, c0) && acts == t.p.acts && lh == t.lh && Clears(g, t)
      requires t.at == |lh| + 1 <= |ws| == |t.p.turns| && t.ws == ws[t.at..]
      requires Done(ws, t.at, d, t.d) && cache.writes == w0 + Puts(dev, ws[..t.at])
      modifies cache, cache.buf, this`lh
      ensures done <= |ws| && (ok <==> done == |ws|) && Mirrors(e, c) && Done(ws, done, d, e)
      ensures cache.writes == w0 + Puts(dev, ws[..done])
      ensures if ok then Valid(h, {}, e, c) && lh == [] && AtEnd(t.p, h) else StuckAt(t.p, done)
    {
      ghost var m;
      ok, h, m, e, c := InstallAndClear(acts, |lh| + 1, h0, c0, t);
      done := t.at + m;
      DonePlus(ws, t.at, d, t.d, m, e);
      PutsJoin(dev, w0, ws, t.at, m);
      if ok { Ends(t.p, h, {}, t.ws, m, t.d, e); }
    }

    /**
     commit on the buffer cache, while readers take and release buffers before each of its turns: its
     sector writes are CommitWrites in order, so a crash after any of them is a crash of CommitIsAtomic;
     all of them, exactly when no turn and no reader finds every buffer pinned or busy, and otherwise
     those of the turns before the first that does, where the kernel panics in bget.
     */
    method Commit(acts: seq<seq<Act>>, held: set<int>, ghost pins: set<int>, ghost d: Disk, ghost b: Disk)
      returns (ok: bool, h: set<int>, ghost done: nat, ghost e: Disk, ghost c: Disk)
      requires Valid(held, pins, d, b) && Commits(g, d, b, lh, held, pins, acts)
      modifies cache, cache.buf, this`lh
      ensures var p, ws := CommitPlan(old(lh), held, pins, acts), CommitWrites(g, d, old(lh), b);
        && |p.turns| == |ws| && done <= |ws| && (ok <==> done == |ws|) && Mirrors(e, c) && Done(ws, done, d, e)
        && cache.writes == old(cache.writes) + Puts(dev, ws[..done])
        && if ok then Valid(h, {}, e, c) && lh == [] && AtEnd(p, h) else StuckAt(p, done)
    {
      ghost var w0 := cache.writes;
      if |lh| > 0 {
        TurnsAt(lh, 0);
        ok, h, done, e, c := LogAndHead(acts, held, pins, d, b);
        if ok {
          ghost var p, ws := CommitPlan(lh, held, pins, acts), CommitWrites(g, d, lh, b);
          RestRecovers(g, d, b, lh, held, pins, acts, h, e);
          ghost var t := RestTask(lh, p, ws, h, e);
          assert Midway(t, 0, h, pins, e, c);
          ok, h, done, e, c := CommitRest(acts, h, d, c, ws, w0, t);
        }
      } else {
        ok, h, done, e, c := true, held, 0, d, b;
        NothingLogged(g, d, b, lh, held, pins, acts);
      }
    }

    /** read_head: the logged sectors become those of the header on the disk. */
    method ReadHead(ghost d: Disk, ghost b: Disk)
      requires Valid({}, {}, d, b) && WellFormed(g, d)
      modifies cache.buf, cache`order, cache`stamp, cache`now, this`lh
      ensures Valid({}, {}, d, b) && lh == HeaderSectors(d[g.start])
    {
      ghost var none: set<int> := {};
      assert none + none == none && Readers(none, none, []) == Some(none);
      var ok, h, a := Borrow(g.start, [], {}, {}, d, b);
      DataOf({g.start}, {}, d, b, g.start);
      var hb := cache.buf[a].data;
      lh := [];
      var i := 0;
      while i < hb[0]
        invariant 0 <= i <= hb[0] && lh == hb[1..1 + i]
        modifies this`lh
      {
        lh := lh + [hb[1 + i]];
        i := i + 1;
      }
      Give(a, g.start, {g.start}, {});
      assert {g.start} - {g.start} == none;
    }

    /** recover_from_log on the buffer cache at boot: its writes are RecoverWrites, all of them and in order. */
    method RecoverFromLog(ghost d: Disk, ghost b: Disk) returns (ok: bool, ghost c: Disk)
      requires Valid({}, {}, d, b) && WellFormed(g, d)
      modifies cache, cache.buf, this`lh
      ensures ok && Valid({}, {}, Recover(g, d), c) && lh == []
      ensures cache.writes == old(cache.writes) + Puts(dev, RecoverWrites(g, d))
    {
      ReadHead(d, b);
      ghost var t := BootTask(g, d, lh, RecoverWrites(g, d));
      BootRecovers(g, d, lh);
      assert Midway(t, 0, {}, {}, d, b);
      var h;
      ghost var done, e;
      ok, h, done, e, c := InstallAndClear(seq(|lh| + 1, _ => []), 0, {}, b, t);
      assert DoneZ(t.ws, done, d, e, 0) && t.ws[..done] == t.ws;
    }

    /** One turn of begin_op's loop: either the operation is admitted or it must sleep. */
    method BeginOp() returns (admitted: bool)
      modifies this`outstanding
      ensures admitted == !MustWait(lh, old(outstanding), committing)
      ensures admitted <==> !committing && |lh| + (old(outstanding) + 1) * MAXOPBLOCKS <= LOGSIZE
      ensures outstanding == old(outstanding) + if admitted then 1 else 0
    {
      if committing {
        return false;
      } else if |lh| + (outstanding + 1) * MAXOPBLOCKS > LOGSIZE {
        return false;
      } else {
        outstanding := outstanding + 1;
        return true;
      }
    }

    /**
     A store to a buffer and log_write of it, with no other log_write between the test and the append. It
     fails, where the kernel panics, exactly when the log is full or no operation is running; otherwise
     the sector is logged once and its buffer is pinned.
     */
    method LogWrite(i: int, sector: int, data: Block, ghost busy: set<int>, ghost pins: set<int>, ghost d: Disk,
                    ghost b: Disk)
      returns (ok: bool)
      requires Using(busy, pins) && Mirrors(d, b) && Holds(cache, i, Key(dev, sector)) && Key(dev, sector) in cache.disk
      modifies this`lh, cache.buf, cache`contents
      ensures ok == (!TooBig(g, old(lh)) && outstanding >= 1)
      ensures ok <==> |old(lh)| < LOGSIZE && |old(lh)| < g.size - 1 && outstanding >= 1
      ensures lh == if ok then Absorb(old(lh), sector) else old(lh)
      ensures lh == if ok && sector !in old(lh) then old(lh) + [sector] else old(lh)
      ensures ok ==> Using(busy, pins + {sector}) && Mirrors(d, b[sector := data])
      ensures !ok ==> Using(busy, pins) && Mirrors(d, b)
    {
      if |lh| >= LOGSIZE || |lh| >= g.size - 1 { return false; }
      if outstanding < 1 { return false; }
      AppendSector(sector);
      assert UsingAt(busy, pins, 0) && MirrorsAt(d, b, 0);
      KeysPlus(dev, pins, {sector});
      assert Keys(dev, {sector}) == {Key(dev, sector)};
      ViewSet(cache.contents, dev, sector, data);
      Pin(cache, i, data);
      ok := true;
    }

    // The search and the store of log_write's critical section.
    method AppendSector(sector: int)
      modifies this`lh
      ensures lh == Absorb(old(lh), sector)
    {
      var i := 0;
      while i < |lh| && lh[i] != sector
        invariant 0 <= i <= |lh| && sector !in lh[..i]
        modifies {}
      {
        i := i + 1;
      }
      if i == |lh| {
        assert lh[..i] == lh;
        lh := lh + [sector];
      } else {
        assert lh[i := sector] == lh;
        lh := lh[i := sector];
      }
    }

    /** The first critical section of end_op: the last operation out is told to commit. */
    method EndOp() returns (ok: bool, doCommit: bool)
      modifies this`outstanding, this`committing
      ensures outstanding == old(outstanding) - 1
      ensures ok == !old(committing)
      ensures doCommit == (ok && old(outstanding) == 1)
      ensures committing == (old(committing) || doCommit)
    {
      outstanding := outstanding - 1;
      if committing { return false, false; }
      if outstanding == 0 {
        committing := true;
        return true, true;
      }
      return true, false;
    }
  }
}
