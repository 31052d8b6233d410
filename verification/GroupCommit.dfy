/**
 Group commit of log.c: `begin_op`, `log_write`, `end_op` and `commit` of any number of concurrent
 operations, interleaved with crashes, over the disk of LogDisk.
 */
module GroupCommit {
  import BufferCache
  import opened LogDisk

  // ---------- The in-memory log, one critical section at a time ----------

  predicate MustWait(lh: seq<int>, outstanding: int, committing: bool) {
    committing || |lh| + (outstanding + 1) * MAXOPBLOCKS > LOGSIZE
  }

  predicate TooBig(g: Geometry, lh: seq<int>) {
    |lh| >= LOGSIZE || |lh| >= g.size - 1
  }

  function Absorb(lh: seq<int>, sector: int): seq<int> {
    if sector in lh then lh else lh + [sector]
  }

  // ---------- The whole system ----------

  // An operation between its begin_op and end_op: how often it has called log_write, and on what.
  // passed: it is inside log_write, past the size test and not yet in the critical section.
  datatype Op = Op(id: nat, calls: nat, logged: set<int>, passed: bool)

  // A log_write, remembered for the specification.
  datatype Entry = Entry(op: nat, sector: int, block: Block)

  // `done` counts the sector writes already on disk, out of those planned from `base`.
  datatype Phase =
    | Running
    | Committing(base: Disk, done: nat)
    | Recovering(base: Disk, done: nat)

  datatype Sys = Sys(
    disk: Disk,
    pinned: Disk,          // dirty cached blocks
    lh: seq<int>,          // log.lh
    outstanding: int,
    committing: bool,
    phase: Phase,
    active: seq<Op>,       // operations inside begin_op/end_op
    begun: set<nat>,       // specification only: every operation ever started
    group: seq<Entry>,     // specification only: log_writes not yet committed
    committed: seq<Entry>, // specification only: log_writes of committed groups
    lost: seq<Entry>       // specification only: log_writes dropped by crashes
  )

  datatype Step =
    | Begin(op: nat)
    | Test(who: nat)                                // log_write's test of the size, which takes no lock
    | Append(who: nat, sector: int, block: Block)   // log_write's critical section
    | End(who: nat)
    | DiskWrite
    | Finish
    | Crash

  function Boot(d: Disk): Sys {
    Sys(d, map[], [], 0, false, Recovering(d, 0), [], {}, [], [], [])
  }

  function DoBegin(s: Sys, op: nat): Sys {
    s.(outstanding := s.outstanding + 1, active := s.active + [Op(op, 0, {}, false)], begun := s.begun + {op})
  }

  function DoTest(s: Sys, who: nat): Sys
    requires who < |s.active|
  {
    s.(active := s.active[who := s.active[who].(passed := true)])
  }

  function Logs(op: Op, sector: int): Op {
    op.(calls := op.calls + 1, logged := op.logged + {sector}, passed := false)
  }

  function DoAppend(s: Sys, who: nat, sector: int, block: Block): Sys
    requires who < |s.active|
  {
    var op := s.active[who];
    s.(lh := Absorb(s.lh, sector), pinned := s.pinned[sector := block], active := s.active[who := Logs(op, sector)],
       group := s.group + [Entry(op.id, sector, block)])
  }

  function DoEnd(s: Sys, who: nat): Sys
    requires who < |s.active|
  {
    var s' := s.(outstanding := s.outstanding - 1, active := s.active[..who] + s.active[who + 1..]);
    if s'.outstanding == 0 then s'.(committing := true, phase := Committing(s.disk, 0)) else s'
  }

  ghost predicate Plannable(g: Geometry, s: Sys) {
    match s.phase
    case Running => false
    case Committing(base, _) => Committable(g, base, s.lh, s.pinned)
    case Recovering(base, _) => WellFormed(g, base)
  }

  ghost function Planned(g: Geometry, s: Sys): seq<Write>
    requires Plannable(g, s)
  {
    if s.phase.Committing? then CommitWrites(g, s.phase.base, s.lh, s.pinned) else RecoverWrites(g, s.phase.base)
  }

  function DoDiskWrite(s: Sys, w: Write): Sys
    requires !s.phase.Running?
  {
    var s' := s.(disk := s.disk[w.sector := w.block], phase := s.phase.(done := s.phase.done + 1));
    // the header write is the commit point
    if s.phase.Committing? && s.phase.done == |s.lh|
    then s'.(committed := s.committed + s.group, group := []) else s'
  }

  function DoFinish(s: Sys): Sys {
    s.(lh := [], pinned := map[], committing := false, phase := Running)
  }

  function DoCrash(s: Sys): Sys {
    s.(pinned := map[], lh := [], outstanding := 0, committing := false, active := [], group := [],
       lost := s.lost + s.group, phase := Recovering(s.disk, 0))
  }

  /**
   Which steps can be taken. An operation may call log_write as often as it likes; a failed test stops
   the kernel. The test and the critical section are two steps, between which others can append.
   */
  ghost predicate Enabled(g: Geometry, s: Sys, step: Step) {
    match step
    case Begin(op) =>
      !s.phase.Recovering? && op !in s.begun && !MustWait(s.lh, s.outstanding, s.committing)
    case Test(who) => who < |s.active| && !s.active[who].passed && !TooBig(g, s.lh)
    case Append(who, sector, block) =>
      who < |s.active| && s.active[who].passed && sector in s.disk && !InLog(g, sector) && |block| == BWORDS
    case End(who) => who < |s.active| && !s.active[who].passed && !s.committing
    case DiskWrite => Plannable(g, s) && s.phase.done < |Planned(g, s)|
    case Finish => Plannable(g, s) && s.phase.done == |Planned(g, s)|
    case Crash => true
  }

  ghost function Exec(g: Geometry, s: Sys, step: Step): Sys
    requires Enabled(g, s, step)
  {
    match step
    case Begin(op) => DoBegin(s, op)
    case Test(who) => DoTest(s, who)
    case Append(who, sector, block) => DoAppend(s, who, sector, block)
    case End(who) => DoEnd(s, who)
    case DiskWrite => DoDiskWrite(s, Planned(g, s)[s.phase.done])
    case Finish => DoFinish(s)
    case Crash => DoCrash(s)
  }

  ghost predicate Run(g: Geometry, s: Sys, steps: seq<Step>, t: Sys)
    decreases |steps|
  {
    if steps == [] then s == t
    else Enabled(g, s, steps[0]) && Run(g, Exec(g, s, steps[0]), steps[1..], t)
  }

  // An append that adds a sector finds room for it.
  predicate Room(g: Geometry, s: Sys, step: Step) { step.Append? && step.sector !in s.lh ==> !TooBig(g, s.lh) }

  ghost predicate RunRoomy(g: Geometry, s: Sys, steps: seq<Step>, t: Sys)
    decreases |steps|
  {
    if steps == [] then s == t
    else Enabled(g, s, steps[0]) && Room(g, s, steps[0]) && RunRoomy(g, Exec(g, s, steps[0]), steps[1..], t)
  }

  // ---------- Specification: replaying log_writes on a plain disk ----------

  function Replay(d: Disk, es: seq<Entry>): (r: Disk)
    ensures r.Keys >= d.Keys
  {
    if es == [] then d
    else
      var e := es[|es| - 1];
      Replay(d, es[..|es| - 1])[e.sector := e.block]
  }

  predicate Names(es: seq<Entry>, op: nat) {
    exists i :: 0 <= i < |es| && es[i].op == op
  }

  // What running operations may still log of the MAXOPBLOCKS sectors that each has reserved.
  function Unused(active: seq<Op>): int {
    if active == [] then 0 else MAXOPBLOCKS - |active[0].logged| + Unused(active[1..])
  }

  // ---------- The invariant ----------

  ghost predicate Ops(s: Sys) {
    && s.outstanding == |s.active| && Distinct(s.lh)
    && (forall i :: 0 <= i < |s.active| ==> |s.active[i].logged| <= s.active[i].calls)
    && (forall i, x :: 0 <= i < |s.active| && x in s.active[i].logged ==> x in s.lh)
    && (s.committing <==> s.phase.Committing?)
    && (!s.phase.Running? ==> s.active == [])
  }

  ghost predicate Distinct(lh: seq<int>) {
    forall i, j :: 0 <= i < j < |lh| ==> lh[i] != lh[j]
  }

  // Every operation's log_writes are all committed, all pending or all lost. (Like the two predicates
  // below, it is quantified over an unused z so that the verifier unfolds it only where asked to.)
  ghost predicate AllOrNothing(s: Sys) { forall z {:trigger AllOrNothingAt(s, z)} :: AllOrNothingAt(s, z) }

  ghost predicate AllOrNothingAt(s: Sys, z: int) {
    && (forall i :: 0 <= i < |s.lost| ==>
          s.lost[i].op in s.begun && !Names(s.committed, s.lost[i].op) && !Names(s.group, s.lost[i].op))
    && (forall i, j :: 0 <= i < |s.lost| && 0 <= j < |s.active| ==> s.lost[i].op != s.active[j].id)
    && (forall i :: 0 <= i < |s.active| ==> s.active[i].id in s.begun && !Names(s.committed, s.active[i].id))
    && (forall i :: 0 <= i < |s.group| ==> s.group[i].op in s.begun && !Names(s.committed, s.group[i].op))
    && (forall i :: 0 <= i < |s.committed| ==> s.committed[i].op in s.begun)
  }

  ghost predicate HomeIs(g: Geometry, d: Disk, e: Disk) {
    forall x :: x in d && !InLog(g, x) ==> x in e && d[x] == e[x]
  }

  // lh names the pinned blocks once each, and the cache's view of a home sector, over a disk
  // holding `home`, is that of all log_writes replayed.
  ghost predicate CacheIs(g: Geometry, s: Sys, home: Disk, d0: Disk) {
    forall z {:trigger CacheAt(g, s, home, d0, z)} :: CacheAt(g, s, home, d0, z)
  }

  ghost predicate CacheAt(g: Geometry, s: Sys, home: Disk, d0: Disk, z: int) {
    && Distinct(s.lh) && |s.lh| <= LOGSIZE && |s.lh| <= g.size - 1
    && (forall x :: x in s.lh <==> x in s.pinned)
    && (forall x :: x in s.pinned ==> x in d0 && !InLog(g, x) && |s.pinned[x]| == BWORDS)
    && (forall i :: 0 <= i < |s.group| ==> s.group[i].sector in s.lh)
    && (forall x :: x in d0 && x in home && !InLog(g, x) ==>
         Replay(d0, s.committed + s.group)[x] == if x in s.pinned then s.pinned[x] else home[x])
  }

  ghost predicate RunningIs(g: Geometry, s: Sys, d0: Disk) {
    && Clean(g, s.disk) && CacheIs(g, s, s.disk, d0) && HomeIs(g, s.disk, Replay(d0, s.committed))
    && (s.active == [] ==> s.group == [])
  }

  ghost predicate CommittingIs(g: Geometry, s: Sys, base: Disk, done: nat, d0: Disk) {
    forall z {:trigger CommittingAt(g, s, base, done, d0, z)} :: CommittingAt(g, s, base, done, d0, z)
  }

  ghost predicate CommittingAt(g: Geometry, s: Sys, base: Disk, done: nat, d0: Disk, z: int) {
    && base.Keys == d0.Keys && Committable(g, base, s.lh, s.pinned)
    && done <= |CommitWrites(g, base, s.lh, s.pinned)|
    && s.disk == Apply(base, CommitWrites(g, base, s.lh, s.pinned)[..done])
    && CacheIs(g, s, base, d0)
    && (done <= |s.lh| ==> HomeIs(g, base, Replay(d0, s.committed)))
    && (done > |s.lh| ==> s.group == [])
  }

  ghost predicate RecoveringIs(g: Geometry, s: Sys, base: Disk, done: nat, d0: Disk) {
    && base.Keys == d0.Keys && WellFormed(g, base) && done <= |RecoverWrites(g, base)|
    && s.disk == Apply(base, RecoverWrites(g, base)[..done])
    && s.pinned == map[] && s.lh == [] && s.group == []
    && HomeIs(g, Recover(g, base), Replay(d0, s.committed))
  }

  ghost predicate DiskIs(g: Geometry, s: Sys, d0: Disk) {
    match s.phase
    case Running => RunningIs(g, s, d0)
    case Committing(base, done) => CommittingIs(g, s, base, done, d0)
    case Recovering(base, done) => RecoveringIs(g, s, base, done, d0)
  }

  ghost predicate Inv(g: Geometry, s: Sys, d0: Disk) {
    s.disk.Keys == d0.Keys && Ops(s) && AllOrNothing(s) && DiskIs(g, s, d0)
  }

  // ---------- Each step keeps the invariant ----------

  lemma ReplaySnoc(d: Disk, es: seq<Entry>, e: Entry)
    ensures Replay(d, es + [e]) == Replay(d, es)[e.sector := e.block]
  {
    assert (es + [e])[..|es + [e]| - 1] == es;
  }

  lemma BeginKeeps(g: Geometry, s: Sys, d0: Disk, op: nat)
    requires Inv(g, s, d0) && op !in s.begun && !MustWait(s.lh, s.outstanding, s.committing) && s.phase.Running?
    ensures Inv(g, DoBegin(s, op), d0)
  {
    assert AllOrNothingAt(s, 0);
    SameCache(g, s, DoBegin(s, op), s.disk, d0);
  }

  // Steps that leave the log_writes where readers find them.
  lemma SameCache(g: Geometry, s: Sys, s': Sys, home: Disk, d0: Disk)
    requires CacheIs(g, s, home, d0) && s'.lh == s.lh && s'.pinned == s.pinned
    requires s'.committed + s'.group == s.committed + s.group && (s'.group == s.group || s'.group == [])
    ensures CacheIs(g, s', home, d0)
  {
    assert CacheAt(g, s, home, d0, 0);
  }

  lemma AppendOps(s: Sys, who: nat, sector: int, block: Block)
    requires Ops(s) && AllOrNothing(s) && who < |s.active|
    ensures Ops(DoAppend(s, who, sector, block)) && AllOrNothing(DoAppend(s, who, sector, block))
  {
    assert AllOrNothingAt(s, 0);
    AbsorbKeepsDistinct(s.lh, sector);
    var s', op := DoAppend(s, who, sector, block), s.active[who];
    forall i, x | 0 <= i < |s'.active| && x in s'.active[i].logged ensures x in s'.lh {
      if i != who || x != sector { assert x in s.active[i].logged; }
    }
    forall i | 0 <= i < |s.lost| ensures !Names(s'.group, s.lost[i].op) {
      forall j | 0 <= j < |s'.group| ensures s'.group[j].op != s.lost[i].op {
        if j < |s.group| { assert s'.group[j] == s.group[j]; }
      }
    }
  }

  lemma AbsorbKeepsDistinct(lh: seq<int>, sector: int)
    requires Distinct(lh)
    ensures Distinct(Absorb(lh, sector)) && forall x :: x in Absorb(lh, sector) <==> x in lh || x == sector
  {
  }

  lemma AppendView(g: Geometry, s: Sys, d0: Disk, who: nat, sector: int, block: Block, x: int)
    requires CacheIs(g, s, s.disk, d0) && who < |s.active| && x in d0 && x in s.disk && !InLog(g, x)
    ensures var s' := DoAppend(s, who, sector, block);
      Replay(d0, s'.committed + s'.group)[x] == if x in s'.pinned then s'.pinned[x] else s.disk[x]
  {
    assert CacheAt(g, s, s.disk, d0, 0);
    var e := Entry(s.active[who].id, sector, block);
    ReplaySnoc(d0, s.committed + s.group, e);
    assert s.committed + (s.group + [e]) == s.committed + s.group + [e];
  }

  lemma AppendCaches(g: Geometry, s: Sys, d0: Disk, who: nat, sector: int, block: Block)
    requires CacheIs(g, s, s.disk, d0) && who < |s.active| && s.disk.Keys == d0.Keys
    requires sector in d0 && !InLog(g, sector) && |block| == BWORDS && (sector in s.lh || !TooBig(g, s.lh))
    ensures CacheIs(g, DoAppend(s, who, sector, block), s.disk, d0)
  {
    assert CacheAt(g, s, s.disk, d0, 0);
    AbsorbKeepsDistinct(s.lh, sector);
    forall x | x in d0 && x in s.disk && !InLog(g, x)
      ensures var s' := DoAppend(s, who, sector, block);
        Replay(d0, s'.committed + s'.group)[x] == if x in s'.pinned then s'.pinned[x] else s.disk[x]
    {
      AppendView(g, s, d0, who, sector, block, x);
    }
  }

  lemma AppendKeeps(g: Geometry, s: Sys, d0: Disk, who: nat, sector: int, block: Block)
    requires Inv(g, s, d0) && s.phase.Running? && who < |s.active|
    requires sector in d0 && !InLog(g, sector) && |block| == BWORDS && (sector in s.lh || !TooBig(g, s.lh))
    ensures Inv(g, DoAppend(s, who, sector, block), d0)
  {
    AppendOps(s, who, sector, block);
    AppendCaches(g, s, d0, who, sector, block);
  }

  lemma TestOps(s: Sys, who: nat)
    requires Ops(s) && AllOrNothing(s) && who < |s.active|
    ensures Ops(DoTest(s, who)) && AllOrNothing(DoTest(s, who))
  {
    assert AllOrNothingAt(s, 0);
    var s' := DoTest(s, who);
    forall i, x | 0 <= i < |s'.active| && x in s'.active[i].logged ensures x in s'.lh {
      assert x in s.active[i].logged;
    }
  }

  lemma TestKeeps(g: Geometry, s: Sys, d0: Disk, who: nat)
    requires Inv(g, s, d0) && s.phase.Running? && who < |s.active|
    ensures Inv(g, DoTest(s, who), d0)
  {
    TestOps(s, who);
    SameCache(g, s, DoTest(s, who), s.disk, d0);
  }

  lemma EndOps(s: Sys, who: nat)
    requires Ops(s) && AllOrNothing(s) && who < |s.active|
    ensures Ops(DoEnd(s, who)) && AllOrNothing(DoEnd(s, who))
  {
    var s', rest := DoEnd(s, who), s.active[..who] + s.active[who + 1..];
    forall i | 0 <= i < |rest| ensures rest[i] in s.active { assert rest[i] == s.active[if i < who then i else i + 1]; }
    FewerOps(s, s');
  }

  lemma FewerOps(s: Sys, s': Sys)
    requires AllOrNothing(s) && (forall i :: 0 <= i < |s'.active| ==> s'.active[i] in s.active) && s'.begun == s.begun
    requires s'.group == s.group && s'.committed == s.committed && s'.lost == s.lost
    ensures AllOrNothing(s')
  {
    assert AllOrNothingAt(s, 0);
  }

  lemma EndKeeps(g: Geometry, s: Sys, d0: Disk, who: nat)
    requires Inv(g, s, d0) && s.phase.Running? && who < |s.active|
    ensures Inv(g, DoEnd(s, who), d0)
  {
    EndOps(s, who);
    var s' := DoEnd(s, who);
    SameCache(g, s, s', s.disk, d0);
    if s'.committing {
      CanCommit(g, s, d0);
      assert CommitWrites(g, s.disk, s.lh, s.pinned)[..0] == [];
    }
  }

  lemma CanCommit(g: Geometry, s: Sys, d0: Disk)
    requires Ops(s) && RunningIs(g, s, d0) && s.disk.Keys == d0.Keys
    ensures Committable(g, s.disk, s.lh, s.pinned)
  {
    assert CacheAt(g, s, s.disk, d0, 0);
    forall i | 0 <= i < |s.lh|
      ensures s.lh[i] in s.pinned && s.lh[i] in d0 && !InLog(g, s.lh[i]) && |s.pinned[s.lh[i]]| == BWORDS {
      var x := s.lh[i];
      assert x in s.lh;
    }
  }

  lemma CommitWriteOps(s: Sys, w: Write)
    requires Ops(s) && AllOrNothing(s) && s.phase.Committing?
    ensures Ops(DoDiskWrite(s, w)) && AllOrNothing(DoDiskWrite(s, w))
  {
    assert AllOrNothingAt(s, 0);
    var s' := DoDiskWrite(s, w);
    forall i | 0 <= i < |s'.committed|
      ensures s'.committed[i].op in s'.begun && forall j :: 0 <= j < |s.lost| ==> s'.committed[i].op != s.lost[j].op
    {
      if i >= |s.committed| {
        assert s'.committed[i] == s.group[i - |s.committed|];
      } else {
        assert s'.committed[i] == s.committed[i];
      }
    }
  }

  lemma SameOps(s: Sys, s': Sys)
    requires AllOrNothing(s) && s'.active == s.active && s'.begun == s.begun
    requires s'.group == s.group && s'.committed == s.committed && s'.lost == s.lost
    ensures AllOrNothing(s')
  {
    assert AllOrNothingAt(s, 0);
  }

  lemma CommitWriteSeen(g: Geometry, s: Sys, base: Disk, w: Write, d0: Disk)
    requires CacheIs(g, s, base, d0) && s.phase.Committing?
    ensures CacheIs(g, DoDiskWrite(s, w), base, d0)
  {
    var s' := DoDiskWrite(s, w);
    assert s.committed + s.group + [] == s.committed + s.group;
    SameCache(g, s, s', base, d0);
  }

  lemma CommitWriteLands(g: Geometry, s: Sys, base: Disk, k: nat, d0: Disk)
    requires Committable(g, base, s.lh, s.pinned) && CommittingIs(g, s, base, k, d0)
    requires k < |CommitWrites(g, base, s.lh, s.pinned)|
    requires s.phase == Committing(base, k)
    ensures CommittingIs(g, DoDiskWrite(s, CommitWrites(g, base, s.lh, s.pinned)[k]), base, k + 1, d0)
  {
    assert CommittingAt(g, s, base, k, d0, 0);
    var ws := CommitWrites(g, base, s.lh, s.pinned);
    ApplySnoc(base, ws, k);
    CommitWriteSeen(g, s, base, ws[k], d0);
  }

  lemma CommitWriteKeeps(g: Geometry, s: Sys, d0: Disk)
    requires Inv(g, s, d0) && s.phase.Committing? && Plannable(g, s) && s.phase.done < |Planned(g, s)|
    ensures Inv(g, DoDiskWrite(s, Planned(g, s)[s.phase.done]), d0)
  {
    assert CommittingAt(g, s, s.phase.base, s.phase.done, d0, 0);
    var k, base := s.phase.done, s.phase.base;
    CommitWriteLands(g, s, base, k, d0);
    WritesStayOnDisk(g, base, s.lh, s.pinned, k);
    CommitWriteOps(s, Planned(g, s)[k]);
  }

  lemma RecoverWriteKeeps(g: Geometry, s: Sys, d0: Disk)
    requires Inv(g, s, d0) && s.phase.Recovering? && s.phase.done < |Planned(g, s)|
    ensures Inv(g, DoDiskWrite(s, Planned(g, s)[s.phase.done]), d0)
  {
    SameOps(s, DoDiskWrite(s, Planned(g, s)[s.phase.done]));
    ApplySnoc(s.phase.base, Planned(g, s), s.phase.done);
  }

  lemma CommitDurable(g: Geometry, s: Sys, base: Disk, done: nat, d0: Disk)
    requires CommittingIs(g, s, base, done, d0)
    ensures WellFormed(g, s.disk) && Recover(g, s.disk).Keys == d0.Keys
    ensures HomeIs(g, Recover(g, s.disk), Replay(d0, s.committed))
  {
    assert CommittingAt(g, s, base, done, d0, 0) && CacheAt(g, s, base, d0, 0);
    CommitIsAtomic(g, base, s.lh, s.pinned, done, []);
    assert s.committed + [] == s.committed;
  }

  // What recovery would make of the disk at any moment is the committed groups, nothing else.
  lemma Durable(g: Geometry, s: Sys, d0: Disk)
    requires Inv(g, s, d0)
    ensures WellFormed(g, s.disk) && Recover(g, s.disk).Keys == d0.Keys
    ensures HomeIs(g, Recover(g, s.disk), Replay(d0, s.committed))
  {
    match s.phase
    case Running => CleanRecovery(g, s.disk);
    case Committing(base, done) => CommitDurable(g, s, base, done, d0);
    case Recovering(base, done) =>
      RecoveryRestarts(g, base, done);
      RecoveredIsClean(g, base);
  }

  lemma CommitFinished(g: Geometry, s: Sys, base: Disk, d0: Disk)
    requires Committable(g, base, s.lh, s.pinned)
    requires CommittingIs(g, s, base, |CommitWrites(g, base, s.lh, s.pinned)|, d0)
    ensures Clean(g, s.disk) && s.group == [] && s.disk.Keys == d0.Keys
    ensures forall x :: x in d0 && !InLog(g, x) ==> s.disk[x] == Replay(d0, s.committed)[x]
  {
    var ws := CommitWrites(g, base, s.lh, s.pinned);
    assert CommittingAt(g, s, base, |ws|, d0, 0);
    assert ws[..|ws|] == ws;
    CommitCompletes(g, base, s.lh, s.pinned);
    NothingLoggedNothingPending(g, s, base, d0);
    forall x | x in d0 && !InLog(g, x) ensures s.disk[x] == Replay(d0, s.committed)[x] {
      InstalledView(g, s, base, d0, x);
    }
  }

  // With the group committed, pinned blocks over the old disk are the committed log_writes.
  lemma InstalledView(g: Geometry, s: Sys, base: Disk, d0: Disk, x: int)
    requires CacheIs(g, s, base, d0) && s.group == [] && x in d0 && x in base && !InLog(g, x)
    ensures x in s.lh <==> x in s.pinned
    ensures Replay(d0, s.committed)[x] == if x in s.pinned then s.pinned[x] else base[x]
  {
    assert CacheAt(g, s, base, d0, 0);
    assert s.committed + [] == s.committed;
  }

  lemma FinishCommitKeeps(g: Geometry, s: Sys, d0: Disk)
    requires Inv(g, s, d0) && s.phase.Committing? && Plannable(g, s) && s.phase.done == |Planned(g, s)|
    ensures Inv(g, DoFinish(s), d0)
  {
    CommitFinished(g, s, s.phase.base, d0);
    SameOps(s, DoFinish(s));
    EmptyCache(g, DoFinish(s), d0);
  }

  // With nothing logged, the cache shows what the disk holds.
  lemma EmptyCache(g: Geometry, s: Sys, d0: Disk)
    requires s.lh == [] && s.pinned == map[] && s.group == [] && s.disk.Keys == d0.Keys && Clean(g, s.disk)
    requires forall x :: x in d0 && !InLog(g, x) ==> s.disk[x] == Replay(d0, s.committed)[x]
    ensures RunningIs(g, s, d0)
  {
    assert s.committed + [] == s.committed;
    assert CacheIs(g, s, s.disk, d0);
  }

  lemma NothingLoggedNothingPending(g: Geometry, s: Sys, home: Disk, d0: Disk)
    requires CacheIs(g, s, home, d0)
    ensures s.lh == [] ==> s.group == []
  {
    assert CacheAt(g, s, home, d0, 0);
    if s.group != [] { assert s.group[0].sector in s.lh; }
  }

  lemma FinishRecoveryKeeps(g: Geometry, s: Sys, d0: Disk)
    requires Inv(g, s, d0) && s.phase.Recovering? && s.phase.done == |Planned(g, s)|
    ensures Inv(g, DoFinish(s), d0)
  {
    var ws := RecoverWrites(g, s.phase.base);
    assert ws[..|ws|] == ws;
    RecoveredIsClean(g, s.phase.base);
    SameOps(s, DoFinish(s));
    EmptyCache(g, DoFinish(s), d0);
  }

  lemma CrashKeeps(g: Geometry, s: Sys, d0: Disk)
    requires Inv(g, s, d0)
    ensures Inv(g, DoCrash(s), d0)
  {
    Durable(g, s, d0);
    CrashOps(s);
    assert RecoverWrites(g, s.disk)[..0] == [];
  }

  lemma CrashOps(s: Sys)
    requires Ops(s) && AllOrNothing(s)
    ensures Ops(DoCrash(s)) && AllOrNothing(DoCrash(s))
  {
    assert AllOrNothingAt(s, 0);
    var s' := DoCrash(s);
    forall i | 0 <= i < |s'.lost| ensures s'.lost[i].op in s'.begun && !Names(s'.committed, s'.lost[i].op) {
      if i >= |s.lost| { assert s'.lost[i] == s.group[i - |s.lost|]; }
    }
  }

  // What every step keeps, with room or without: the operations, and no sector logged twice.
  lemma StepOps(g: Geometry, s: Sys, step: Step)
    requires Ops(s) && AllOrNothing(s) && Enabled(g, s, step)
    ensures Ops(Exec(g, s, step)) && AllOrNothing(Exec(g, s, step))
  {
    match step
    case Begin(op) => assert AllOrNothingAt(s, 0);
    case Test(who) => TestOps(s, who);
    case Append(who, sector, block) => AppendOps(s, who, sector, block);
    case End(who) => EndOps(s, who);
    case DiskWrite =>
      var w := Planned(g, s)[s.phase.done];
      if s.phase.Committing? { CommitWriteOps(s, w); } else { SameOps(s, DoDiskWrite(s, w)); }
    case Finish => SameOps(s, DoFinish(s));
    case Crash => CrashOps(s);
  }

  lemma {:induction false} RunOps(g: Geometry, s: Sys, steps: seq<Step>, t: Sys)
    requires Ops(s) && AllOrNothing(s) && Run(g, s, steps, t)
    ensures Ops(t) && AllOrNothing(t) && s.committed <= t.committed
    decreases |steps|
  {
    if steps != [] {
      StepOps(g, s, steps[0]);
      RunOps(g, Exec(g, s, steps[0]), steps[1..], t);
    }
  }

  lemma StepKeeps(g: Geometry, s: Sys, d0: Disk, step: Step)
    requires Inv(g, s, d0) && Enabled(g, s, step) && Room(g, s, step)
    ensures Inv(g, Exec(g, s, step), d0)
    ensures s.committed <= Exec(g, s, step).committed
  {
    match step
    case Begin(op) => BeginKeeps(g, s, d0, op);
    case Test(who) => TestKeeps(g, s, d0, who);
    case Append(who, sector, block) => AppendKeeps(g, s, d0, who, sector, block);
    case End(who) => EndKeeps(g, s, d0, who);
    case DiskWrite => if s.phase.Committing? { CommitWriteKeeps(g, s, d0); } else { RecoverWriteKeeps(g, s, d0); }
    case Finish => if s.phase.Committing? { FinishCommitKeeps(g, s, d0); } else { FinishRecoveryKeeps(g, s, d0); }
    case Crash => CrashKeeps(g, s, d0);
  }

  lemma {:induction false} RunKeeps(g: Geometry, s: Sys, d0: Disk, steps: seq<Step>, t: Sys)
    requires Inv(g, s, d0) && RunRoomy(g, s, steps, t)
    ensures Inv(g, t, d0) && s.committed <= t.committed
    decreases |steps|
  {
    if steps != [] {
      StepKeeps(g, s, d0, steps[0]);
      RunKeeps(g, Exec(g, s, steps[0]), d0, steps[1..], t);
    }
  }

  lemma BootIsInv(g: Geometry, d: Disk)
    requires WellFormed(g, d)
    ensures Inv(g, Boot(d), Recover(g, d))
  {
    RecoveredIsClean(g, d);
    assert RecoverWrites(g, d)[..0] == [];
  }

  // ---------- Main results ----------

  /**
   Whatever interleaving of operations, disk writes and crashes has happened since power-on, if each
   append that added a sector found room for it, a recovery now would leave exactly the committed
   log_writes on the home sectors; an operation with one committed log_write has none that is pending
   or that a crash dropped; and once no operation is running and no commit is in progress everything
   logged is committed.
   */
  lemma CrashSafety(g: Geometry, d: Disk, steps: seq<Step>, t: Sys)
    requires WellFormed(g, d) && RunRoomy(g, Boot(d), steps, t)
    ensures WellFormed(g, t.disk)
    ensures HomeIs(g, Recover(g, t.disk), Replay(Recover(g, d), t.committed))
    ensures forall op :: Names(t.committed, op) ==>
      !Names(t.group, op) && !Names(t.lost, op) && forall i :: 0 <= i < |t.active| ==> t.active[i].id != op
    ensures t.phase.Running? && t.active == [] ==> t.group == []
  {
    BootIsInv(g, d);
    RunKeeps(g, Boot(d), Recover(g, d), steps, t);
    Durable(g, t, Recover(g, d));
    assert AllOrNothingAt(t, 0);
  }

  // A log_write made in the course of a run: committed, pending or lost.
  ghost predicate Accounted(t: Sys, e: Entry) { e in t.committed || e in t.group || e in t.lost }

  function Logged(s: Sys, step: Step): Entry
    requires step.Append? && step.who < |s.active|
  {
    Entry(s.active[step.who].id, step.sector, step.block)
  }

  /** No log_write is forgotten: each one of a run stays among the committed, pending or lost ones. */
  lemma {:induction false} EveryWriteAccounted(g: Geometry, s: Sys, steps: seq<Step>, t: Sys, e: Entry)
    requires Run(g, s, steps, t)
    requires Accounted(s, e) || (steps != [] && steps[0].Append? && e == Logged(s, steps[0]))
    ensures Accounted(t, e)
    decreases |steps|
  {
    if steps != [] {
      var s' := Exec(g, s, steps[0]);
      assert Accounted(s', e);
      EveryWriteAccounted(g, s', steps[1..], t, e);
    }
  }

  // Commit writes log sectors and logged sectors only.
  lemma CommitFrame(g: Geometry, d: Disk, secs: seq<int>, pinned: Disk, k: nat, x: int)
    requires Committable(g, d, secs, pinned) && k <= |CommitWrites(g, d, secs, pinned)|
    requires x in d && !InLog(g, x) && x !in secs
    ensures x in Apply(d, CommitWrites(g, d, secs, pinned)[..k])
    ensures Apply(d, CommitWrites(g, d, secs, pinned)[..k])[x] == d[x]
  {
    var ws := CommitWrites(g, d, secs, pinned);
    forall i | 0 <= i < k ensures ws[..k][i].sector != x {
      if i < |secs| { assert InLog(g, LogSector(g, i)); }
    }
    ApplyFrame(d, ws[..k], x);
  }

  /** In every state such runs reach but recovery, commits in progress included, readers see all log_writes so far. */
  lemma ReadersSeeAll(g: Geometry, d: Disk, steps: seq<Step>, t: Sys, x: int)
    requires WellFormed(g, d) && RunRoomy(g, Boot(d), steps, t)
    requires !t.phase.Recovering? && x in t.disk && !InLog(g, x)
    ensures x in Recover(g, d)
    ensures (if x in t.pinned then t.pinned[x] else t.disk[x]) == Replay(Recover(g, d), t.committed + t.group)[x]
  {
    BootIsInv(g, d);
    RunKeeps(g, Boot(d), Recover(g, d), steps, t);
    Seen(g, t, Recover(g, d), x);
  }

  lemma Seen(g: Geometry, t: Sys, d0: Disk, x: int)
    requires Inv(g, t, d0) && !t.phase.Recovering? && x in d0 && !InLog(g, x)
    ensures (if x in t.pinned then t.pinned[x] else t.disk[x]) == Replay(d0, t.committed + t.group)[x]
  {
    match t.phase
    case Running => assert CacheAt(g, t, t.disk, d0, 0);
    case Committing(base, done) =>
      assert CommittingAt(g, t, base, done, d0, 0) && CacheAt(g, t, base, d0, 0);
      if x !in t.pinned { CommitFrame(g, base, t.lh, t.pinned, done, x); }
  }

  lemma {:induction false} LastWriteStays(d: Disk, ws: seq<Write>, j: nat, k: nat)
    requires j < k <= |ws| && forall m :: j < m < k ==> ws[m].sector != ws[j].sector
    ensures ws[j].sector in Apply(d, ws[..k]) && Apply(d, ws[..k])[ws[j].sector] == ws[j].block
    decreases k
  {
    ApplySnoc(d, ws, k - 1);
    if k - 1 > j { LastWriteStays(d, ws, j, k - 1); }
  }

  // A block that commit has installed is on the disk.
  lemma InstalledStays(g: Geometry, d: Disk, secs: seq<int>, pinned: Disk, k: nat, i: nat)
    requires Committable(g, d, secs, pinned) && Distinct(secs) && i < |secs|
    requires |secs| + 2 + i <= k <= |CommitWrites(g, d, secs, pinned)|
    ensures secs[i] in Apply(d, CommitWrites(g, d, secs, pinned)[..k])
    ensures Apply(d, CommitWrites(g, d, secs, pinned)[..k])[secs[i]] == pinned[secs[i]]
  {
    var ws, j := CommitWrites(g, d, secs, pinned), |secs| + 1 + i;
    assert ws[j] == Write(secs[i], pinned[secs[i]]);
    forall m | j < m < k ensures ws[m].sector != secs[i] {
      if m < |ws| - 1 { assert ws[m].sector == secs[m - |secs| - 1]; }
    }
    LastWriteStays(d, ws, j, k);
  }

  /** From the moment install_trans has written it, a block may leave the cache: the disk shows the same. */
  lemma InstalledIsSeen(g: Geometry, d: Disk, steps: seq<Step>, t: Sys, i: nat)
    requires WellFormed(g, d) && RunRoomy(g, Boot(d), steps, t)
    requires t.phase.Committing? && i < |t.lh| && t.phase.done >= |t.lh| + 2 + i
    ensures t.lh[i] in t.pinned && t.lh[i] in t.disk && t.disk[t.lh[i]] == t.pinned[t.lh[i]]
  {
    BootIsInv(g, d);
    RunKeeps(g, Boot(d), Recover(g, d), steps, t);
    LogIsDistinct(g, t, Recover(g, d));
    assert CommittingAt(g, t, t.phase.base, t.phase.done, Recover(g, d), 0);
    InstalledStays(g, t.phase.base, t.lh, t.pinned, t.phase.done, i);
  }

  lemma LogIsDistinct(g: Geometry, t: Sys, d0: Disk)
    requires Inv(g, t, d0)
    ensures Distinct(t.lh) && (t.lh == [] || (|t.lh| <= LOGSIZE && |t.lh| <= g.size - 1))
  {
    match t.phase
    case Running => assert CacheAt(g, t, t.disk, d0, 0);
    case Committing(base, done) => assert CommittingAt(g, t, base, done, d0, 0) && CacheAt(g, t, base, d0, 0);
    case Recovering(base, done) =>
  }

  lemma BootOps(d: Disk)
    ensures Ops(Boot(d)) && AllOrNothing(Boot(d))
  {
  }

  /** What is once committed stays committed, in the same order, through any later crashes. */
  lemma CommittedStays(g: Geometry, d: Disk, before: seq<Step>, s: Sys, after: seq<Step>, t: Sys)
    requires Run(g, Boot(d), before, s) && Run(g, s, after, t)
    ensures s.committed <= t.committed
  {
    BootOps(d);
    RunOps(g, Boot(d), before, s);
    RunOps(g, s, after, t);
  }

  /**
   In every run, with room or without, commit runs alone and no sector is logged twice, so the
   "log.committing" panic of end_op is unreachable.
   */
  lemma CommitRunsAlone(g: Geometry, d: Disk, steps: seq<Step>, t: Sys)
    requires Run(g, Boot(d), steps, t)
    ensures t.committing ==> t.active == [] && t.outstanding == 0
    ensures Distinct(t.lh) && t.outstanding == |t.active|
    ensures t.active != [] ==> !t.committing
  {
    BootOps(d);
    RunOps(g, Boot(d), steps, t);
  }

  // ---------- Reservations ----------

  // The operation keeps to MAXOPBLOCKS distinct sectors.
  predicate FewSectors(s: Sys, step: Step) {
    step.Append? && step.who < |s.active| ==> |s.active[step.who].logged + {step.sector}| <= MAXOPBLOCKS
  }

  // The operation keeps to MAXOPBLOCKS calls of log_write.
  predicate FewCalls(s: Sys, step: Step) {
    step.Append? && step.who < |s.active| ==> s.active[step.who].calls < MAXOPBLOCKS
  }

  ghost predicate RunSectors(g: Geometry, s: Sys, steps: seq<Step>, t: Sys)
    decreases |steps|
  {
    if steps == [] then s == t
    else Enabled(g, s, steps[0]) && FewSectors(s, steps[0]) && RunSectors(g, Exec(g, s, steps[0]), steps[1..], t)
  }

  ghost predicate RunCalls(g: Geometry, s: Sys, steps: seq<Step>, t: Sys)
    decreases |steps|
  {
    if steps == [] then s == t
    else Enabled(g, s, steps[0]) && FewCalls(s, steps[0]) && RunCalls(g, Exec(g, s, steps[0]), steps[1..], t)
  }

  // lh.n plus what running operations may still log fits the log.
  ghost predicate Fits(s: Sys) {
    && (forall i :: 0 <= i < |s.active| ==> |s.active[i].logged| <= MAXOPBLOCKS)
    && |s.lh| + Unused(s.active) <= LOGSIZE
  }

  lemma {:induction false} UnusedAppend(active: seq<Op>, op: Op)
    ensures Unused(active + [op]) == Unused(active) + MAXOPBLOCKS - |op.logged|
  {
    if active != [] {
      assert (active + [op])[1..] == active[1..] + [op];
      UnusedAppend(active[1..], op);
    }
  }

  lemma {:induction false} UnusedRemove(active: seq<Op>, i: nat)
    requires i < |active|
    ensures Unused(active) == Unused(active[..i] + active[i + 1..]) + MAXOPBLOCKS - |active[i].logged|
  {
    if i == 0 {
      assert active[..0] + active[1..] == active[1..];
    } else {
      UnusedRemove(active[1..], i - 1);
      assert (active[..i] + active[i + 1..])[1..] == active[1..][..i - 1] + active[1..][i..];
    }
  }

  lemma {:induction false} UnusedUpdate(active: seq<Op>, i: nat, op: Op)
    requires i < |active|
    ensures Unused(active[i := op]) == Unused(active) + |active[i].logged| - |op.logged|
  {
    if i > 0 {
      UnusedUpdate(active[1..], i - 1, op);
      assert active[i := op][1..] == active[1..][i - 1 := op];
    } else {
      assert active[0 := op][1..] == active[1..];
    }
  }

  lemma {:induction false} UnusedBound(active: seq<Op>)
    requires forall i :: 0 <= i < |active| ==> |active[i].logged| <= MAXOPBLOCKS
    ensures 0 <= Unused(active) <= |active| * MAXOPBLOCKS
  {
    if active != [] { UnusedBound(active[1..]); }
  }

  lemma AppendFits(s: Sys, who: nat, sector: int, block: Block)
    requires Ops(s) && Fits(s) && who < |s.active| && |s.active[who].logged + {sector}| <= MAXOPBLOCKS
    ensures Fits(DoAppend(s, who, sector, block))
  {
    var op := s.active[who];
    UnusedUpdate(s.active, who, Logs(op, sector));
    if sector in op.logged { assert op.logged + {sector} == op.logged; }
  }

  lemma EndFits(s: Sys, who: nat)
    requires Fits(s) && who < |s.active|
    ensures Fits(DoEnd(s, who))
  {
    UnusedRemove(s.active, who);
    var rest := s.active[..who] + s.active[who + 1..];
    forall i | 0 <= i < |rest| ensures |rest[i].logged| <= MAXOPBLOCKS {
      assert rest[i] == s.active[if i < who then i else i + 1];
    }
  }

  lemma BeginFits(s: Sys, op: nat)
    requires Ops(s) && Fits(s) && !MustWait(s.lh, s.outstanding, s.committing)
    ensures Fits(DoBegin(s, op))
  {
    UnusedAppend(s.active, Op(op, 0, {}, false));
    UnusedBound(s.active);
  }

  lemma StepFits(g: Geometry, s: Sys, step: Step)
    requires Ops(s) && Fits(s) && Enabled(g, s, step) && FewSectors(s, step)
    ensures Fits(Exec(g, s, step))
  {
    match step
    case Begin(op) => BeginFits(s, op);
    case Test(who) => UnusedUpdate(s.active, who, s.active[who].(passed := true));
    case Append(who, sector, block) => AppendFits(s, who, sector, block);
    case End(who) => EndFits(s, who);
    case DiskWrite =>
    case Finish =>
    case Crash =>
  }

  lemma {:induction false} RunFits(g: Geometry, s: Sys, steps: seq<Step>, t: Sys)
    requires Ops(s) && AllOrNothing(s) && Fits(s) && RunSectors(g, s, steps, t)
    ensures Ops(t) && Fits(t) && Run(g, s, steps, t)
    decreases |steps|
  {
    if steps != [] {
      StepOps(g, s, steps[0]);
      StepFits(g, s, steps[0]);
      RunFits(g, Exec(g, s, steps[0]), steps[1..], t);
    }
  }

  // Few calls log few sectors.
  lemma {:induction false} CallsBoundSectors(g: Geometry, s: Sys, steps: seq<Step>, t: Sys)
    requires Ops(s) && AllOrNothing(s) && RunCalls(g, s, steps, t)
    ensures RunSectors(g, s, steps, t)
    decreases |steps|
  {
    if steps != [] {
      StepOps(g, s, steps[0]);
      CallsBoundSectors(g, Exec(g, s, steps[0]), steps[1..], t);
    }
  }

  /**
   When every operation keeps to MAXOPBLOCKS distinct sectors, however often it logs them, what is
   logged plus what running operations may still log fits the log header. The tests of log_write
   have no part in this.
   */
  lemma GroupsAreSound(g: Geometry, d: Disk, steps: seq<Step>, t: Sys)
    requires RunSectors(g, Boot(d), steps, t)
    ensures |t.lh| + Unused(t.active) <= LOGSIZE
    ensures forall i :: 0 <= i < |t.active| ==> |t.active[i].logged| <= MAXOPBLOCKS
  {
    BootOps(d);
    RunFits(g, Boot(d), steps, t);
  }

  lemma {:induction false} OneUnused(active: seq<Op>, i: nat)
    requires i < |active| && |active[i].logged| < MAXOPBLOCKS
    requires forall j :: 0 <= j < |active| ==> |active[j].logged| <= MAXOPBLOCKS
    ensures Unused(active) >= 1
  {
    UnusedBound(active[1..]);
    if i > 0 { OneUnused(active[1..], i - 1); }
  }

  /**
   With a log larger than LOGSIZE, an operation with sectors left of its MAXOPBLOCKS never meets "too
   big a transaction".
   */
  lemma RoomNeverPanics(g: Geometry, d: Disk, steps: seq<Step>, t: Sys, i: nat)
    requires RunSectors(g, Boot(d), steps, t) && g.size > LOGSIZE
    requires i < |t.active| && |t.active[i].logged| < MAXOPBLOCKS
    ensures !TooBig(g, t.lh)
  {
    GroupsAreSound(g, d, steps, t);
    OneUnused(t.active, i);
  }

  // An operation still within its MAXOPBLOCKS calls meets "too big a transaction".
  ghost predicate WithinBudgetPanic(g: Geometry, t: Sys) {
    TooBig(g, t.lh) && exists i :: 0 <= i < |t.active| && t.active[i].calls < MAXOPBLOCKS
  }

  ghost predicate NeverPanics(g: Geometry, d: Disk) {
    forall steps, t :: RunCalls(g, Boot(d), steps, t) ==> !WithinBudgetPanic(g, t)
  }

  lemma BigLogNeverFull(g: Geometry, d: Disk, steps: seq<Step>, t: Sys)
    requires RunCalls(g, Boot(d), steps, t) && g.size > LOGSIZE
    ensures !WithinBudgetPanic(g, t)
  {
    BootOps(d);
    CallsBoundSectors(g, Boot(d), steps, t);
    RunFits(g, Boot(d), steps, t);
    if i :| 0 <= i < |t.active| && t.active[i].calls < MAXOPBLOCKS {
      RoomNeverPanics(g, d, steps, t, i);
    }
  }

  // ---------- Which runs have room ----------

  lemma {:induction false} SectorsHaveRoom(g: Geometry, s: Sys, steps: seq<Step>, t: Sys)
    requires Ops(s) && AllOrNothing(s) && Fits(s) && RunSectors(g, s, steps, t) && g.size > LOGSIZE
    ensures RunRoomy(g, s, steps, t)
    decreases |steps|
  {
    if steps != [] {
      var step := steps[0];
      StepOps(g, s, step);
      StepFits(g, s, step);
      if step.Append? && step.sector !in s.lh {
        var op := s.active[step.who];
        assert |op.logged + {step.sector}| == |op.logged| + 1;
        OneUnused(s.active, step.who);
      }
      SectorsHaveRoom(g, Exec(g, s, step), steps[1..], t);
    }
  }

  /** With a log larger than LOGSIZE, operations of at most MAXOPBLOCKS distinct sectors always find room. */
  lemma BudgetGivesRoom(g: Geometry, d: Disk, steps: seq<Step>, t: Sys)
    requires RunSectors(g, Boot(d), steps, t) && g.size > LOGSIZE
    ensures RunRoomy(g, Boot(d), steps, t)
  {
    BootOps(d);
    SectorsHaveRoom(g, Boot(d), steps, t);
  }

  // How many operations are between the test and the critical section.
  function Passed(active: seq<Op>): nat {
    if active == [] then 0 else (if active[0].passed then 1 else 0) + Passed(active[1..])
  }

  lemma {:induction false} PassedAppend(active: seq<Op>, op: Op)
    ensures Passed(active + [op]) == Passed(active) + if op.passed then 1 else 0
  {
    if active != [] {
      assert (active + [op])[1..] == active[1..] + [op];
      PassedAppend(active[1..], op);
    }
  }

  lemma {:induction false} PassedRemove(active: seq<Op>, i: nat)
    requires i < |active|
    ensures Passed(active) == Passed(active[..i] + active[i + 1..]) + if active[i].passed then 1 else 0
  {
    if i == 0 {
      assert active[..0] + active[1..] == active[1..];
    } else {
      PassedRemove(active[1..], i - 1);
      assert (active[..i] + active[i + 1..])[1..] == active[1..][..i - 1] + active[1..][i..];
    }
  }

  lemma {:induction false} PassedUpdate(active: seq<Op>, i: nat, op: Op)
    requires i < |active|
    ensures Passed(active[i := op]) + (if active[i].passed then 1 else 0) == Passed(active) + if op.passed then 1 else 0
  {
    if i > 0 {
      PassedUpdate(active[1..], i - 1, op);
      assert active[i := op][1..] == active[1..][i - 1 := op];
    } else {
      assert active[0 := op][1..] == active[1..];
    }
  }

  lemma {:induction false} PassedBound(active: seq<Op>)
    ensures Passed(active) <= |active|
  {
    if active != [] { PassedBound(active[1..]); }
  }

  // What each step does to the number of operations past the test.
  lemma PassedStep(g: Geometry, s: Sys, step: Step)
    requires Ops(s) && Enabled(g, s, step)
    ensures var p := Passed(Exec(g, s, step).active);
      match step
      case Test(_) => p == Passed(s.active) + 1
      case Append(_, _, _) => p == Passed(s.active) - 1
      case Crash => p == 0
      case _ => p == Passed(s.active)
  {
    match step
    case Begin(op) => PassedAppend(s.active, Op(op, 0, {}, false));
    case Test(who) => PassedUpdate(s.active, who, s.active[who].(passed := true));
    case Append(who, sector, block) => PassedUpdate(s.active, who, Logs(s.active[who], sector));
    case End(who) => PassedRemove(s.active, who);
    case DiskWrite =>
    case Finish =>
    case Crash =>
  }

  // No operation tests the size while another is between its test and its append.
  predicate OneAtATime(s: Sys, step: Step) { step.Test? ==> Passed(s.active) == 0 }

  ghost predicate RunOneAtATime(g: Geometry, s: Sys, steps: seq<Step>, t: Sys)
    decreases |steps|
  {
    if steps == [] then s == t
    else Enabled(g, s, steps[0]) && OneAtATime(s, steps[0]) && RunOneAtATime(g, Exec(g, s, steps[0]), steps[1..], t)
  }

  lemma {:induction false} OneHasRoom(g: Geometry, s: Sys, steps: seq<Step>, t: Sys)
    requires Ops(s) && AllOrNothing(s) && RunOneAtATime(g, s, steps, t)
    requires Passed(s.active) <= 1 && (Passed(s.active) == 1 ==> !TooBig(g, s.lh))
    ensures RunRoomy(g, s, steps, t)
    decreases |steps|
  {
    if steps != [] {
      StepOps(g, s, steps[0]);
      PassedStep(g, s, steps[0]);
      OneHasRoom(g, Exec(g, s, steps[0]), steps[1..], t);
    }
  }

  /** If no two operations are in log_write at once, each finds the room it tested for, however much it logs. */
  lemma SerialLogWritesHaveRoom(g: Geometry, d: Disk, steps: seq<Step>, t: Sys)
    requires RunOneAtATime(g, Boot(d), steps, t)
    ensures RunRoomy(g, Boot(d), steps, t)
  {
    BootOps(d);
    OneHasRoom(g, Boot(d), steps, t);
  }

  // ---------- How long the log can get ----------

  // The number of sectors at which the test begins to fail.
  function Full(g: Geometry): int { if g.size - 1 < LOGSIZE then g.size - 1 else LOGSIZE }

  // begin_op admits at most three operations, so at most three are past the test.
  ghost predicate FewAhead(g: Geometry, s: Sys) {
    && |s.active| <= 3
    && if g.size <= 1 then s.lh == [] && Passed(s.active) == 0 else |s.lh| + Passed(s.active) <= Full(g) + 2
  }

  lemma StepAhead(g: Geometry, s: Sys, step: Step)
    requires Ops(s) && FewAhead(g, s) && Enabled(g, s, step)
    ensures FewAhead(g, Exec(g, s, step))
  {
    PassedStep(g, s, step);
    PassedBound(s.active);
    PassedBound(Exec(g, s, step).active);
  }

  lemma {:induction false} RunAhead(g: Geometry, s: Sys, steps: seq<Step>, t: Sys)
    requires Ops(s) && AllOrNothing(s) && FewAhead(g, s) && Run(g, s, steps, t)
    ensures FewAhead(g, t)
    decreases |steps|
  {
    if steps != [] {
      StepOps(g, s, steps[0]);
      StepAhead(g, s, steps[0]);
      RunAhead(g, Exec(g, s, steps[0]), steps[1..], t);
    }
  }

  /** In every run the log is at most two sectors longer than the tests of log_write mean to allow. */
  lemma TwoTooMany(g: Geometry, d: Disk, steps: seq<Step>, t: Sys)
    requires WellFormed(g, d) && Run(g, Boot(d), steps, t)
    ensures |t.lh| <= if g.size == 1 then 0 else Full(g) + 2
  {
    BootOps(d);
    RunAhead(g, Boot(d), steps, t);
  }

  // The longest log of operations that keep to their MAXOPBLOCKS.
  function Longest(g: Geometry): nat
    requires g.size >= 1
  {
    if g.size == 1 then 0 else if Full(g) + 2 < LOGSIZE then Full(g) + 2 else LOGSIZE
  }

  lemma LogAtMost(g: Geometry, d: Disk, steps: seq<Step>, t: Sys)
    requires WellFormed(g, d) && RunSectors(g, Boot(d), steps, t)
    ensures |t.lh| <= Longest(g)
  {
    GroupsAreSound(g, d, steps, t);
    UnusedBound(t.active);
    BootOps(d);
    RunFits(g, Boot(d), steps, t);
    TwoTooMany(g, d, steps, t);
  }

  // ---------- Filling the log ----------

  lemma {:induction false} RunSnoc(g: Geometry, s: Sys, steps: seq<Step>, t: Sys, step: Step)
    requires RunCalls(g, s, steps, t) && Enabled(g, t, step) && FewCalls(t, step)
    ensures RunCalls(g, s, steps + [step], Exec(g, t, step))
    decreases |steps|
  {
    if steps == [] {
      assert (steps + [step])[1..] == [];
    } else {
      RunSnoc(g, Exec(g, s, steps[0]), steps[1..], t, step);
      assert (steps + [step])[1..] == steps[1..] + [step];
    }
  }

  // Which of three operations logs the k'th sector: nine each, then one more each.
  function Who(k: nat): nat { if k < 27 then k / 9 else k - 27 }

  function Share(m: nat, i: nat): nat {
    (if m <= 9 * i then 0 else if m >= 9 * i + 9 then 9 else m - 9 * i) + (if m > 27 + i then 1 else 0)
  }

  // Three operations that have between them logged secs[..m], in that many calls, and have no call open.
  ghost predicate Filled(g: Geometry, d: Disk, secs: seq<int>, m: nat, t: Sys) {
    && m <= |secs| && t.disk == d && t.phase.Running? && !t.committing && t.lh == secs[..m]
    && |t.active| == 3 && t.outstanding == 3 && (m > 0 ==> secs[0] in t.active[0].logged)
    && forall i :: 0 <= i < 3 ==> t.active[i].calls == Share(m, i) && !t.active[i].passed
  }

  lemma BootFinishes(g: Geometry, d: Disk) returns (steps: seq<Step>, t: Sys)
    requires Clean(g, d)
    ensures RunCalls(g, Boot(d), steps, t) && t == Boot(d).(phase := Running)
  {
    steps, t := [], Boot(d);
    CleanRecovery(g, d);
    var h := d[g.start];
    assert EncodeHeader(h, []) == h;
    assert Installs(g, d, HeaderSectors(h)) == [];
    assert RecoverWrites(g, d) == [Write(g.start, h)];
    RunSnoc(g, Boot(d), steps, t, DiskWrite);
    steps, t := steps + [DiskWrite], Exec(g, t, DiskWrite);
    assert t.disk == d;
    RunSnoc(g, Boot(d), steps, t, Finish);
    steps, t := steps + [Finish], Exec(g, t, Finish);
  }

  lemma ThreeBegin(g: Geometry, d: Disk, secs: seq<int>) returns (steps: seq<Step>, t: Sys)
    requires Clean(g, d)
    ensures RunCalls(g, Boot(d), steps, t) && Filled(g, d, secs, 0, t)
  {
    steps, t := BootFinishes(g, d);
    RunSnoc(g, Boot(d), steps, t, Begin(0));
    steps, t := steps + [Begin(0)], DoBegin(t, 0);
    RunSnoc(g, Boot(d), steps, t, Begin(1));
    steps, t := steps + [Begin(1)], DoBegin(t, 1);
    RunSnoc(g, Boot(d), steps, t, Begin(2));
    steps, t := steps + [Begin(2)], DoBegin(t, 2);
  }

  // One whole log_write.
  lemma RunLogWrite(g: Geometry, d: Disk, steps: seq<Step>, t: Sys, who: nat, sector: int)
    returns (more: seq<Step>, u: Sys)
    requires RunCalls(g, Boot(d), steps, t) && who < |t.active| && !t.active[who].passed && !TooBig(g, t.lh)
    requires t.active[who].calls < MAXOPBLOCKS && sector in t.disk && !InLog(g, sector) && sector !in t.lh
    requires g.start in d && |d[g.start]| == BWORDS
    ensures RunCalls(g, Boot(d), more, u) && u == DoAppend(DoTest(t, who), who, sector, d[g.start])
  {
    RunSnoc(g, Boot(d), steps, t, Test(who));
    more, u := steps + [Test(who)], DoTest(t, who);
    var step := Append(who, sector, d[g.start]);
    RunSnoc(g, Boot(d), more, u, step);
    more, u := more + [step], DoAppend(u, who, sector, d[g.start]);
  }

  lemma {:induction false} FillLog(g: Geometry, d: Disk, secs: seq<int>, m: nat) returns (steps: seq<Step>, t: Sys)
    requires Clean(g, d) && Distinct(secs) && m <= |secs| && m <= LOGSIZE && m <= g.size - 1
    requires forall i :: 0 <= i < |secs| ==> secs[i] in d && !InLog(g, secs[i])
    ensures RunCalls(g, Boot(d), steps, t) && Filled(g, d, secs, m, t)
  {
    if m == 0 {
      steps, t := ThreeBegin(g, d, secs);
    } else {
      steps, t := FillLog(g, d, secs, m - 1);
      var who, was := Who(m - 1), t;
      assert secs[m - 1] !in t.lh;
      assert t.active[who].calls == Share(m - 1, who);
      steps, t := RunLogWrite(g, d, steps, t, who, secs[m - 1]);
      assert t.lh == secs[..m];
      forall i | 0 <= i < 3 ensures t.active[i].calls == Share(m, i) && !t.active[i].passed {
        assert was.active[i].calls == Share(m - 1, i);
      }
    }
  }

  /**
   The panic "too big a transaction" is out of reach of operations that keep to MAXOPBLOCKS calls
   exactly when the log area is larger than LOGSIZE sectors: log_write refuses at log.size - 1.
   */
  lemma LogLargeEnoughIff(g: Geometry, d: Disk, secs: seq<int>)
    requires Clean(g, d) && Distinct(secs) && |secs| == LOGSIZE
    requires forall i :: 0 <= i < |secs| ==> secs[i] in d && !InLog(g, secs[i])
    ensures g.size > LOGSIZE <==> NeverPanics(g, d)
  {
    if g.size > LOGSIZE {
      forall steps, t | RunCalls(g, Boot(d), steps, t) ensures !WithinBudgetPanic(g, t) {
        BigLogNeverFull(g, d, steps, t);
      }
    } else {
      var steps, t := FillLog(g, d, secs, g.size - 1);
      assert t.active[2].calls < MAXOPBLOCKS;
      assert RunCalls(g, Boot(d), steps, t) && WithinBudgetPanic(g, t);
    }
  }

  /**
   For no panic at all the bound has to be on calls, not on distinct blocks: with three operations
   that have each logged MAXOPBLOCKS distinct blocks, logging one of those again, which would be
   absorbed and take no room, panics.
   */
  lemma AbsorbedWriteCanPanic(g: Geometry, d: Disk, secs: seq<int>)
    requires Clean(g, d) && Distinct(secs) && |secs| == LOGSIZE && g.size > LOGSIZE
    requires forall i :: 0 <= i < |secs| ==> secs[i] in d && !InLog(g, secs[i])
    ensures exists steps, t ::
              && RunSectors(g, Boot(d), steps, t) && t.active != [] && TooBig(g, t.lh)
              && FewSectors(t, Append(0, secs[0], d[g.start])) && Absorb(t.lh, secs[0]) == t.lh
  {
    var steps, t := FillLog(g, d, secs, LOGSIZE);
    BootOps(d);
    CallsBoundSectors(g, Boot(d), steps, t);
    RunFits(g, Boot(d), steps, t);
    var op := t.active[0];
    assert op.logged + {secs[0]} == op.logged;
    assert secs[..LOGSIZE] == secs && t.lh[0] == secs[0];
  }

  // ---------- Tests that several operations pass ----------

  // Operations who .. 3 have passed the test; then they append, one after the other.
  lemma {:induction false} AllTest(g: Geometry, d: Disk, steps: seq<Step>, t: Sys, who: nat)
    returns (more: seq<Step>, u: Sys)
    requires RunCalls(g, Boot(d), steps, t) && |t.active| == 3 && who <= 3 && !TooBig(g, t.lh)
    requires forall i :: who <= i < 3 ==> !t.active[i].passed
    ensures RunCalls(g, Boot(d), more, u) && |u.active| == 3
    ensures u == t.(active := u.active) && forall i :: 0 <= i < 3 ==>
      u.active[i] == if who <= i then t.active[i].(passed := true) else t.active[i]
    decreases 3 - who
  {
    more, u := steps, t;
    if who < 3 {
      RunSnoc(g, Boot(d), steps, t, Test(who));
      more, u := AllTest(g, d, steps + [Test(who)], DoTest(t, who), who + 1);
    }
  }

  lemma {:induction false} AllAppend(g: Geometry, d: Disk, secs: seq<int>, steps: seq<Step>, t: Sys, who: nat)
    returns (more: seq<Step>, u: Sys)
    requires RunCalls(g, Boot(d), steps, t) && |t.active| == 3 && who <= 3 && Clean(g, d) && t.disk == d
    requires forall i :: who <= i < 3 ==> t.active[i].passed && t.active[i].calls < MAXOPBLOCKS
    requires forall i :: 0 <= i < who ==> !t.active[i].passed
    requires Distinct(secs) && |t.lh| + 3 - who <= |secs| && t.lh <= secs
    requires forall i :: 0 <= i < |secs| ==> secs[i] in d && !InLog(g, secs[i])
    ensures RunCalls(g, Boot(d), more, u) && u.lh == secs[..|t.lh| + 3 - who] && |u.active| == 3
    ensures u.outstanding == t.outstanding && u.committing == t.committing && u.phase == t.phase && u.disk == t.disk
    ensures forall i :: 0 <= i < 3 ==> !u.active[i].passed
    decreases 3 - who
  {
    more, u := steps, t;
    if who < 3 {
      var m := |t.lh|;
      assert secs[m] !in t.lh;
      var step := Append(who, secs[m], d[g.start]);
      RunSnoc(g, Boot(d), steps, t, step);
      var v := DoAppend(t, who, secs[m], d[g.start]);
      assert v.lh == secs[..m + 1];
      more, u := AllAppend(g, d, secs, steps + [step], v, who + 1);
    } else {
      assert t.lh == secs[..|t.lh|];
    }
  }

  lemma ThreeEnd(g: Geometry, d: Disk, steps: seq<Step>, t: Sys) returns (more: seq<Step>, u: Sys)
    requires RunCalls(g, Boot(d), steps, t) && |t.active| == 3 && t.outstanding == 3
    requires !t.committing && t.phase.Running? && forall i :: 0 <= i < 3 ==> !t.active[i].passed
    ensures RunCalls(g, Boot(d), more, u) && u.phase.Committing? && u.lh == t.lh && u.disk == t.disk
  {
    RunSnoc(g, Boot(d), steps, t, End(0));
    more, u := steps + [End(0)], DoEnd(t, 0);
    RunSnoc(g, Boot(d), more, u, End(0));
    more, u := more + [End(0)], DoEnd(u, 0);
    RunSnoc(g, Boot(d), more, u, End(0));
    more, u := more + [End(0)], DoEnd(u, 0);
  }

  // Fill the log to one below the limit; the last two or three operations test before any of them appends.
  lemma Overtake(g: Geometry, d: Disk, secs: seq<int>) returns (steps: seq<Step>, t: Sys)
    requires Clean(g, d) && Distinct(secs) && |secs| == LOGSIZE && 2 <= g.size <= LOGSIZE
    requires forall i :: 0 <= i < |secs| ==> secs[i] in d && !InLog(g, secs[i])
    ensures RunCalls(g, Boot(d), steps, t) && |t.lh| == Longest(g) && |t.active| == 3 && t.outstanding == 3
    ensures t.disk == d && !t.committing && t.phase.Running? && forall i :: 0 <= i < 3 ==> !t.active[i].passed
  {
    var first := if g.size == LOGSIZE then 1 else 0;
    steps, t := FillLog(g, d, secs, g.size - 2);
    var m := t;
    forall i | first <= i < 3 ensures t.active[i].calls < MAXOPBLOCKS {
      assert t.active[i].calls == Share(g.size - 2, i);
    }
    steps, t := AllTest(g, d, steps, t, first);
    assert t.lh == secs[..g.size - 2];
    steps, t := AllAppend(g, d, secs, steps, t, first);
  }

  /**
   The longest log that operations within MAXOPBLOCKS calls can build, and commit starts with: with a
   log area of LOGSIZE sectors or fewer it is longer than the area has room for.
   */
  lemma LongestLog(g: Geometry, d: Disk, secs: seq<int>) returns (steps: seq<Step>, t: Sys)
    requires Clean(g, d) && Distinct(secs) && |secs| == LOGSIZE
    requires forall i :: 0 <= i < |secs| ==> secs[i] in d && !InLog(g, secs[i])
    ensures RunCalls(g, Boot(d), steps, t) && t.phase.Committing? && |t.lh| == Longest(g) && t.disk == d
  {
    if g.size == 1 {
      steps, t := ThreeBegin(g, d, secs);
    } else if g.size <= LOGSIZE {
      steps, t := Overtake(g, d, secs);
    } else {
      steps, t := FillLog(g, d, secs, LOGSIZE);
    }
    steps, t := ThreeEnd(g, d, steps, t);
  }

  // Every log of operations within MAXOPBLOCKS distinct sectors fits the log area.
  ghost predicate NeverOverflows(g: Geometry, d: Disk) {
    forall steps, t :: RunSectors(g, Boot(d), steps, t) ==> |t.lh| <= g.size - 1
  }

  /**
   Operations that keep to MAXOPBLOCKS distinct sectors never overflow the log area exactly when it has
   more than LOGSIZE sectors, or only the header's.
   */
  lemma NeverOverflowsIff(g: Geometry, d: Disk, secs: seq<int>)
    requires Clean(g, d) && Distinct(secs) && |secs| == LOGSIZE
    requires forall i :: 0 <= i < |secs| ==> secs[i] in d && !InLog(g, secs[i])
    ensures g.size > LOGSIZE || g.size == 1 <==> NeverOverflows(g, d)
  {
    if g.size > LOGSIZE || g.size == 1 {
      forall steps, t | RunSectors(g, Boot(d), steps, t) ensures |t.lh| <= g.size - 1 { LogAtMost(g, d, steps, t); }
    } else {
      var steps, t := LongestLog(g, d, secs);
      BootOps(d);
      CallsBoundSectors(g, Boot(d), steps, t);
    }
  }

  /**
   What an overflow does: commit's last log block goes to a sector beyond the log area, and the header
   it then writes is one that recovery has no log blocks for.
   */
  lemma OverflowCorrupts(g: Geometry, d: Disk, secs: seq<int>) returns (steps: seq<Step>, t: Sys)
    requires Clean(g, d) && Distinct(secs) && |secs| == LOGSIZE && 2 <= g.size <= LOGSIZE
    requires forall i :: 0 <= i < |secs| ==> secs[i] in d && !InLog(g, secs[i])
    ensures RunCalls(g, Boot(d), steps, t) && t.phase.Committing? && |t.lh| >= g.size && t.disk == d
    ensures LogSector(g, |t.lh| - 1) >= g.start + g.size
    ensures |t.lh| <= LOGSIZE && !WellFormed(g, d[g.start := EncodeHeader(d[g.start], t.lh)])
  {
    steps, t := LongestLog(g, d, secs);
    var e := d[g.start := EncodeHeader(d[g.start], t.lh)];
    assert HeaderSectors(e[g.start]) == t.lh;
  }

  lemma {:induction false} RunOn(g: Geometry, s: Sys, steps: seq<Step>, t: Sys, step: Step)
    requires Run(g, s, steps, t) && Enabled(g, t, step)
    ensures Run(g, s, steps + [step], Exec(g, t, step))
    decreases |steps|
  {
    if steps == [] {
      assert (steps + [step])[1..] == [];
    } else {
      RunOn(g, Exec(g, s, steps[0]), steps[1..], t, step);
      assert (steps + [step])[1..] == steps[1..] + [step];
    }
  }

  /** Without a bound on what an operation logs a large log area is no help: the header's array overflows. */
  lemma HeaderOverrun(g: Geometry, d: Disk, secs: seq<int>) returns (steps: seq<Step>, t: Sys)
    requires Clean(g, d) && Distinct(secs) && |secs| == LOGSIZE + 1 && g.size > LOGSIZE
    requires forall i :: 0 <= i < |secs| ==> secs[i] in d && !InLog(g, secs[i])
    ensures Run(g, Boot(d), steps, t) && |t.lh| == LOGSIZE + 1
  {
    steps, t := FillLog(g, d, secs, LOGSIZE - 1);
    BootOps(d);
    CallsBoundSectors(g, Boot(d), steps, t);
    RunFits(g, Boot(d), steps, t);
    RunOn(g, Boot(d), steps, t, Test(1));
    steps, t := steps + [Test(1)], DoTest(t, 1);
    RunOn(g, Boot(d), steps, t, Test(2));
    steps, t := steps + [Test(2)], DoTest(t, 2);
    var one, two := Append(1, secs[LOGSIZE - 1], d[g.start]), Append(2, secs[LOGSIZE], d[g.start]);
    RunOn(g, Boot(d), steps, t, one);
    steps, t := steps + [one], DoAppend(t, 1, secs[LOGSIZE - 1], d[g.start]);
    assert t.lh == secs[..LOGSIZE];
    RunOn(g, Boot(d), steps, t, two);
    steps, t := steps + [two], DoAppend(t, 2, secs[LOGSIZE], d[g.start]);
  }

  // ---------- Buffers for the commit ----------

  // With r buffers busy for others, the log pins all that are left when the commit needs one.
  predicate NoBufferLeft(t: Sys, r: nat) { t.phase.Committing? && t.lh != [] && |t.lh| + r >= BufferCache.NBUF }

  ghost predicate AlwaysBufferLeft(g: Geometry, d: Disk, r: nat) {
    forall steps, t :: RunCalls(g, Boot(d), steps, t) ==> !NoBufferLeft(t, r)
  }

  /**
   A commit needs a buffer that neither the log pins nor a reader outside every operation holds. With r
   buffers held it always has one exactly when the longest log and they are fewer than NBUF; LOGSIZE and
   NBUF are the same, so a log area that LogLargeEnoughIff finds large enough never leaves one.
   */
  lemma BufferLeftIff(g: Geometry, d: Disk, secs: seq<int>, r: nat)
    requires Clean(g, d) && Distinct(secs) && |secs| == LOGSIZE
    requires forall i :: 0 <= i < |secs| ==> secs[i] in d && !InLog(g, secs[i])
    ensures g.size == 1 || Longest(g) + r < BufferCache.NBUF <==> AlwaysBufferLeft(g, d, r)
  {
    BootOps(d);
    if g.size == 1 || Longest(g) + r < BufferCache.NBUF {
      forall steps, t | RunCalls(g, Boot(d), steps, t) ensures !NoBufferLeft(t, r) {
        CallsBoundSectors(g, Boot(d), steps, t);
        LogAtMost(g, d, steps, t);
      }
    } else {
      var steps, t := LongestLog(g, d, secs);
      assert RunCalls(g, Boot(d), steps, t) && NoBufferLeft(t, r);
    }
  }
}
