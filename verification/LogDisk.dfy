/**
 The on-disk write-ahead log of log.c: what `commit` and `recover_from_log` write, sector by
 sector, and what a crash between any two of those writes leaves behind.
 */
module LogDisk {

  const MAXOPBLOCKS := 10
  const LOGSIZE := 3 * MAXOPBLOCKS

  // A sector is BWORDS 32-bit words; the log header uses word 0 for `n` and words 1..n for `sector[]`.
  const BWORDS := 128

  type Block = seq<int>
  type Disk = map<int, Block>

  // One `bwrite`, which reaches the disk entirely or not at all.
  datatype Write = Write(sector: int, block: Block)

  // log.start and log.size
  datatype Geometry = Geometry(start: int, size: int)

  function Apply(d: Disk, ws: seq<Write>): (r: Disk)
    ensures r.Keys >= d.Keys
  {
    if ws == [] then d
    else
      var w := ws[|ws| - 1];
      Apply(d, ws[..|ws| - 1])[w.sector := w.block]
  }

  function Sectors(ws: seq<Write>): set<int> {
    set i | 0 <= i < |ws| :: ws[i].sector
  }

  lemma ApplySnoc(d: Disk, ws: seq<Write>, k: nat)
    requires k < |ws|
    ensures Apply(d, ws[..k + 1]) == Apply(d, ws[..k])[ws[k].sector := ws[k].block]
  {
    assert ws[..k + 1][..k] == ws[..k];
  }

  lemma {:induction false} ApplyConcat(d: Disk, a: seq<Write>, b: seq<Write>)
    ensures Apply(d, a + b) == Apply(Apply(d, a), b)
    decreases |b|
  {
    if b == [] {
      assert a + b == a;
    } else {
      assert (a + b)[..|a + b| - 1] == a + b[..|b| - 1];
      ApplyConcat(d, a, b[..|b| - 1]);
    }
  }

  // A sector that no write names keeps its contents.
  lemma {:induction false} ApplyFrame(d: Disk, ws: seq<Write>, s: int)
    requires s !in Sectors(ws)
    ensures s in Apply(d, ws) <==> s in d
    ensures s in d ==> Apply(d, ws)[s] == d[s]
  {
    if ws != [] {
      var init := ws[..|ws| - 1];
      assert ws[|ws| - 1].sector != s;
      assert forall i :: 0 <= i < |init| ==> init[i] == ws[i];
      ApplyFrame(d, init, s);
    }
  }

  // A sector that some write names ends up the same whatever the disk held before.
  lemma {:induction false} ApplyOverwrites(d: Disk, e: Disk, ws: seq<Write>, s: int)
    requires s in Sectors(ws)
    ensures s in Apply(d, ws) && s in Apply(e, ws) && Apply(d, ws)[s] == Apply(e, ws)[s]
  {
    var w := ws[|ws| - 1];
    if w.sector != s {
      var init := ws[..|ws| - 1];
      var i :| 0 <= i < |ws| && ws[i].sector == s;
      assert init[i].sector == s;
      ApplyOverwrites(d, e, init, s);
    }
  }

  lemma {:induction false} ApplyKeepsShape(d: Disk, ws: seq<Write>)
    requires forall s :: s in d ==> |d[s]| == BWORDS
    requires forall i :: 0 <= i < |ws| ==> ws[i].sector in d && |ws[i].block| == BWORDS
    ensures Apply(d, ws).Keys == d.Keys
    ensures forall s :: s in d ==> |Apply(d, ws)[s]| == BWORDS
  {
    if ws != [] {
      ApplyKeepsShape(d, ws[..|ws| - 1]);
    }
  }

  // ---------- The header block ----------

  function HeaderSectors(b: Block): seq<int>
    requires |b| == BWORDS && 0 <= b[0] <= LOGSIZE
  {
    b[1..1 + b[0]]
  }

  // write_head over a buffer holding `b`: the words past the last sector keep their old value.
  function EncodeHeader(b: Block, secs: seq<int>): (r: Block)
    requires |b| == BWORDS && |secs| <= LOGSIZE
    ensures |r| == BWORDS && r[0] == |secs| && HeaderSectors(r) == secs
  {
    [|secs|] + secs + b[1 + |secs|..]
  }

  predicate InLog(g: Geometry, s: int) { g.start <= s < g.start + g.size }

  // The log block that holds the i'th logged sector.
  function LogSector(g: Geometry, i: int): int { g.start + i + 1 }

  // A transaction the log has room for, all of whose sectors lie outside the log area.
  ghost predicate Loggable(g: Geometry, d: Disk, secs: seq<int>) {
    && |secs| <= LOGSIZE && |secs| <= g.size - 1
    && forall i :: 0 <= i < |secs| ==> secs[i] in d && !InLog(g, secs[i])
  }

  ghost predicate WellFormed(g: Geometry, d: Disk) {
    && 1 <= g.size
    && (forall s :: s in d ==> |d[s]| == BWORDS)
    && (forall s :: InLog(g, s) ==> s in d)
    && InLog(g, g.start)
    && 0 <= d[g.start][0] <= LOGSIZE
    && Loggable(g, d, HeaderSectors(d[g.start]))
  }

  ghost predicate Clean(g: Geometry, d: Disk) {
    WellFormed(g, d) && d[g.start][0] == 0
  }

  ghost predicate SameHome(g: Geometry, d: Disk, e: Disk) {
    && d.Keys == e.Keys
    && forall s :: s in d && !InLog(g, s) ==> d[s] == e[s]
  }

  // ---------- Recovery ----------

  ghost function Installs(g: Geometry, d: Disk, secs: seq<int>): (ws: seq<Write>)
    requires forall s :: InLog(g, s) ==> s in d
    requires |secs| <= g.size - 1
    ensures |ws| == |secs|
  {
    seq(|secs|, i requires 0 <= i < |secs| =>
      assert InLog(g, LogSector(g, i)); Write(secs[i], d[LogSector(g, i)]))
  }

  // Every sector write of recover_from_log, in order.
  ghost function RecoverWrites(g: Geometry, d: Disk): (ws: seq<Write>)
    requires WellFormed(g, d)
    ensures |ws| == d[g.start][0] + 1
  {
    Installs(g, d, HeaderSectors(d[g.start])) + [Write(g.start, EncodeHeader(d[g.start], []))]
  }

  ghost function Recover(g: Geometry, d: Disk): Disk
    requires WellFormed(g, d)
  {
    Apply(d, RecoverWrites(g, d))
  }

  // After k of the installs the log area is untouched, so recovery would redo the same writes.
  lemma PartialInstall(g: Geometry, d: Disk, k: nat)
    requires WellFormed(g, d) && k <= d[g.start][0]
    ensures var e := Apply(d, RecoverWrites(g, d)[..k]);
      WellFormed(g, e) && e.Keys == d.Keys && (forall s :: InLog(g, s) ==> e[s] == d[s])
      && RecoverWrites(g, e) == RecoverWrites(g, d)
  {
    var secs := HeaderSectors(d[g.start]);
    var all := Installs(g, d, secs);
    var ws := all[..k];
    assert RecoverWrites(g, d)[..k] == ws;
    forall i | 0 <= i < k ensures ws[i].sector in d && |ws[i].block| == BWORDS && !InLog(g, ws[i].sector) {
      assert InLog(g, LogSector(g, i)) && ws[i] == Write(secs[i], d[LogSector(g, i)]);
    }
    ApplyKeepsShape(d, ws);
    var e := Apply(d, ws);
    forall s | InLog(g, s) ensures e[s] == d[s] {
      ApplyFrame(d, ws, s);
    }
    SameLogSameRecovery(g, d, e);
  }

  lemma SameLogSameRecovery(g: Geometry, d: Disk, e: Disk)
    requires WellFormed(g, d) && e.Keys == d.Keys
    requires forall s :: s in e ==> |e[s]| == BWORDS
    requires forall s :: InLog(g, s) ==> e[s] == d[s]
    ensures WellFormed(g, e) && RecoverWrites(g, e) == RecoverWrites(g, d)
  {
    var secs := HeaderSectors(d[g.start]);
    forall i | 0 <= i < |secs| ensures Installs(g, d, secs)[i] == Installs(g, e, secs)[i] {
      assert InLog(g, LogSector(g, i));
    }
    assert Installs(g, d, secs) == Installs(g, e, secs);
  }

  lemma CleanRecovery(g: Geometry, d: Disk)
    requires Clean(g, d)
    ensures Recover(g, d) == d
  {
    var h := d[g.start];
    assert EncodeHeader(h, []) == h;
    var ws := [Write(g.start, h)];
    assert Installs(g, d, HeaderSectors(h)) == [];
    assert RecoverWrites(g, d) == ws;
    assert ws[..|ws| - 1] == [];
    assert Apply(d, ws) == Apply(d, [])[g.start := h] == d;
  }

  lemma RecoveredIsClean(g: Geometry, d: Disk)
    requires WellFormed(g, d)
    ensures Clean(g, Recover(g, d)) && Recover(g, d).Keys == d.Keys
  {
    var ws := RecoverWrites(g, d);
    var n := d[g.start][0];
    PartialInstall(g, d, n);
    ApplySnoc(d, ws, n);
    assert ws[..n + 1] == ws;
  }

  /** A recovery that crashes after any number of its writes can simply be started again. */
  lemma RecoveryRestarts(g: Geometry, d: Disk, k: nat)
    requires WellFormed(g, d) && k <= |RecoverWrites(g, d)|
    ensures var e := Apply(d, RecoverWrites(g, d)[..k]);
      WellFormed(g, e) && Recover(g, e) == Recover(g, d)
  {
    var ws := RecoverWrites(g, d);
    var e := Apply(d, ws[..k]);
    if k == |ws| {
      assert ws[..k] == ws;
      RecoveredIsClean(g, d);
      CleanRecovery(g, e);
    } else {
      PartialInstall(g, d, k);
      forall s ensures s in Apply(e, ws) <==> s in Apply(d, ws)
               ensures s in Apply(d, ws) ==> Apply(e, ws)[s] == Apply(d, ws)[s] {
        if s in Sectors(ws) {
          ApplyOverwrites(e, d, ws, s);
        } else {
          assert forall i :: 0 <= i < k ==> ws[..k][i] == ws[i];
          ApplyFrame(d, ws[..k], s);
          ApplyFrame(e, ws, s);
          ApplyFrame(d, ws, s);
        }
      }
    }
  }

  // Successive boots that crash after crashes[0], crashes[1], ... of their recovery writes.
  ghost function CrashingBoots(g: Geometry, d: Disk, crashes: seq<nat>): (e: Disk)
    requires WellFormed(g, d)
    ensures WellFormed(g, e)
    decreases |crashes|
  {
    if crashes == [] then d
    else
      var ws := RecoverWrites(g, d);
      var k := if crashes[0] <= |ws| then crashes[0] else |ws|;
      RecoveryRestarts(g, d, k);
      CrashingBoots(g, Apply(d, ws[..k]), crashes[1..])
  }

  lemma {:induction false} CrashingBootsHarmless(g: Geometry, d: Disk, crashes: seq<nat>)
    requires WellFormed(g, d)
    ensures Recover(g, CrashingBoots(g, d, crashes)) == Recover(g, d)
    decreases |crashes|
  {
    if crashes != [] {
      var ws := RecoverWrites(g, d);
      var k := if crashes[0] <= |ws| then crashes[0] else |ws|;
      RecoveryRestarts(g, d, k);
      CrashingBootsHarmless(g, Apply(d, ws[..k]), crashes[1..]);
    }
  }

  // ---------- Commit ----------

  ghost predicate Committable(g: Geometry, d: Disk, secs: seq<int>, pinned: Disk) {
    && Clean(g, d) && Loggable(g, d, secs)
    && forall i :: 0 <= i < |secs| ==> secs[i] in pinned && |pinned[secs[i]]| == BWORDS
  }

  ghost function LogCopies(g: Geometry, secs: seq<int>, pinned: Disk): (ws: seq<Write>)
    requires forall i :: 0 <= i < |secs| ==> secs[i] in pinned
    ensures |ws| == |secs|
  {
    seq(|secs|, i requires 0 <= i < |secs| => Write(LogSector(g, i), pinned[secs[i]]))
  }

  // Every sector write of commit, in order: log blocks, header, home blocks, cleared header.
  ghost function CommitWrites(g: Geometry, d: Disk, secs: seq<int>, pinned: Disk): (ws: seq<Write>)
    requires Committable(g, d, secs, pinned)
    ensures |ws| == if secs == [] then 0 else 2 * |secs| + 2
  {
    if secs == [] then []
    else
      var header := EncodeHeader(d[g.start], secs);
      LogCopies(g, secs, pinned) + [Write(g.start, header)]
      + seq(|secs|, i requires 0 <= i < |secs| => Write(secs[i], pinned[secs[i]]))
      + [Write(g.start, EncodeHeader(header, []))]
  }

  // Before the header reaches the disk only log data blocks have changed.
  lemma BeforeCommitPoint(g: Geometry, d: Disk, secs: seq<int>, pinned: Disk, k: nat)
    requires Committable(g, d, secs, pinned) && k <= |secs|
    ensures var e := Apply(d, CommitWrites(g, d, secs, pinned)[..k]);
      Clean(g, e) && SameHome(g, d, e) && e[g.start] == d[g.start]
  {
    var ws := LogCopies(g, secs, pinned)[..k];
    assert CommitWrites(g, d, secs, pinned)[..k] == ws;
    forall i | 0 <= i < k ensures ws[i].sector != g.start && InLog(g, ws[i].sector) && |ws[i].block| == BWORDS {
      assert InLog(g, LogSector(g, i));
    }
    ApplyKeepsShape(d, ws);
    var e := Apply(d, ws);
    ApplyFrame(d, ws, g.start);
    forall s | s in d && !InLog(g, s) ensures e[s] == d[s] {
      ApplyFrame(d, ws, s);
    }
  }

  lemma {:induction false} LogCopiesLand(g: Geometry, d: Disk, secs: seq<int>, pinned: Disk, k: nat, i: nat)
    requires forall j :: 0 <= j < |secs| ==> secs[j] in pinned
    requires i < k <= |secs|
    ensures LogSector(g, i) in Apply(d, LogCopies(g, secs, pinned)[..k])
    ensures Apply(d, LogCopies(g, secs, pinned)[..k])[LogSector(g, i)] == pinned[secs[i]]
  {
    ApplySnoc(d, LogCopies(g, secs, pinned), k - 1);
    if i < k - 1 {
      LogCopiesLand(g, d, secs, pinned, k - 1, i);
    }
  }

  // The header write makes recovery install exactly what commit goes on to install.
  lemma AtCommitPoint(g: Geometry, d: Disk, secs: seq<int>, pinned: Disk)
    requires Committable(g, d, secs, pinned) && secs != []
    ensures var ws := CommitWrites(g, d, secs, pinned);
      var e := Apply(d, ws[..|secs| + 1]);
      && WellFormed(g, e) && SameHome(g, d, e) && HeaderSectors(e[g.start]) == secs
      && RecoverWrites(g, e) == ws[|secs| + 1..]
      && forall i :: 0 <= i < |secs| ==> e[LogSector(g, i)] == pinned[secs[i]]
  {
    var ws := CommitWrites(g, d, secs, pinned);
    var n := |secs|;
    BeforeCommitPoint(g, d, secs, pinned, n);
    ApplySnoc(d, ws, n);
    var e0, e := Apply(d, ws[..n]), Apply(d, ws[..n + 1]);
    assert e == e0[g.start := EncodeHeader(d[g.start], secs)];
    var copies := LogCopies(g, secs, pinned);
    assert ws[..n] == copies[..n];
    forall i | 0 <= i < n ensures e[LogSector(g, i)] == pinned[secs[i]] {
      LogCopiesLand(g, d, secs, pinned, n, i);
    }
    CommitSuffix(g, d, e, secs, pinned);
  }

  lemma CommitSuffix(g: Geometry, d: Disk, e: Disk, secs: seq<int>, pinned: Disk)
    requires Committable(g, d, secs, pinned) && secs != [] && WellFormed(g, e)
    requires e[g.start] == EncodeHeader(d[g.start], secs)
    requires forall i :: 0 <= i < |secs| ==> e[LogSector(g, i)] == pinned[secs[i]]
    ensures RecoverWrites(g, e) == CommitWrites(g, d, secs, pinned)[|secs| + 1..]
  {
    assert HeaderSectors(e[g.start]) == secs;
    var n := |secs|;
    var ws := CommitWrites(g, d, secs, pinned)[n + 1..];
    assert |RecoverWrites(g, e)| == |ws| == n + 1;
    forall i | 0 <= i < n ensures RecoverWrites(g, e)[i] == ws[i] {
      assert ws[i] == Write(secs[i], pinned[secs[i]]);
    }
  }

  lemma RecoverHome(g: Geometry, d: Disk, pinned: Disk, s: int)
    requires WellFormed(g, d) && s in d && !InLog(g, s)
    requires var secs := HeaderSectors(d[g.start]);
      forall i :: 0 <= i < |secs| ==> secs[i] in pinned && LogSector(g, i) in d && d[LogSector(g, i)] == pinned[secs[i]]
    ensures Recover(g, d).Keys == d.Keys
    ensures Recover(g, d)[s] == if s in HeaderSectors(d[g.start]) then pinned[s] else d[s]
  {
    RecoveredIsClean(g, d);
    var secs := HeaderSectors(d[g.start]);
    var ws := Installs(g, d, secs);
    assert RecoverWrites(g, d)[..|ws|] == ws;
    ApplySnoc(d, RecoverWrites(g, d), |ws|);
    assert RecoverWrites(g, d)[..|ws| + 1] == RecoverWrites(g, d);
    InstallsHome(d, ws, pinned, s);
    assert s in secs <==> s in Sectors(ws) by {
      if s in secs { var i :| 0 <= i < |secs| && secs[i] == s; assert ws[i].sector == s; }
    }
  }

  lemma {:induction false} InstallsHome(d: Disk, ws: seq<Write>, pinned: Disk, s: int)
    requires s in d
    requires forall i :: 0 <= i < |ws| ==> ws[i].sector in pinned && ws[i].block == pinned[ws[i].sector]
    ensures Apply(d, ws)[s] == if s in Sectors(ws) then pinned[s] else d[s]
  {
    if ws != [] {
      var init := ws[..|ws| - 1];
      InstallsHome(d, init, pinned, s);
      if s in Sectors(ws) && ws[|ws| - 1].sector != s {
        var i :| 0 <= i < |ws| && ws[i].sector == s;
        assert init[i].sector == s;
      }
    }
  }

  // What recovery makes of a commit cut off before, or after, the header write.
  lemma CutBefore(g: Geometry, d: Disk, secs: seq<int>, pinned: Disk, k: nat)
    requires Committable(g, d, secs, pinned) && k <= |secs|
    ensures var e := Apply(d, CommitWrites(g, d, secs, pinned)[..k]);
      WellFormed(g, e) && Recover(g, e) == e && SameHome(g, d, e)
  {
    BeforeCommitPoint(g, d, secs, pinned, k);
    CleanRecovery(g, Apply(d, CommitWrites(g, d, secs, pinned)[..k]));
  }

  lemma SplitTake<T>(ws: seq<T>, n: nat, k: nat)
    requires n <= k <= |ws|
    ensures ws[..k] == ws[..n] + ws[n..][..k - n]
  {
  }

  lemma CutAfter(g: Geometry, d: Disk, secs: seq<int>, pinned: Disk, k: nat)
    requires Committable(g, d, secs, pinned) && |secs| < k <= |CommitWrites(g, d, secs, pinned)|
    ensures var ws := CommitWrites(g, d, secs, pinned);
      var e, h := Apply(d, ws[..k]), Apply(d, ws[..|secs| + 1]);
      WellFormed(g, e) && WellFormed(g, h) && h.Keys == d.Keys && Recover(g, e) == Recover(g, h)
  {
    var ws, n := CommitWrites(g, d, secs, pinned), |secs|;
    AtCommitPoint(g, d, secs, pinned);
    var first, later := ws[..n + 1], ws[n + 1..][..k - n - 1];
    SplitTake(ws, n + 1, k);
    ApplyConcat(d, first, later);
    RecoveryRestarts(g, Apply(d, first), k - n - 1);
  }

  /**
   Crash atomicity: crash after any k of commit's sector writes, then crash during recovery any
   number of times; the recovery that completes leaves every home sector old if the header write
   had not happened, and every home sector new if it had.
   */
  lemma CommitIsAtomic(g: Geometry, d: Disk, secs: seq<int>, pinned: Disk, k: nat, crashes: seq<nat>)
    requires Committable(g, d, secs, pinned)
    requires k <= |CommitWrites(g, d, secs, pinned)|
    ensures var crashed := Apply(d, CommitWrites(g, d, secs, pinned)[..k]);
      && WellFormed(g, crashed)
      && var final := Recover(g, CrashingBoots(g, crashed, crashes));
      && Clean(g, final) && final.Keys == d.Keys
      && forall s :: s in d && !InLog(g, s) ==>
           final[s] == if k > |secs| && s in secs then pinned[s] else d[s]
  {
    var crashed := Apply(d, CommitWrites(g, d, secs, pinned)[..k]);
    if k <= |secs| {
      CutBefore(g, d, secs, pinned, k);
    } else {
      CutAfter(g, d, secs, pinned, k);
      forall s | s in d && !InLog(g, s)
        ensures s in Recover(g, crashed) && Recover(g, crashed)[s] == if s in secs then pinned[s] else d[s]
      {
        CommittedHome(g, d, secs, pinned, s);
      }
    }
    RecoveredIsClean(g, crashed);
    if k > |secs| { RecoveredIsClean(g, Apply(d, CommitWrites(g, d, secs, pinned)[..|secs| + 1])); }
    CrashingBootsHarmless(g, crashed, crashes);
  }

  lemma CommittedHome(g: Geometry, d: Disk, secs: seq<int>, pinned: Disk, s: int)
    requires Committable(g, d, secs, pinned) && secs != [] && s in d && !InLog(g, s)
    ensures var e := Apply(d, CommitWrites(g, d, secs, pinned)[..|secs| + 1]);
      WellFormed(g, e) && s in Recover(g, e)
      && Recover(g, e)[s] == if s in secs then pinned[s] else d[s]
  {
    AtCommitPoint(g, d, secs, pinned);
    var e := Apply(d, CommitWrites(g, d, secs, pinned)[..|secs| + 1]);
    forall i | 0 <= i < |secs| ensures LogSector(g, i) in e { assert InLog(g, LogSector(g, i)); }
    RecoverHome(g, e, pinned, s);
  }

  // Neither commit nor recovery writes a sector the disk does not have.
  lemma WritesStayOnDisk(g: Geometry, d: Disk, secs: seq<int>, pinned: Disk, k: nat)
    requires Committable(g, d, secs, pinned) && k < |CommitWrites(g, d, secs, pinned)|
    ensures CommitWrites(g, d, secs, pinned)[k].sector in d
  {
    if k < |secs| { assert InLog(g, LogSector(g, k)); }
  }

  /** A commit that runs to its end has done what recovery would do, and leaves the log clean. */
  lemma CommitCompletes(g: Geometry, d: Disk, secs: seq<int>, pinned: Disk)
    requires Committable(g, d, secs, pinned)
    ensures var e := Apply(d, CommitWrites(g, d, secs, pinned));
      Clean(g, e) && e.Keys == d.Keys
      && forall s :: s in d && !InLog(g, s) ==> e[s] == if s in secs then pinned[s] else d[s]
  {
    var ws := CommitWrites(g, d, secs, pinned);
    assert ws[..|ws|] == ws;
    var e := Apply(d, ws);
    if secs != [] {
      var n := |secs|;
      AtCommitPoint(g, d, secs, pinned);
      assert ws == ws[..n + 1] + ws[n + 1..];
      ApplyConcat(d, ws[..n + 1], ws[n + 1..]);
      RecoveredIsClean(g, Apply(d, ws[..n + 1]));
      forall s | s in d && !InLog(g, s) ensures e[s] == if s in secs then pinned[s] else d[s] {
        CommittedHome(g, d, secs, pinned, s);
      }
    }
  }

  // The same writes as the code reaches them: each part planned from the disk as it then is.
  lemma CommitInParts(g: Geometry, d: Disk, secs: seq<int>, pinned: Disk)
    requires Committable(g, d, secs, pinned) && secs != []
    ensures var copies := LogCopies(g, secs, pinned);
      var d1 := Apply(d, copies);
      && g.start in d1 && |d1[g.start]| == BWORDS
      && var header := EncodeHeader(d1[g.start], secs);
      var d2 := d1[g.start := header];
      && WellFormed(g, d2) && HeaderSectors(d2[g.start]) == secs
      && CommitWrites(g, d, secs, pinned) == copies + [Write(g.start, header)] + RecoverWrites(g, d2)
      && Apply(d, CommitWrites(g, d, secs, pinned)) == Recover(g, d2)
  {
    var ws := CommitWrites(g, d, secs, pinned);
    var n := |secs|;
    LogThenHeader(g, d, secs, pinned);
    AtCommitPoint(g, d, secs, pinned);
    assert ws == ws[..n + 1] + ws[n + 1..];
    ApplyConcat(d, ws[..n + 1], ws[n + 1..]);
  }

  lemma LogThenHeader(g: Geometry, d: Disk, secs: seq<int>, pinned: Disk)
    requires Committable(g, d, secs, pinned) && secs != []
    ensures var ws, copies := CommitWrites(g, d, secs, pinned), LogCopies(g, secs, pinned);
      var d1 := Apply(d, copies);
      && g.start in d1 && |d1[g.start]| == BWORDS
      && var header := EncodeHeader(d1[g.start], secs);
      && ws[..|secs| + 1] == copies + [Write(g.start, header)]
      && Apply(d, ws[..|secs| + 1]) == d1[g.start := header]
  {
    var ws := CommitWrites(g, d, secs, pinned);
    var n := |secs|;
    BeforeCommitPoint(g, d, secs, pinned, n);
    assert ws[..n] == LogCopies(g, secs, pinned);
    ApplySnoc(d, ws, n);
    assert ws[..n + 1] == ws[..n] + [ws[n]];
  }
}
