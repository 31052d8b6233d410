/**
 The process table of proc.c as a step system: allocproc, fork, exit, wait, the scheduler, yield,
 sleep, wakeup and kill, each step one critical section of ptable.lock or one unlocked store by the
 process that owns the slot.
 */
module ProcessTable {

  const NPROC := 64
  const NONE := -1

  datatype State = UNUSED | EMBRYO | SLEEPING | RUNNABLE | RUNNING | ZOMBIE

  // `parent` is a slot number. A process sleeps in wait() on the channel that is its own slot; all
  // other channels lie outside 0..NPROC.
  datatype Proc = Proc(state: State, pid: int, parent: int, chan: int, killed: bool, status: int)

  type Table = t: seq<Proc> | |t| == NPROC witness seq(NPROC, i => Proc(UNUSED, 0, NONE, NONE, false, 0))

  // ---------- What the scanning loops compute ----------

  function Wake(t: Table, c: int): (r: Table) {
    seq(NPROC, i requires 0 <= i < NPROC =>
      if t[i].state == SLEEPING && t[i].chan == c then t[i].(state := RUNNABLE) else t[i])
  }

  function Orphan(t: Table, p: int, init: int): (r: Table) {
    seq(NPROC, i requires 0 <= i < NPROC => if t[i].parent == p then t[i].(parent := init) else t[i])
  }

  predicate HasChild(t: Table, p: int) { exists q :: 0 <= q < NPROC && t[q].parent == p }

  predicate HasZombieChild(t: Table, p: int) { exists q :: 0 <= q < NPROC && t[q].parent == p && t[q].state == ZOMBIE }

  // The critical section of exit.
  function ExitTable(t: Table, p: int, init: int): Table
    requires 0 <= p < NPROC
  {
    var t1 := Orphan(Wake(t, t[p].parent), p, init);
    var t2 := if HasZombieChild(t, p) then Wake(t1, init) else t1;
    t2[p := t2[p].(state := ZOMBIE)]
  }

  function Reaped(q: Proc): Proc {
    q.(state := UNUSED, pid := 0, parent := NONE, killed := false)
  }

  // ---------- The step system ----------

  datatype Sys = Sys(
    t: Table,
    nextpid: int,
    init: int,                  // slot of initproc
    forking: map<int, int>,     // for a process inside fork(), the slot it is setting up
    exiting: set<int>,          // processes past the status assignment of exit()
    exited: map<int, int>,      // specification only: pid -> status passed to exit
    reaped: seq<(int, int)>     // specification only: what wait() calls have returned, in order
  )

  datatype Step =
    | Alloc(p: int, q: int)     // allocproc inside fork: q is the first unused slot
    | ForkFails(p: int)
    | SetParent(p: int)
    | ForkEnds(p: int)
    | SetStatus(p: int, status: int)
    | Exit(p: int)
    | Reap(p: int, q: int)      // wait finds q, its first zombie child
    | WaitSleeps(p: int)
    | Schedule(p: int)
    | Yield(p: int)
    | Sleep(p: int, chan: int)
    | Wakeup(chan: int)
    | Kill(q: int)              // kill(pid) finds slot q

  predicate Slot(p: int) { 0 <= p < NPROC }

  // p is running its own code, outside fork() and not yet dying
  predicate Free(s: Sys, p: int) {
    Slot(p) && s.t[p].state == RUNNING && p !in s.forking && p !in s.exiting
  }

  predicate Forks(s: Sys, p: int) {
    Slot(p) && s.t[p].state == RUNNING && p in s.forking && Slot(s.forking[p])
  }

  predicate Enabled(s: Sys, step: Step) {
    match step
    case Alloc(p, q) => Free(s, p) && Slot(q) && s.t[q].state == UNUSED && forall i :: 0 <= i < q ==>
      s.t[i].state != UNUSED
    case ForkFails(p) => Forks(s, p) && s.t[s.forking[p]].parent == NONE
    case SetParent(p) => Forks(s, p) && s.t[s.forking[p]].parent == NONE
    case ForkEnds(p) => Forks(s, p) && s.t[s.forking[p]].parent != NONE
    case SetStatus(p, status) => Free(s, p) && p != s.init
    case Exit(p) => Slot(p) && s.t[p].state == RUNNING && p in s.exiting
    case Reap(p, q) =>
      && Free(s, p) && Slot(q) && s.t[q].parent == p && s.t[q].state == ZOMBIE
      && forall i :: 0 <= i < q ==> !(s.t[i].parent == p && s.t[i].state == ZOMBIE)
    case WaitSleeps(p) => Free(s, p) && HasChild(s.t, p) && !HasZombieChild(s.t, p) && !s.t[p].killed
    case Schedule(p) => Slot(p) && s.t[p].state == RUNNABLE
    case Yield(p) => Slot(p) && s.t[p].state == RUNNING
    case Sleep(p, chan) => Slot(p) && s.t[p].state == RUNNING && p !in s.forking && !Slot(chan)
    case Wakeup(chan) => !Slot(chan)
    case Kill(q) => Slot(q) && forall i :: 0 <= i < q ==> s.t[i].pid != s.t[q].pid
  }

  function Exec(s: Sys, step: Step): Sys
    requires Enabled(s, step)
  {
    match step
    case Alloc(p, q) =>
      s.(t := s.t[q := s.t[q].(state := EMBRYO, pid := s.nextpid)], nextpid := s.nextpid + 1,
        forking := s.forking[p := q])
    case ForkFails(p) =>
      var q := s.forking[p];
      s.(t := s.t[q := s.t[q].(state := UNUSED)], forking := s.forking - {p})
    case SetParent(p) =>
      var q := s.forking[p];
      s.(t := s.t[q := s.t[q].(parent := p)])
    case ForkEnds(p) =>
      var q := s.forking[p];
      s.(t := s.t[q := s.t[q].(state := RUNNABLE)], forking := s.forking - {p})
    case SetStatus(p, status) =>
      s.(t := s.t[p := s.t[p].(status := status)], exiting := s.exiting + {p},
         exited := s.exited[s.t[p].pid := status])
    case Exit(p) => s.(t := ExitTable(s.t, p, s.init), exiting := s.exiting - {p})
    case Reap(p, q) =>
      s.(t := s.t[q := Reaped(s.t[q])], reaped := s.reaped + [(s.t[q].pid, s.t[q].status)])
    case WaitSleeps(p) => s.(t := s.t[p := s.t[p].(chan := p, state := SLEEPING)])
    case Schedule(p) => s.(t := s.t[p := s.t[p].(state := RUNNING, chan := NONE)])
    case Yield(p) => s.(t := s.t[p := s.t[p].(state := RUNNABLE)])
    case Sleep(p, chan) => s.(t := s.t[p := s.t[p].(chan := chan, state := SLEEPING)])
    case Wakeup(chan) => s.(t := Wake(s.t, chan))
    case Kill(q) =>
      var r := s.t[q];
      s.(t := s.t[q := r.(killed := true, state := if r.state == SLEEPING then RUNNABLE else r.state)])
  }

  // After userinit: one runnable process, initproc, in slot 0 with pid 1.
  predicate Booted(s: Sys) {
    && s.init == 0 && s.nextpid == 2 && s.t[0].state == RUNNABLE && s.t[0].pid == 1 && s.t[0].parent == NONE
    && (forall i :: 1 <= i < NPROC ==> s.t[i].state == UNUSED && s.t[i].parent == NONE && s.t[i].pid == 0)
    && s.forking == map[] && s.exiting == {} && s.exited == map[] && s.reaped == []
  }

  predicate Run(s: Sys, steps: seq<Step>, u: Sys)
    decreases |steps|
  {
    if steps == [] then s == u
    else Enabled(s, steps[0]) && Run(Exec(s, steps[0]), steps[1..], u)
  }

  // ---------- The invariant ----------

  predicate Alive(q: Proc) { q.state == SLEEPING || q.state == RUNNABLE || q.state == RUNNING }

  // The slot's own pid, parent and status.
  predicate ProcAt(s: Sys, q: int) {
    Slot(q) ==>
      var x := s.t[q];
      && (x.state == UNUSED ==> x.parent == NONE && q !in s.forking)
      && (x.state != UNUSED ==> 1 <= x.pid < s.nextpid)
      && (x.state == EMBRYO ==> q !in s.forking)
      && (x.parent != NONE ==> Slot(x.parent) && Alive(s.t[x.parent]) && s.t[x.parent].pid < x.pid)
      && (Alive(x) || x.state == ZOMBIE ==> q == s.init || x.parent != NONE)
      && (x.state == ZOMBIE || q in s.exiting ==> x.pid in s.exited && s.exited[x.pid] == x.status && q !in s.forking)
      && (q in s.exiting ==> Alive(x) && q != s.init)
  }

  // A process inside fork() sets up an EMBRYO slot that nobody else does.
  predicate ForkAt(s: Sys, p: int) {
    p in s.forking ==>
      && Slot(p) && Slot(s.forking[p]) && (s.t[p].state == RUNNING || s.t[p].state == RUNNABLE) && p !in s.exiting
      && s.t[s.forking[p]].state == EMBRYO && s.t[s.forking[p]].pid > s.t[p].pid
      && (s.t[s.forking[p]].parent == NONE || s.t[s.forking[p]].parent == p)
  }

  predicate ForkApart(s: Sys, p: int, r: int) {
    p in s.forking && r in s.forking && p != r ==> s.forking[p] != s.forking[r]
  }

  predicate PidsApart(s: Sys, q: int, r: int) {
    Slot(q) && Slot(r) && q != r && s.t[q].state != UNUSED && s.t[r].state != UNUSED ==> s.t[q].pid != s.t[r].pid
  }

  // Nobody sleeps in wait() over a zombie child.
  predicate WaitAt(s: Sys, r: int, q: int) {
    Slot(r) && Slot(q) && s.t[r].state == SLEEPING && s.t[r].chan == r && s.t[q].parent == r ==> s.t[q].state != ZOMBIE
  }

  predicate ReapedAt(s: Sys, i: int) {
    0 <= i < |s.reaped| ==>
      && s.reaped[i].0 in s.exited && s.exited[s.reaped[i].0] == s.reaped[i].1
      && s.reaped[i].0 < s.nextpid
  }

  predicate ReapedApart(s: Sys, i: int, q: int) {
    0 <= i < |s.reaped| && Slot(q) && s.t[q].state != UNUSED ==> s.t[q].pid != s.reaped[i].0
  }

  predicate ReapedOnce(s: Sys, i: int, j: int) {
    0 <= i < j < |s.reaped| ==> s.reaped[i].0 != s.reaped[j].0
  }

  ghost predicate Inv(s: Sys) {
    && Slot(s.init) && Alive(s.t[s.init]) && s.t[s.init].pid == 1 && s.t[s.init].parent == NONE
    && (forall q {:trigger ProcAt(s, q)} :: ProcAt(s, q))
    && (forall p {:trigger ForkAt(s, p)} :: ForkAt(s, p))
    && (forall p, r {:trigger ForkApart(s, p, r)} :: ForkApart(s, p, r))
    && (forall q, r {:trigger PidsApart(s, q, r)} :: PidsApart(s, q, r))
    && (forall r, q {:trigger WaitAt(s, r, q)} :: WaitAt(s, r, q))
    && (forall i {:trigger ReapedAt(s, i)} :: ReapedAt(s, i))
    && (forall i, q {:trigger ReapedApart(s, i, q)} :: ReapedApart(s, i, q))
    && (forall i, j {:trigger ReapedOnce(s, i, j)} :: ReapedOnce(s, i, j))
  }

  lemma BootInv(s: Sys)
    requires Booted(s)
    ensures Inv(s)
  {
  }

  // ---------- Steps that only move processes between the living states ----------

  predicate Similar(s: Sys, s': Sys, q: int) {
    Slot(q) ==>
      var x, y := s.t[q], s'.t[q];
      && y.pid == x.pid && y.parent == x.parent && y.status == x.status
      && (y.state == x.state || (Alive(x) && Alive(y)))
      && (q in s.forking ==> y.state == RUNNING || y.state == RUNNABLE)
  }

  lemma AliveChange(s: Sys, s': Sys)
    requires Inv(s) && s' == s.(t := s'.t)
    requires forall q {:trigger Similar(s, s', q)} :: Similar(s, s', q)
    requires forall r, q {:trigger WaitAt(s', r, q)} :: WaitAt(s', r, q)
    ensures Inv(s')
  {
    assert Similar(s, s', s.init);
    forall q ensures ProcAt(s', q) {
      assert ProcAt(s, q) && Similar(s, s', q);
      if Slot(q) { assert Similar(s, s', s.t[q].parent); }
    }
    forall p ensures ForkAt(s', p) {
      assert ForkAt(s, p) && Similar(s, s', p);
      if p in s.forking { assert Similar(s, s', s.forking[p]); }
    }
    forall p, r ensures ForkApart(s', p, r) { assert ForkApart(s, p, r); }
    forall q, r ensures PidsApart(s', q, r) { assert PidsApart(s, q, r) && Similar(s, s', q) && Similar(s, s', r); }
    forall i ensures ReapedAt(s', i) { assert ReapedAt(s, i); }
    forall i, q ensures ReapedApart(s', i, q) { assert ReapedApart(s, i, q) && Similar(s, s', q); }
    forall i, j ensures ReapedOnce(s', i, j) { assert ReapedOnce(s, i, j); }
  }

  lemma OneAlive(s: Sys, q: int, y: Proc)
    requires Inv(s) && Slot(q)
    requires var x := s.t[q];
      && y.pid == x.pid && y.parent == x.parent && y.status == x.status
        && (y.state == x.state || (Alive(x) && Alive(y)))
      && (q in s.forking ==> y.state == RUNNING || y.state == RUNNABLE)
    requires y.state == SLEEPING && y.chan == q ==> !HasZombieChild(s.t, q)
    ensures Inv(s.(t := s.t[q := y]))
  {
    var s' := s.(t := s.t[q := y]);
    forall r ensures Similar(s, s', r) { assert ForkAt(s, r); }
    forall r, c ensures WaitAt(s', r, c) { assert WaitAt(s, r, c); }
    AliveChange(s, s');
  }

  lemma WakeKeeps(s: Sys, c: int)
    requires Inv(s)
    ensures Inv(s.(t := Wake(s.t, c)))
  {
    var s' := s.(t := Wake(s.t, c));
    forall r ensures Similar(s, s', r) { assert ForkAt(s, r); }
    forall r, q ensures WaitAt(s', r, q) { assert WaitAt(s, r, q); }
    AliveChange(s, s');
  }

  // ---------- fork ----------

  lemma AllocKeeps(s: Sys, p: int, q: int)
    requires Inv(s) && Free(s, p) && Slot(q) && s.t[q].state == UNUSED
    ensures Inv(s.(t := s.t[q := s.t[q].(state := EMBRYO, pid := s.nextpid)], nextpid := s.nextpid + 1,
      forking := s.forking[p := q]))
  {
    var s' := s.(t := s.t[q := s.t[q].(state := EMBRYO, pid := s.nextpid)], nextpid := s.nextpid + 1,
      forking := s.forking[p := q]);
    forall r ensures ProcAt(s', r) {
      assert ProcAt(s, r) && ProcAt(s, q) && ProcAt(s, p);
    }
    forall r ensures ForkAt(s', r) { assert ForkAt(s, r) && ProcAt(s, p) && ProcAt(s, q); }
    forall r, r' ensures ForkApart(s', r, r') { assert ForkApart(s, r, r') && ForkAt(s, r) && ForkAt(s, r'); }
    forall r, r' ensures PidsApart(s', r, r') { assert PidsApart(s, r, r') && ProcAt(s, r) && ProcAt(s, r'); }
    forall r, c ensures WaitAt(s', r, c) { assert WaitAt(s, r, c); }
    forall i ensures ReapedAt(s', i) { assert ReapedAt(s, i); }
    forall i, r ensures ReapedApart(s', i, r) { assert ReapedApart(s, i, r) && ReapedAt(s, i); }
    forall i, j ensures ReapedOnce(s', i, j) { assert ReapedOnce(s, i, j); }
  }

  // The slot under construction: dropped (UNUSED), given its parent, or made RUNNABLE.
  lemma EmbryoKeeps(s: Sys, p: int, y: Proc, done: bool)
    requires Inv(s) && Forks(s, p)
    requires var x := s.t[s.forking[p]];
      && y.pid == x.pid && y.status == x.status
      && ( || (done && y.state == UNUSED && x.parent == NONE && y.parent == NONE)
           || (!done && y.state == EMBRYO && y.parent == p)
           || (done && y.state == RUNNABLE && y.parent == x.parent && x.parent != NONE))
    ensures Inv(s.(t := s.t[s.forking[p] := y], forking := if done then s.forking - {p} else s.forking))
  {
    var q := s.forking[p];
    var s' := s.(t := s.t[q := y], forking := if done then s.forking - {p} else s.forking);
    assert ForkAt(s, p) && ProcAt(s, q) && ProcAt(s, p);
    forall r ensures ProcAt(s', r) { assert ProcAt(s, r); }
    forall r ensures ForkAt(s', r) { assert ForkAt(s, r) && ForkApart(s, p, r) && ProcAt(s, q); }
    forall r, r' ensures ForkApart(s', r, r') { assert ForkApart(s, r, r'); }
    forall r, r' ensures PidsApart(s', r, r') { assert PidsApart(s, r, r'); }
    forall r, c ensures WaitAt(s', r, c) { assert WaitAt(s, r, c); }
    forall i ensures ReapedAt(s', i) { assert ReapedAt(s, i); }
    forall i, r ensures ReapedApart(s', i, r) { assert ReapedApart(s, i, r); }
    forall i, j ensures ReapedOnce(s', i, j) { assert ReapedOnce(s, i, j); }
  }

  // ---------- exit and wait ----------

  lemma SetStatusKeeps(s: Sys, p: int, status: int)
    requires Inv(s) && Free(s, p) && p != s.init
    ensures Inv(s.(t := s.t[p := s.t[p].(status := status)], exiting := s.exiting + {p},
      exited := s.exited[s.t[p].pid := status]))
  {
    var s' := s.(t := s.t[p := s.t[p].(status := status)], exiting := s.exiting + {p},
      exited := s.exited[s.t[p].pid := status]);
    forall r ensures ProcAt(s', r) { assert ProcAt(s, r) && PidsApart(s, r, p); }
    forall r ensures ForkAt(s', r) { assert ForkAt(s, r) && ForkAt(s, p); }
    forall r, r' ensures ForkApart(s', r, r') { assert ForkApart(s, r, r'); }
    forall r, r' ensures PidsApart(s', r, r') { assert PidsApart(s, r, r'); }
    forall r, c ensures WaitAt(s', r, c) { assert WaitAt(s, r, c); }
    forall i ensures ReapedAt(s', i) { assert ReapedAt(s, i) && ReapedApart(s, i, p); }
    forall i, r ensures ReapedApart(s', i, r) { assert ReapedApart(s, i, r); }
    forall i, j ensures ReapedOnce(s', i, j) { assert ReapedOnce(s, i, j); }
  }

  // Slot by slot, what the critical section of exit does.
  predicate ExitedSlot(t: Table, y: Proc, p: int, init: int, q: int)
    requires Slot(p) && Slot(q)
  {
    var x := t[q];
    && y.pid == x.pid && y.status == x.status && y.chan == x.chan && y.killed == x.killed
    && y.parent == (if x.parent == p then init else x.parent)
    && y.state == if q == p then ZOMBIE
                  else if x.state == SLEEPING && (x.chan == t[p].parent || (HasZombieChild(t, p) && x.chan == init))
                    then RUNNABLE
                  else x.state
  }

  lemma ExitSlot(t: Table, p: int, init: int, q: int)
    requires Slot(p) && Slot(q)
    ensures ExitedSlot(t, ExitTable(t, p, init)[q], p, init, q)
  {
  }

  lemma ExitKeeps(s: Sys, p: int)
    requires Inv(s) && Slot(p) && s.t[p].state == RUNNING && p in s.exiting
    ensures Inv(s.(t := ExitTable(s.t, p, s.init), exiting := s.exiting - {p}))
  {
    var s' := s.(t := ExitTable(s.t, p, s.init), exiting := s.exiting - {p});
    assert ProcAt(s, p);
    ExitSlot(s.t, p, s.init, s.init);
    forall r ensures ProcAt(s', r) {
      assert ProcAt(s, r);
      if Slot(r) {
        ExitSlot(s.t, p, s.init, r);
        if s'.t[r].parent != NONE { ExitSlot(s.t, p, s.init, s'.t[r].parent); }
        assert PidsApart(s, r, s.init);
      }
    }
    forall r ensures ForkAt(s', r) {
      assert ForkAt(s, r);
      if r in s.forking { ExitSlot(s.t, p, s.init, r); ExitSlot(s.t, p, s.init, s.forking[r]); }
    }
    forall r, r' ensures ForkApart(s', r, r') { assert ForkApart(s, r, r'); }
    forall r, r' ensures PidsApart(s', r, r') {
      assert PidsApart(s, r, r');
      if Slot(r) && Slot(r') { ExitSlot(s.t, p, s.init, r); ExitSlot(s.t, p, s.init, r'); }
    }
    forall r, c ensures WaitAt(s', r, c) {
      assert WaitAt(s, r, c);
      if Slot(r) && Slot(c) {
        ExitSlot(s.t, p, s.init, r);
        ExitSlot(s.t, p, s.init, c);
        assert s.t[c].parent == p && s.t[c].state == ZOMBIE ==> HasZombieChild(s.t, p);
      }
    }
    forall i ensures ReapedAt(s', i) { assert ReapedAt(s, i); }
    forall i, r ensures ReapedApart(s', i, r) {
      assert ReapedApart(s, i, r);
      if Slot(r) { ExitSlot(s.t, p, s.init, r); }
    }
    forall i, j ensures ReapedOnce(s', i, j) { assert ReapedOnce(s, i, j); }
  }

  lemma ReapKeeps(s: Sys, p: int, q: int)
    requires Inv(s) && Free(s, p) && Slot(q) && s.t[q].parent == p && s.t[q].state == ZOMBIE
    ensures Inv(s.(t := s.t[q := Reaped(s.t[q])], reaped := s.reaped + [(s.t[q].pid, s.t[q].status)]))
  {
    var s' := s.(t := s.t[q := Reaped(s.t[q])], reaped := s.reaped + [(s.t[q].pid, s.t[q].status)]);
    assert ProcAt(s, q);
    forall r ensures ProcAt(s', r) { assert ProcAt(s, r) && ForkAt(s, r); }
    forall r ensures ForkAt(s', r) { assert ForkAt(s, r); }
    forall r, r' ensures ForkApart(s', r, r') { assert ForkApart(s, r, r'); }
    forall r, r' ensures PidsApart(s', r, r') { assert PidsApart(s, r, r'); }
    forall r, c ensures WaitAt(s', r, c) { assert WaitAt(s, r, c); }
    forall i ensures ReapedAt(s', i) { assert ReapedAt(s, i); }
    forall i, r ensures ReapedApart(s', i, r) { assert ReapedApart(s, i, r) && PidsApart(s, q, r); }
    forall i, j ensures ReapedOnce(s', i, j) { assert ReapedOnce(s, i, j) && ReapedApart(s, i, q); }
  }

  lemma StepKeeps(s: Sys, step: Step)
    requires Inv(s) && Enabled(s, step)
    ensures Inv(Exec(s, step))
    ensures s.reaped <= Exec(s, step).reaped
  {
    match step
    case Alloc(p, q) => AllocKeeps(s, p, q);
    case ForkFails(p) => EmbryoKeeps(s, p, s.t[s.forking[p]].(state := UNUSED), true);
    case SetParent(p) => assert ForkAt(s, p); EmbryoKeeps(s, p, s.t[s.forking[p]].(parent := p), false);
    case ForkEnds(p) => EmbryoKeeps(s, p, s.t[s.forking[p]].(state := RUNNABLE), true);
    case SetStatus(p, status) => SetStatusKeeps(s, p, status);
    case Exit(p) => ExitKeeps(s, p);
    case Reap(p, q) => ReapKeeps(s, p, q);
    case WaitSleeps(p) => OneAlive(s, p, s.t[p].(chan := p, state := SLEEPING));
    case Schedule(p) => OneAlive(s, p, s.t[p].(state := RUNNING, chan := NONE));
    case Yield(p) => OneAlive(s, p, s.t[p].(state := RUNNABLE));
    case Sleep(p, chan) => OneAlive(s, p, s.t[p].(chan := chan, state := SLEEPING));
    case Wakeup(chan) => WakeKeeps(s, chan);
    case Kill(q) => KillKeeps(s, q);
  }

  lemma KillKeeps(s: Sys, q: int)
    requires Inv(s) && Slot(q)
    ensures Inv(s.(t := s.t[q := s.t[q].(killed := true,
      state := if s.t[q].state == SLEEPING then RUNNABLE else s.t[q].state)]))
  {
    assert ForkAt(s, q);
    var s' := s.(t := s.t[q := s.t[q].(killed := true,
      state := if s.t[q].state == SLEEPING then RUNNABLE else s.t[q].state)]);
    forall r ensures Similar(s, s', r) { assert ForkAt(s, r); }
    forall r, c ensures WaitAt(s', r, c) { assert WaitAt(s, r, c); }
    AliveChange(s, s');
  }

  lemma {:induction false} RunKeeps(s: Sys, steps: seq<Step>, u: Sys)
    requires Inv(s) && Run(s, steps, u)
    ensures Inv(u) && s.reaped <= u.reaped
    decreases |steps|
  {
    if steps != [] {
      StepKeeps(s, steps[0]);
      RunKeeps(Exec(s, steps[0]), steps[1..], u);
    }
  }

  // ---------- Main results ----------

  // Following parents from q for n steps.
  function Ancestor(t: Table, q: int, n: nat): int
    requires Slot(q)
    decreases n
  {
    if n == 0 then q else if Slot(t[q].parent) then Ancestor(t, t[q].parent, n - 1) else NONE
  }

  /** The table is a tree: from every process that has finished forking, parents lead to initproc. */
  lemma {:induction false} DescendsFromInit(s: Sys, q: int)
    requires Inv(s) && Slot(q) && (Alive(s.t[q]) || s.t[q].state == ZOMBIE)
    ensures exists n: nat :: Ancestor(s.t, q, n) == s.init
    decreases s.t[q].pid
  {
    assert ProcAt(s, q);
    if q == s.init {
      assert Ancestor(s.t, q, 0) == s.init;
    } else {
      assert ProcAt(s, s.t[q].parent);
      DescendsFromInit(s, s.t[q].parent);
      var n: nat :| Ancestor(s.t, s.t[q].parent, n) == s.init;
      assert Ancestor(s.t, q, n + 1) == s.init;
    }
  }

  /**
   In every run from boot: a parent is alive and older than its child; nobody sleeps in wait() over
   a zombie child; every process descends from initproc.
   */
  lemma ProcessTree(s: Sys, steps: seq<Step>, u: Sys, q: int)
    requires Booted(s) && Run(s, steps, u) && Slot(q) && u.t[q].state != UNUSED
    ensures u.t[q].parent != NONE ==>
      Slot(u.t[q].parent) && Alive(u.t[u.t[q].parent]) && u.t[u.t[q].parent].pid < u.t[q].pid
    ensures u.t[q].state == SLEEPING && u.t[q].chan == q ==> !HasZombieChild(u.t, q)
    ensures u.t[q].state != EMBRYO ==> exists n: nat :: Ancestor(u.t, q, n) == u.init
  {
    BootInv(s);
    RunKeeps(s, steps, u);
    assert ProcAt(u, q);
    forall c | 0 <= c < NPROC && u.t[c].parent == q ensures WaitAt(u, q, c) {}
    if u.t[q].state != EMBRYO { DescendsFromInit(u, q); }
  }

  // What the wait() calls of a run return, in order: the pid and status of the slot each one reaps.
  function ReapLog(s: Sys, steps: seq<Step>): seq<(int, int)>
    decreases |steps|
  {
    if steps == [] || !Enabled(s, steps[0]) then []
    else
      (if steps[0].Reap? then [(s.t[steps[0].q].pid, s.t[steps[0].q].status)] else [])
      + ReapLog(Exec(s, steps[0]), steps[1..])
  }

  lemma {:induction false} ReapsRecorded(s: Sys, steps: seq<Step>, u: Sys)
    requires Run(s, steps, u)
    ensures u.reaped == s.reaped + ReapLog(s, steps)
    decreases |steps|
  {
    if steps != [] { ReapsRecorded(Exec(s, steps[0]), steps[1..], u); }
  }

  // Step j of the run is exit's store of the status by the process with that pid; v is the state before it.
  predicate StoresStatus(s: Sys, steps: seq<Step>, j: int, v: Sys, pid: int) {
    && 0 <= j < |steps| && Run(s, steps[..j], v) && steps[j].SetStatus?
    && Slot(steps[j].p) && v.t[steps[j].p].pid == pid
  }

  // The last such step, and the status is the one it passes to exit.
  ghost predicate PassedToExit(s: Sys, steps: seq<Step>, j: int, v: Sys, pid: int, status: int) {
    && StoresStatus(s, steps, j, v, pid) && steps[j].status == status
    && forall k, w {:trigger StoresStatus(s, steps, k, w, pid)} :: j < k ==> !StoresStatus(s, steps, k, w, pid)
  }

  ghost predicate Told(s: Sys, steps: seq<Step>, pid: int, status: int) {
    exists j, v :: PassedToExit(s, steps, j, v, pid, status)
  }

  lemma {:induction false} RunUnique(s: Sys, steps: seq<Step>, u: Sys, w: Sys)
    requires Run(s, steps, u) && Run(s, steps, w)
    ensures u == w
    decreases |steps|
  {
    if steps != [] { RunUnique(Exec(s, steps[0]), steps[1..], u, w); }
  }

  // A run up to its last step.
  lemma {:induction false} RunLast(s: Sys, steps: seq<Step>, u: Sys) returns (v: Sys)
    requires Run(s, steps, u) && steps != []
    ensures var n := |steps| - 1; Run(s, steps[..n], v) && Enabled(v, steps[n]) && u == Exec(v, steps[n])
    decreases |steps|
  {
    var n := |steps| - 1;
    if n == 0 {
      v := s;
    } else {
      v := RunLast(Exec(s, steps[0]), steps[1..], u);
      assert steps[..n][0] == steps[0] && steps[..n][1..] == steps[1..][..n - 1];
    }
  }

  lemma ToldBefore(s: Sys, steps: seq<Step>, v: Sys, pid: int, status: int)
    requires steps != [] && Run(s, steps[..|steps| - 1], v) && Told(s, steps[..|steps| - 1], pid, status)
    requires var x := steps[|steps| - 1]; !(x.SetStatus? && Slot(x.p) && v.t[x.p].pid == pid)
    ensures Told(s, steps, pid, status)
  {
    var n := |steps| - 1;
    var init := steps[..n];
    var j, w :| PassedToExit(s, init, j, w, pid, status);
    assert init[..j] == steps[..j];
    forall k, x | j < k ensures !StoresStatus(s, steps, k, x, pid) {
      if StoresStatus(s, steps, k, x, pid) {
        if k == n {
          RunUnique(s, init, v, x);
        } else {
          assert init[..k] == steps[..k] && StoresStatus(s, init, k, x, pid);
        }
      }
    }
    assert PassedToExit(s, steps, j, w, pid, status);
  }

  lemma {:induction false} ExitedIsTold(s: Sys, steps: seq<Step>, u: Sys, pid: int)
    requires Run(s, steps, u) && s.exited == map[] && pid in u.exited
    ensures Told(s, steps, pid, u.exited[pid])
    decreases |steps|
  {
    if steps != [] {
      var n := |steps| - 1;
      var x := steps[n];
      var v := RunLast(s, steps, u);
      if x.SetStatus? && v.t[x.p].pid == pid {
        assert PassedToExit(s, steps, n, v, pid, x.status);
      } else {
        ExitedIsTold(s, steps[..n], v, pid);
        ToldBefore(s, steps, v, pid, u.exited[pid]);
      }
    }
  }

  /**
   In every run from boot, told from its steps: no pid is reaped twice, and each wait() returns the
   status that the process with that pid passed to exit, in the last step in which it did.
   */
  lemma ReapedOnceWithStatus(s: Sys, steps: seq<Step>, u: Sys)
    requires Booted(s) && Run(s, steps, u)
    ensures var reaps := ReapLog(s, steps);
      && (forall i, j :: 0 <= i < j < |reaps| ==> reaps[i].0 != reaps[j].0)
      && forall i :: 0 <= i < |reaps| ==> Told(s, steps, reaps[i].0, reaps[i].1)
  {
    BootInv(s);
    RunKeeps(s, steps, u);
    ReapsRecorded(s, steps, u);
    var reaps := ReapLog(s, steps);
    assert u.reaped == reaps;
    forall i, j | 0 <= i < j < |reaps| ensures reaps[i].0 != reaps[j].0 { assert ReapedOnce(u, i, j); }
    forall i | 0 <= i < |reaps| ensures Told(s, steps, reaps[i].0, reaps[i].1) {
      assert ReapedAt(u, i);
      ExitedIsTold(s, steps, u, reaps[i].0);
    }
  }

  /** The three steps of a fork that succeeds: a runnable child with the next pid, and nothing else moves. */
  lemma ForkMakesChild(s: Sys, p: int, q: int)
    requires Inv(s) && Enabled(s, Alloc(p, q))
    ensures var a := Exec(s, Alloc(p, q));
      && Enabled(a, SetParent(p))
      && var b := Exec(a, SetParent(p));
      && Enabled(b, ForkEnds(p))
      && var c := Exec(b, ForkEnds(p));
      && c.t == s.t[q := s.t[q].(state := RUNNABLE, pid := s.nextpid, parent := p)]
      && c.nextpid == s.nextpid + 1 && c.forking == s.forking && c.exiting == s.exiting
  {
    assert ProcAt(s, q);
  }

  /**
   The life of a slot: every change of state is along one of these edges, and each step takes its own
   slot along its edge.
   */
  lemma LifeCycle(s: Sys, step: Step, q: int)
    requires Inv(s) && Enabled(s, step) && Slot(q)
    ensures var a, b := s.t[q].state, Exec(s, step).t[q].state;
      a != b ==>
        match a
        case UNUSED => b == EMBRYO && step.Alloc?
        case EMBRYO => (b == RUNNABLE && step.ForkEnds?) || (b == UNUSED && step.ForkFails?)
        case RUNNABLE => b == RUNNING && step == Schedule(q)
        case RUNNING =>
          || (b == RUNNABLE && step == Yield(q)) || (b == ZOMBIE && step == Exit(q))
          || (b == SLEEPING && (step == WaitSleeps(q) || (step.Sleep? && step.p == q)))
        case SLEEPING => b == RUNNABLE && (step.Wakeup? || step.Exit? || step == Kill(q))
        case ZOMBIE => b == UNUSED && step.Reap? && step.p == s.t[q].parent
    ensures var y := Exec(s, step).t[q];
      match step
      case Alloc(p, r) => q == r ==> y.state == EMBRYO && y.pid == s.nextpid
      case ForkFails(p) => q == s.forking[p] ==> y.state == UNUSED
      case ForkEnds(p) => q == s.forking[p] ==> y.state == RUNNABLE
      case Exit(p) => q == p ==> y.state == ZOMBIE
      case Reap(p, r) => q == r ==> y.state == UNUSED
      case WaitSleeps(p) => q == p ==> y.state == SLEEPING && y.chan == p
      case Schedule(p) => q == p ==> y.state == RUNNING
      case Yield(p) => q == p ==> y.state == RUNNABLE
      case Sleep(p, chan) => q == p ==> y.state == SLEEPING && y.chan == chan
      case Wakeup(chan) => s.t[q].state == SLEEPING && s.t[q].chan == chan ==> y.state == RUNNABLE
      case Kill(r) => q == r ==> y.killed && y.state != SLEEPING
      case _ => y.state == s.t[q].state
  {
    match step
    case Exit(p) => ExitSlot(s.t, p, s.init, q);
    case ForkFails(p) => assert ForkAt(s, p);
    case ForkEnds(p) => assert ForkAt(s, p);
    case _ =>
  }

  /**
   kill() does not look at p->state and allocproc() does not clear p->killed: kill(0) marks an unused
   slot, and the next process forked into it starts life killed.
   */
  lemma KillZeroKillsTheNextChild(s: Sys)
    requires Booted(s) && !s.t[1].killed
    ensures exists steps, u :: Run(s, steps, u) && u.t[1].state == EMBRYO && u.t[1].killed && u.t[1].pid == 2
  {
    var a := Exec(s, Schedule(0));
    var b := Exec(a, Kill(1));
    var u := Exec(b, Alloc(0, 1));
    var steps := [Schedule(0), Kill(1), Alloc(0, 1)];
    assert steps[1..] == [Kill(1), Alloc(0, 1)] && steps[1..][1..] == [Alloc(0, 1)] && steps[1..][1..][1..] == [];
    assert Run(u, [], u) && Run(b, [Alloc(0, 1)], u) && Run(a, [Kill(1), Alloc(0, 1)], u);
    assert Run(s, steps, u);
  }

  lemma RunOne(s: Sys, step: Step, rest: seq<Step>, u: Sys)
    requires Enabled(s, step) && Run(Exec(s, step), rest, u)
    ensures Run(s, [step] + rest, u)
  {
    assert ([step] + rest)[1..] == rest;
  }

  /** The other way: kill of a process still being forked, and then the fork fails for want of memory. */
  lemma FailedForkKillsTheNextChild(s: Sys)
    requires Booted(s)
    ensures exists steps, u :: Run(s, steps, u) && u.t[1].state == EMBRYO && u.t[1].killed && u.t[1].pid == 3
  {
    var a := Exec(s, Schedule(0));
    var b := Exec(a, Alloc(0, 1));
    var c := Exec(b, Kill(1));
    var d := Exec(c, ForkFails(0));
    var u := Exec(d, Alloc(0, 1));
    RunOne(d, Alloc(0, 1), [], u);
    RunOne(c, ForkFails(0), [Alloc(0, 1)] + [], u);
    RunOne(b, Kill(1), [ForkFails(0)] + ([Alloc(0, 1)] + []), u);
    RunOne(a, Alloc(0, 1), [Kill(1)] + ([ForkFails(0)] + ([Alloc(0, 1)] + [])), u);
    RunOne(s, Schedule(0), [Alloc(0, 1)] + ([Kill(1)] + ([ForkFails(0)] + ([Alloc(0, 1)] + []))), u);
  }

  predicate CleanAt(s: Sys, i: int) { Slot(i) && s.t[i].state == UNUSED ==> !s.t[i].killed }

  // No unused slot is marked killed, so that no process is born killed.
  ghost predicate CleanSlots(s: Sys) { forall i {:trigger CleanAt(s, i)} :: CleanAt(s, i) }

  // kill() finds an unused slot, or the fork of a killed process fails.
  predicate Taints(s: Sys, step: Step) {
    match step
    case Kill(q) => Slot(q) && s.t[q].state == UNUSED
    case ForkFails(p) => Forks(s, p) && s.t[s.forking[p]].killed
    case _ => false
  }

  lemma TaintedSlot(s: Sys, step: Step)
    requires Inv(s) && Enabled(s, step) && Taints(s, step)
    ensures !CleanSlots(Exec(s, step))
  {
    var u := Exec(s, step);
    match step
    case Kill(q) => assert !CleanAt(u, q);
    case ForkFails(p) => assert !CleanAt(u, s.forking[p]);
  }

  lemma UntaintedSlots(s: Sys, step: Step)
    requires Inv(s) && CleanSlots(s) && Enabled(s, step) && !Taints(s, step)
    ensures CleanSlots(Exec(s, step))
  {
    var u := Exec(s, step);
    forall i ensures CleanAt(u, i) {
      assert CleanAt(s, i);
      if step.Exit? && Slot(i) { ExitSlot(s.t, step.p, s.init, i); }
    }
  }

  /** A step leaves the unused slots clean exactly when it is not one of those two. */
  lemma CleanKeptIff(s: Sys, step: Step)
    requires Inv(s) && CleanSlots(s) && Enabled(s, step)
    ensures CleanSlots(Exec(s, step)) <==> !Taints(s, step)
  {
    if Taints(s, step) { TaintedSlot(s, step); } else { UntaintedSlots(s, step); }
  }

  predicate Untainted(s: Sys, steps: seq<Step>)
    decreases |steps|
  {
    steps == [] || (Enabled(s, steps[0]) ==> !Taints(s, steps[0]) && Untainted(Exec(s, steps[0]), steps[1..]))
  }

  lemma {:induction false} CleanRun(s: Sys, steps: seq<Step>, u: Sys)
    requires Inv(s) && CleanSlots(s) && Run(s, steps, u) && Untainted(s, steps)
    ensures Inv(u) && CleanSlots(u)
    decreases |steps|
  {
    if steps != [] {
      StepKeeps(s, steps[0]);
      UntaintedSlots(s, steps[0]);
      CleanRun(Exec(s, steps[0]), steps[1..], u);
    }
  }

  /** In every run from boot without such a step, every process is born alive: not killed. */
  lemma NobodyIsBornKilled(s: Sys, steps: seq<Step>, u: Sys, p: int, q: int)
    requires Booted(s) && CleanSlots(s) && Run(s, steps, u) && Untainted(s, steps) && Enabled(u, Alloc(p, q))
    ensures !Exec(u, Alloc(p, q)).t[q].killed
  {
    BootInv(s);
    CleanRun(s, steps, u);
    assert CleanAt(u, q);
  }

  // ---------- The loops, on the table itself ----------

  // The step, wherever it can be taken from the table t, makes t' of it.
  ghost predicate Does(t: seq<Proc>, step: Step, t': seq<Proc>) {
    forall s: Sys {:trigger Exec(s, step)} :: s.t == t && Enabled(s, step) ==> Exec(s, step).t == t'
  }

  class Ptable {
    const proc: array<Proc>
    var nextpid: int

    ghost predicate Valid()
      reads this
    {
      proc.Length == NPROC
    }

    constructor ()
      ensures Valid() && fresh(proc) && nextpid == 1
      ensures forall i :: 0 <= i < NPROC ==> proc[i].state == UNUSED && proc[i].parent == NONE && proc[i].pid == 0
    {
      proc := new Proc[NPROC](_ => Proc(UNUSED, 0, NONE, NONE, false, 0));
      nextpid := 1;
    }

    /** allocproc's scan: the lowest unused slot becomes an EMBRYO with the next pid. */
    method Allocproc() returns (q: int)
      requires Valid()
      modifies this`nextpid, proc
      ensures q == NONE ==>
        proc[..] == old(proc[..]) && nextpid == old(nextpid) && forall i :: 0 <= i < NPROC ==> proc[i].state != UNUSED
      ensures q != NONE ==>
        && Slot(q) && old(proc[q]).state == UNUSED && (forall i :: 0 <= i < q ==> old(proc[i]).state != UNUSED)
        && proc[..] == old(proc[..])[q := old(proc[q]).(state := EMBRYO, pid := old(nextpid))]
          && nextpid == old(nextpid) + 1
    {
      q := 0;
      while q < NPROC && proc[q].state != UNUSED
        invariant 0 <= q <= NPROC && proc[..] == old(proc[..]) && nextpid == old(nextpid)
        invariant forall i :: 0 <= i < q ==> proc[i].state != UNUSED
      {
        q := q + 1;
      }
      if q == NPROC { return NONE; }
      proc[q] := proc[q].(state := EMBRYO);
      proc[q] := proc[q].(pid := nextpid);
      nextpid := nextpid + 1;
    }

    /** Exactly the sleepers on the channel become runnable. */
    method Wakeup1(chan: int)
      requires Valid()
      modifies proc
      ensures proc[..] == Wake(old(proc[..]), chan) && Does(old(proc[..]), Wakeup(chan), proc[..])
      ensures forall i :: 0 <= i < NPROC ==>
        var x := old(proc[..])[i];
        proc[i] == if x.state == SLEEPING && x.chan == chan then x.(state := RUNNABLE) else x
    {
      ghost var t := proc[..];
      var p := 0;
      while p < NPROC
        invariant 0 <= p <= NPROC
        invariant forall i :: 0 <= i < p ==> proc[i] == Wake(t, chan)[i]
        invariant forall i :: p <= i < NPROC ==> proc[i] == t[i]
      {
        if proc[p].state == SLEEPING && proc[p].chan == chan {
          proc[p] := proc[p].(state := RUNNABLE);
        }
        p := p + 1;
      }
    }

    /** exit, under ptable.lock. */
    method ExitSection(p: int, init: int)
      requires Valid() && Slot(p) && Slot(init) && p != init && proc[p].state == RUNNING
      modifies proc
      ensures proc[..] == ExitTable(old(proc[..]), p, init)
      ensures forall q :: 0 <= q < NPROC ==> ExitedSlot(old(proc[..]), proc[q], p, init, q)
    {
      ghost var t := proc[..];
      Wakeup1(proc[p].parent);
      ghost var t1 := proc[..];
      var q := 0;
      ghost var woken := false;
      while q < NPROC
        invariant 0 <= q <= NPROC
        invariant woken <==> exists i :: 0 <= i < q && t[i].parent == p && t[i].state == ZOMBIE
        invariant proc[..] == Handed(t1, p, init, q, woken)
      {
        ghost var before := proc[..];
        if proc[q].parent == p {
          proc[q] := proc[q].(parent := init);
          HandOver(t1, p, init, q, woken);
          if proc[q].state == ZOMBIE {
            Wakeup1(init);
            HandWoken(t1, p, init, q + 1, woken);
            woken := true;
          }
        }
        q := q + 1;
      }
      proc[p] := proc[p].(state := ZOMBIE);
      forall q | 0 <= q < NPROC ensures ExitedSlot(t, proc[q], p, init, q) { ExitSlot(t, p, init, q); }
    }

    /** One turn of wait's loop: reap the first zombie child, give up, or go to sleep. */
    method WaitTurn(p: int) returns (r: Waited)
      requires Valid() && Slot(p)
      modifies proc
      ensures r.GotChild? <==> HasZombieChild(old(proc[..]), p)
      ensures r.GotChild? ==>
        && Slot(r.q) && old(proc[r.q]).parent == p && old(proc[r.q]).state == ZOMBIE
        && (forall i :: 0 <= i < r.q ==> !(old(proc[i]).parent == p && old(proc[i]).state == ZOMBIE))
        && r.pid == old(proc[r.q]).pid && r.status == old(proc[r.q]).status
        && proc[..] == old(proc[..])[r.q := old(proc[r.q]).(state := UNUSED, pid := 0, parent := NONE, killed := false)]
        && Does(old(proc[..]), Reap(p, r.q), proc[..])
      ensures r.GaveUp? ==> proc[..] == old(proc[..]) && (!HasChild(proc[..], p) || proc[p].killed)
      ensures r.Slept? ==>
        && HasChild(old(proc[..]), p) && !old(proc[p]).killed
        && proc[..] == old(proc[..])[p := old(proc[p]).(chan := p, state := SLEEPING)]
        && Does(old(proc[..]), WaitSleeps(p), proc[..])
    {
      var havekids := false;
      var q := 0;
      while q < NPROC
        invariant 0 <= q <= NPROC && proc[..] == old(proc[..])
        invariant havekids <==> exists i :: 0 <= i < q && proc[i].parent == p
        invariant forall i :: 0 <= i < q ==> !(proc[i].parent == p && proc[i].state == ZOMBIE)
      {
        if proc[q].parent == p {
          havekids := true;
          if proc[q].state == ZOMBIE {
            r := GotChild(q, proc[q].pid, proc[q].status);
            assert old(proc[..])[q].state == ZOMBIE;
            proc[q] := proc[q].(state := UNUSED, pid := 0, parent := NONE, killed := false);
            return;
          }
        }
        q := q + 1;
      }
      if !havekids || proc[p].killed { return GaveUp; }
      proc[p] := proc[p].(chan := p);
      proc[p] := proc[p].(state := SLEEPING);
      return Slept;
    }

    /** kill: the first slot with that pid is marked, and woken if it sleeps. */
    method KillPid(pid: int) returns (q: int)
      requires Valid()
      modifies proc
      ensures q == NONE ==> proc[..] == old(proc[..]) && forall i :: 0 <= i < NPROC ==> proc[i].pid != pid
      ensures q != NONE ==>
        && Slot(q) && old(proc[q]).pid == pid && (forall i :: 0 <= i < q ==> old(proc[i]).pid != pid)
        && var x := old(proc[q]);
        && proc[..] ==
           old(proc[..])[q := x.(killed := true, state := if x.state == SLEEPING then RUNNABLE else x.state)]
        && Does(old(proc[..]), Kill(q), proc[..])
    {
      q := 0;
      while q < NPROC && proc[q].pid != pid
        invariant 0 <= q <= NPROC && proc[..] == old(proc[..])
        invariant forall i :: 0 <= i < q ==> proc[i].pid != pid
      {
        q := q + 1;
      }
      if q == NPROC { return NONE; }
      proc[q] := proc[q].(killed := true);
      if proc[q].state == SLEEPING { proc[q] := proc[q].(state := RUNNABLE); }
    }
  }

  datatype Waited = GotChild(q: int, pid: int, status: int) | GaveUp | Slept

  // The table after the first q slots have been handed to init, which has been woken or not.
  ghost function Handed(t: Table, p: int, init: int, q: int, woken: bool): Table {
    var r := seq(NPROC, i requires 0 <= i < NPROC => if i < q && t[i].parent == p then t[i].(parent := init) else t[i]);
    if woken then Wake(r, init) else r
  }

  lemma HandOver(t: Table, p: int, init: int, q: int, woken: bool)
    requires Slot(q) && t[q].parent == p && p != init
    ensures var h := Handed(t, p, init, q, woken);
      h[q := h[q].(parent := init)] == Handed(t, p, init, q + 1, woken)
  {
  }

  lemma HandWoken(t: Table, p: int, init: int, q: int, woken: bool)
    ensures Wake(Handed(t, p, init, q, woken), init) == Handed(t, p, init, q, true)
  {
  }
}
