/**
 sleep(), wakeup() and the spin locks under them, instruction by instruction, for any number of
 processes on any number of CPUs: which wakeups can be missed.
 */
module SleepWakeup {

  // ptable.lock; every other non-negative number is some other spin lock
  const PT := 0

  // wakeup() called by someone who holds no lock of the sleeper's
  const NOLOCK := -1

  const NOCHAN := -1

  // The part of p->state that matters here.
  datatype St = Running | Sleeping | Runnable

  datatype Pc =
    | Out                              // holds nothing
    | In(lk: int)                      // holds lk
    | Tested(lk: int, c: int)          // holds lk, has found its condition false, will sleep(c, lk)
    | Locked(lk: int, c: int)          // in sleep: holds lk and ptable.lock
    | Released(lk: int, c: int)        // in sleep: has released lk
    | Marked(lk: int, c: int)          // has written chan and SLEEPING, about to leave the CPU
    | Asleep(lk: int, c: int)          // off the CPU
    | Back(lk: int, c: int)            // resumed inside sleep, holds ptable.lock
    | Reacquiring(lk: int)             // spins for lk at the end of sleep
    | Waking(lk: int, c: int)          // in wakeup(c), holds lk, wants ptable.lock
    | Scanning(lk: int, c: int, i: int) // in wakeup1's loop at slot i

  datatype Sys = Sys(pc: seq<Pc>, st: seq<St>, chan: seq<int>, holder: map<int, int>)

  datatype Step =
    | Acquire(p: int, lk: int)
    | Release(p: int)
    | Test(p: int, c: int)
    | SleepAcquire(p: int)
    | SleepRelease(p: int)
    | Mark(p: int)
    | Switch(p: int)
    | Resume(p: int)
    | Tidy(p: int)
    | Reacquire(p: int)
    | CallWakeup(p: int, c: int)
    | CallWakeupBare(p: int, c: int)
    | WakeAcquire(p: int)
    | Scan(p: int)
    | WakeReturn(p: int)
    | Kill(p: int)

  predicate Shape(s: Sys) { |s.pc| == |s.st| == |s.chan| }

  predicate Enabled(s: Sys, step: Step) {
    && Shape(s) && 0 <= step.p < |s.pc|
    && var pc := s.pc[step.p];
    match step
    case Acquire(p, lk) => pc.Out? && lk >= 0 && lk !in s.holder
    case Release(p) => pc.In?
    case Test(p, c) => pc.In? && c != NOCHAN
    case SleepAcquire(p) => pc.Tested? && pc.lk != PT && PT !in s.holder
    case SleepRelease(p) => pc.Locked?
    case Mark(p) => pc.Released? || (pc.Tested? && pc.lk == PT)
    case Switch(p) => pc.Marked?
    case Resume(p) => pc.Asleep? && s.st[p] == Runnable && PT !in s.holder
    case Tidy(p) => pc.Back?
    case Reacquire(p) => pc.Reacquiring? && pc.lk !in s.holder
    case CallWakeup(p, c) => pc.In?
    case CallWakeupBare(p, c) => pc.Out?
    case WakeAcquire(p) => pc.Waking? && PT !in s.holder
    case Scan(p) => pc.Scanning? && 0 <= pc.i < |s.pc|
    case WakeReturn(p) => pc.Scanning? && pc.i == |s.pc|
    case Kill(p) => PT !in s.holder
  }

  function Goto(s: Sys, p: int, pc: Pc): Sys
    requires 0 <= p < |s.pc|
  {
    s.(pc := s.pc[p := pc])
  }

  function Exec(s: Sys, step: Step): Sys
    requires Enabled(s, step)
  {
    var pc := s.pc[step.p];
    match step
    case Acquire(p, lk) => Goto(s, p, In(lk)).(holder := s.holder[lk := p])
    case Release(p) => Goto(s, p, Out).(holder := s.holder - {pc.lk})
    case Test(p, c) => Goto(s, p, Tested(pc.lk, c))
    case SleepAcquire(p) => Goto(s, p, Locked(pc.lk, pc.c)).(holder := s.holder[PT := p])
    case SleepRelease(p) => Goto(s, p, Released(pc.lk, pc.c)).(holder := s.holder - {pc.lk})
    case Mark(p) => Goto(s, p, Marked(pc.lk, pc.c)).(st := s.st[p := Sleeping], chan := s.chan[p := pc.c])
    case Switch(p) => Goto(s, p, Asleep(pc.lk, pc.c)).(holder := s.holder - {PT})
    case Resume(p) => Goto(s, p, Back(pc.lk, pc.c)).(st := s.st[p := Running], holder := s.holder[PT := p])
    case Tidy(p) =>
      var s' := s.(chan := s.chan[p := NOCHAN]);
      if pc.lk == PT then Goto(s', p, In(PT)) else Goto(s', p, Reacquiring(pc.lk)).(holder := s.holder - {PT})
    case Reacquire(p) => Goto(s, p, In(pc.lk)).(holder := s.holder[pc.lk := p])
    case CallWakeup(p, c) => Goto(s, p, if pc.lk == PT then Scanning(PT, c, 0) else Waking(pc.lk, c))
    case CallWakeupBare(p, c) => Goto(s, p, Waking(NOLOCK, c))
    case WakeAcquire(p) => Goto(s, p, Scanning(pc.lk, pc.c, 0)).(holder := s.holder[PT := p])
    case Scan(p) =>
      var s' := Goto(s, p, Scanning(pc.lk, pc.c, pc.i + 1));
      if s.st[pc.i] == Sleeping && s.chan[pc.i] == pc.c then s'.(st := s.st[pc.i := Runnable]) else s'
    case WakeReturn(p) =>
      if pc.lk == PT then Goto(s, p, In(PT))
      else Goto(s, p, if pc.lk == NOLOCK then Out else In(pc.lk)).(holder := s.holder - {PT})
    case Kill(p) => if s.st[p] == Sleeping then s.(st := s.st[p := Runnable]) else s
  }

  predicate Run(s: Sys, steps: seq<Step>, u: Sys)
    decreases |steps|
  {
    if steps == [] then s == u
    else Enabled(s, steps[0]) && Run(Exec(s, steps[0]), steps[1..], u)
  }

  predicate Start(s: Sys) {
    Shape(s) && s.holder == map[] && forall p :: 0 <= p < |s.pc| ==> s.pc[p] == Out && s.st[p] == Running
  }

  // q has tested its condition under lk, is on its way to sleep or asleep on c, and has not been woken.
  predicate Waits(s: Sys, q: int, lk: int, c: int) {
    && Shape(s) && 0 <= q < |s.pc|
    && var pc := s.pc[q];
    && (pc.Tested? || pc.Locked? || pc.Released? || pc.Marked? || (pc.Asleep? && s.st[q] == Sleeping))
    && pc.lk == lk && pc.c == c
  }

  // ---------- The invariant ----------

  predicate HoldsOwn(pc: Pc) { pc.In? || pc.Tested? || pc.Locked? || pc.Waking? || pc.Scanning? }

  predicate HoldsTable(pc: Pc) { pc.Locked? || pc.Released? || pc.Marked? || pc.Back? || pc.Scanning? }

  predicate PcAt(s: Sys, q: int) {
    Shape(s) && 0 <= q < |s.pc| ==>
      var pc := s.pc[q];
      && (HoldsOwn(pc) && pc.lk != NOLOCK ==> pc.lk in s.holder && s.holder[pc.lk] == q)
      && (HoldsTable(pc) ==> PT in s.holder && s.holder[PT] == q)
      && (!pc.Out? && pc.lk == NOLOCK ==> pc.Waking? || pc.Scanning?)
      && (pc.Locked? || pc.Reacquiring? || pc.Waking? ==> pc.lk != PT)
      && (pc.Marked? ==> s.st[q] == Sleeping && s.chan[q] == pc.c)
      && (pc.Asleep? ==> s.st[q] == Runnable || (s.st[q] == Sleeping && s.chan[q] == pc.c))
      && (!pc.Marked? && !pc.Asleep? ==> s.st[q] == Running)
  }

  predicate ChanAt(s: Sys, q: int) {
    Shape(s) && 0 <= q < |s.pc| && s.pc[q].Reacquiring? ==> s.chan[q] == NOCHAN
  }

  predicate HoldsLock(pc: Pc, l: int) { (HoldsOwn(pc) && pc.lk == l) || (HoldsTable(pc) && l == PT) }

  // A lock's holder is where it holds it.
  predicate HolderAt(s: Sys, l: int) {
    Shape(s) && l in s.holder ==> l != NOLOCK && 0 <= s.holder[l] < |s.pc| && HoldsLock(s.pc[s.holder[l]], l)
  }

  // Behind a scanner that holds the sleepers' lock nobody waits any more.
  predicate ScanAt(s: Sys, w: int, q: int) {
    Shape(s) && 0 <= w < |s.pc| && s.pc[w].Scanning? && s.pc[w].lk != NOLOCK && 0 <= q < s.pc[w].i && q < |s.pc| ==>
      !Waits(s, q, s.pc[w].lk, s.pc[w].c)
  }

  ghost predicate Inv(s: Sys) {
    && Shape(s)
    && (forall q {:trigger PcAt(s, q)} :: PcAt(s, q))
    && (forall q {:trigger ChanAt(s, q)} :: ChanAt(s, q))
    && (forall l {:trigger HolderAt(s, l)} :: HolderAt(s, l))
    && forall w, q {:trigger ScanAt(s, w, q)} :: ScanAt(s, w, q)
  }

  // The process that takes the step.
  lemma StepperKept(s: Sys, step: Step)
    requires Enabled(s, step) && PcAt(s, step.p)
    ensures PcAt(Exec(s, step), step.p)
  {
  }

  // Any other process.
  lemma OtherKept(s: Sys, step: Step, q: int)
    requires Enabled(s, step) && PcAt(s, step.p) && PcAt(s, q) && q != step.p
    ensures PcAt(Exec(s, step), q)
  {
  }

  lemma HolderKept(s: Sys, step: Step, l: int)
    requires Enabled(s, step) && PcAt(s, step.p) && HolderAt(s, l)
    ensures HolderAt(Exec(s, step), l)
  {
  }

  // A step starts to wait only under lk, and then nobody scans for lk.
  lemma ScanKept(s: Sys, step: Step, w: int, q: int)
    requires Enabled(s, step) && ScanAt(s, w, q) && PcAt(s, step.p) && PcAt(s, w) && PcAt(s, q)
    ensures ScanAt(Exec(s, step), w, q)
  {
  }

  lemma StepKeeps(s: Sys, step: Step)
    requires Inv(s) && Enabled(s, step)
    ensures Inv(Exec(s, step))
  {
    var s' := Exec(s, step);
    assert PcAt(s, step.p);
    forall q ensures PcAt(s', q) {
      assert PcAt(s, q);
      if q == step.p { StepperKept(s, step); } else { OtherKept(s, step, q); }
    }
    forall q ensures ChanAt(s', q) { assert ChanAt(s, q); }
    forall l ensures HolderAt(s', l) {
      assert HolderAt(s, l);
      HolderKept(s, step, l);
    }
    forall w, q ensures ScanAt(s', w, q) {
      assert ScanAt(s, w, q) && PcAt(s, w) && PcAt(s, q);
      ScanKept(s, step, w, q);
    }
  }

  lemma {:induction false} RunKeeps(s: Sys, steps: seq<Step>, u: Sys)
    requires Inv(s) && Run(s, steps, u)
    ensures Inv(u)
    decreases |steps|
  {
    if steps != [] {
      StepKeeps(s, steps[0]);
      RunKeeps(Exec(s, steps[0]), steps[1..], u);
    }
  }

  lemma Reachable(s: Sys, steps: seq<Step>, u: Sys)
    requires Start(s) && Run(s, steps, u)
    ensures Inv(u)
  {
    forall q ensures PcAt(s, q) {}
    forall q ensures ChanAt(s, q) {}
    forall l ensures HolderAt(s, l) {}
    forall w, q ensures ScanAt(s, w, q) {}
    RunKeeps(s, steps, u);
  }

  // ---------- Main results ----------

  /** A spin lock has one holder: two processes cannot both be where lk is held. */
  lemma MutualExclusion(s: Sys, steps: seq<Step>, u: Sys, p: int, q: int)
    requires Start(s) && Run(s, steps, u) && 0 <= p < |u.pc| && 0 <= q < |u.pc|
    requires HoldsOwn(u.pc[p]) && HoldsOwn(u.pc[q]) && u.pc[p].lk == u.pc[q].lk != NOLOCK
    ensures p == q
  {
    Reachable(s, steps, u);
    assert PcAt(u, p) && PcAt(u, q);
  }

  /** And it is held exactly where the code is between acquire and release: by nobody while a sleeper sleeps. */
  lemma HeldExactly(s: Sys, steps: seq<Step>, u: Sys, p: int, l: int)
    requires Start(s) && Run(s, steps, u) && 0 <= p < |u.pc| && l >= 0
    ensures l in u.holder && u.holder[l] == p <==> HoldsLock(u.pc[p], l)
  {
    Reachable(s, steps, u);
    assert PcAt(u, p) && HolderAt(u, l);
  }

  // p is inside sleep(), or about to call it, with lock lk.
  predicate InSleep(s: Sys, p: int, lk: int) {
    && 0 <= p < |s.pc|
    && var pc := s.pc[p];
    && (pc.Tested? || pc.Locked? || pc.Released? || pc.Marked? || pc.Asleep? || pc.Back? || pc.Reacquiring?)
    && pc.lk == lk
  }

  // p has come back from sleep(): it holds lk and waits on no channel.
  predicate Awake(s: Sys, p: int, lk: int) {
    Shape(s) && 0 <= p < |s.pc| && s.pc[p] == In(lk) && s.chan[p] == NOCHAN && lk in s.holder && s.holder[lk] == p
  }

  lemma LeavesHolding(s: Sys, step: Step, p: int, lk: int)
    requires Inv(s) && Enabled(s, step) && InSleep(s, p, lk)
    ensures InSleep(Exec(s, step), p, lk) || Awake(Exec(s, step), p, lk)
  {
    assert PcAt(s, p) && ChanAt(s, p);
  }

  /**
   sleep() returns with its lock: the first state after the test in which the process is no longer
   inside sleep is one in which it holds lk again and waits on no channel.
   */
  lemma {:induction false} SleepReturnsHolding(s: Sys, before: seq<Step>, v: Sys, after: seq<Step>, u: Sys, p: int)
    requires Start(s) && Run(s, before, v) && 0 <= p < |v.pc| && v.pc[p].Tested? && Run(v, after, u)
    requires forall k, w :: 0 <= k < |after| && Run(v, after[..k], w) ==> InSleep(w, p, v.pc[p].lk)
    ensures InSleep(u, p, v.pc[p].lk) || Awake(u, p, v.pc[p].lk)
  {
    Reachable(s, before, v);
    StaysOrLeaves(v, after, u, p, v.pc[p].lk);
  }

  lemma {:induction false} StaysOrLeaves(v: Sys, after: seq<Step>, u: Sys, p: int, lk: int)
    requires Inv(v) && Run(v, after, u) && InSleep(v, p, lk)
    requires forall k, w :: 0 <= k < |after| && Run(v, after[..k], w) ==> InSleep(w, p, lk)
    ensures InSleep(u, p, lk) || Awake(u, p, lk)
    decreases |after|
  {
    if after != [] {
      var x := Exec(v, after[0]);
      StepKeeps(v, after[0]);
      LeavesHolding(v, after[0], p, lk);
      if |after| > 1 {
        assert after[..1] == [after[0]] && after[..1][1..] == [] && Run(x, [], x);
        assert Run(v, after[..1], x);
        forall k, w | 0 <= k < |after[1..]| && Run(x, after[1..][..k], w) ensures InSleep(w, p, lk) {
          var l := k + 1;
          assert after[..l][0] == after[0] && after[..l][1..] == after[1..][..k];
          assert Run(v, after[..l], w);
        }
        StaysOrLeaves(x, after[1..], u, p, lk);
      }
    }
  }

  /** A sleeper is made runnable by kill, by a wakeup on the channel it sleeps on, and by nothing else. */
  lemma WokenOnPurpose(s: Sys, step: Step, q: int)
    requires Enabled(s, step) && 0 <= q < |s.pc| && s.st[q] == Sleeping
    ensures Exec(s, step).st[q] == Runnable <==>
      step == Kill(q) || (step.Scan? && s.pc[step.p].i == q && s.pc[step.p].c == s.chan[q])
    ensures Exec(s, step).st[q] == Runnable || Exec(s, step).st[q] == Sleeping
  {
  }

  /**
   No missed wakeup: when wakeup1's loop, run by someone holding lk, comes to a process that tested
   its condition under lk before and has not been woken since, that process is SLEEPING on the
   channel, so the loop wakes it.
   */
  lemma NoMissedWakeup(s: Sys, steps: seq<Step>, u: Sys, w: int)
    requires Start(s) && Run(s, steps, u) && 0 <= w < |u.pc| && u.pc[w].Scanning? && u.pc[w].lk != NOLOCK
    requires 0 <= u.pc[w].i < |u.pc| && Waits(u, u.pc[w].i, u.pc[w].lk, u.pc[w].c)
    ensures var q := u.pc[w].i;
      && u.st[q] == Sleeping && u.chan[q] == u.pc[w].c
      && Enabled(u, Scan(w)) && Exec(u, Scan(w)).st[q] == Runnable && !Waits(Exec(u, Scan(w)), q, u.pc[w].lk, u.pc[w].c)
  {
    Reachable(s, steps, u);
    assert PcAt(u, w) && PcAt(u, u.pc[w].i);
  }

  /** When such a wakeup is done, nobody waits under lk for its channel. */
  lemma WakeupWakesAll(s: Sys, steps: seq<Step>, u: Sys, w: int, q: int)
    requires Start(s) && Run(s, steps, u) && 0 <= w < |u.pc| && u.pc[w].Scanning? && u.pc[w].lk != NOLOCK
    requires u.pc[w].i == |u.pc|
    ensures !Waits(u, q, u.pc[w].lk, u.pc[w].c)
  {
    Reachable(s, steps, u);
    assert ScanAt(u, w, q);
  }

  // Process 0 has tested under lock 1; process 1 is in wakeup without any lock and scans past it.
  lemma BareScan(c: Sys) returns (steps: seq<Step>, u: Sys)
    requires Shape(c) && c.pc == [Tested(1, 7), Waking(NOLOCK, 7)] && c.holder == map[1 := 0]
    requires c.st == [Running, Running]
    ensures Run(c, steps, u) && u.pc == [Tested(1, 7), Scanning(NOLOCK, 7, 2)] && Shape(u)
  {
    var d := c.(pc := [Tested(1, 7), Scanning(NOLOCK, 7, 0)], holder := map[1 := 0, PT := 1]);
    assert Exec(c, WakeAcquire(1)) == d;
    var e := d.(pc := [Tested(1, 7), Scanning(NOLOCK, 7, 1)]);
    assert Exec(d, Scan(1)) == e;
    u := e.(pc := [Tested(1, 7), Scanning(NOLOCK, 7, 2)]);
    assert Exec(e, Scan(1)) == u;
    RunOne(e, Scan(1), [], u);
    RunOne(d, Scan(1), [Scan(1)] + [], u);
    RunOne(c, WakeAcquire(1), [Scan(1)] + ([Scan(1)] + []), u);
    steps := [WakeAcquire(1)] + ([Scan(1)] + ([Scan(1)] + []));
  }

  // How they get there.
  lemma BareCall(s: Sys, c: Sys, rest: seq<Step>, u: Sys) returns (steps: seq<Step>)
    requires Start(s) && |s.pc| == 2 && c == s.(pc := [Tested(1, 7), Waking(NOLOCK, 7)], holder := map[1 := 0])
    requires Run(c, rest, u)
    ensures Run(s, steps, u)
  {
    var a := s.(pc := [In(1), Out], holder := map[1 := 0]);
    assert Exec(s, Acquire(0, 1)) == a;
    var b := a.(pc := [Tested(1, 7), Out]);
    assert Exec(a, Test(0, 7)) == b && Exec(b, CallWakeupBare(1, 7)) == c;
    RunOne(b, CallWakeupBare(1, 7), rest, u);
    RunOne(a, Test(0, 7), [CallWakeupBare(1, 7)] + rest, u);
    RunOne(s, Acquire(0, 1), [Test(0, 7)] + ([CallWakeupBare(1, 7)] + rest), u);
    steps := [Acquire(0, 1)] + ([Test(0, 7)] + ([CallWakeupBare(1, 7)] + rest));
  }

  /** Holding the lock is needed: a wakeup without it can run between the test and the sleep. */
  lemma BareWakeupCanMiss(s: Sys)
    requires Start(s) && |s.pc| == 2
    ensures exists steps, u :: Run(s, steps, u) && |u.pc| == 2 && u.pc[1] == Scanning(NOLOCK, 7, 2) && Waits(u, 0, 1, 7)
  {
    var c := s.(pc := [Tested(1, 7), Waking(NOLOCK, 7)], holder := map[1 := 0]);
    assert c.st == [Running, Running];
    var rest, u := BareScan(c);
    var steps := BareCall(s, c, rest, u);
  }

  lemma RunOne(s: Sys, step: Step, rest: seq<Step>, u: Sys)
    requires Enabled(s, step) && Run(Exec(s, step), rest, u)
    ensures Run(s, [step] + rest, u)
  {
    assert ([step] + rest)[1..] == rest;
  }
}
