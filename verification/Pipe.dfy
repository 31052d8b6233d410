/**
 The pipe of pipe.c: a 512-byte ring with 32-bit counters that wrap, shared by any number of reading
 and writing processes. Each step is one critical section of p->lock, which a process leaves by
 returning or by going to sleep.
 */
module Pipe {

  const PIPESIZE := 512
  const TWO32 := 0x1_0000_0000

  // What has gone in and come out so far, and who sleeps on which counter.
  datatype View = View(
    accepted: seq<int>,
    delivered: seq<int>,
    readopen: bool,
    writeopen: bool,
    readers: set<int>,   // asleep on &p->nread
    writers: set<int>    // asleep on &p->nwrite
  )

  datatype WriteResult = Wrote | WriteBlocked(i: int) | WriteFailed
  datatype ReadResult = Got(bytes: seq<int>) | ReadBlocked | ReadFailed

  function Count(v: View): int { |v.accepted| - |v.delivered| }

  predicate Fifo(v: View) { v.delivered <= v.accepted && Count(v) <= PIPESIZE }

  // Nobody sleeps without cause.
  predicate SleepersHaveCause(v: View) {
    && (v.readers != {} ==> Count(v) == 0 && v.writeopen && v.readopen)
    && (v.writers != {} ==> Count(v) == PIPESIZE && v.readopen && v.writeopen)
  }

  function Min(a: int, b: int): int { if a < b then a else b }

  // ---------- The three critical sections ----------

  function Write(v: View, me: int, buf: seq<int>, i: int, killed: bool): (r: (View, WriteResult))
    requires Fifo(v) && 0 <= i <= |buf|
  {
    var k := Min(|buf| - i, PIPESIZE - Count(v));
    var v' := v.(accepted := v.accepted + buf[i..i + k]);
    if i + k == |buf| then (v'.(readers := {}), Wrote)
    else if !v.readopen || killed then (v', WriteFailed)
    else (v'.(readers := {}, writers := v.writers + {me}), WriteBlocked(i + k))
  }

  function Read(v: View, me: int, n: int, killed: bool): (r: (View, ReadResult))
    requires Fifo(v)
  {
    if Count(v) == 0 && v.writeopen then
      if killed then (v, ReadFailed) else (v.(readers := v.readers + {me}), ReadBlocked)
    else
      var k := Min(if n < 0 then 0 else n, Count(v));
      var bytes := v.accepted[|v.delivered|..|v.delivered| + k];
      (v.(delivered := v.delivered + bytes, writers := {}), Got(bytes))
  }

  function Close(v: View, writable: bool): (v': View) {
    if writable then v.(writeopen := false, readers := {}) else v.(readopen := false, writers := {})
  }

  // ---------- Any interleaving ----------

  datatype Step =
    | DoWrite(me: int, buf: seq<int>, i: int, killed: bool)
    | DoRead(me: int, n: int, killed: bool)
    | DoClose(writable: bool)
    | DoKill(who: int)

  // A caller of write or read has that end open; an end is closed when the last process with it
  // open, so none asleep inside the call, lets go of it.
  predicate Enabled(v: View, step: Step) {
    match step
    case DoWrite(me, buf, i, killed) => v.writeopen && 0 <= i <= |buf|
    case DoRead(me, n, killed) => v.readopen
    case DoClose(writable) => if writable then v.writeopen && v.writers == {} else v.readopen && v.readers == {}
    case DoKill(who) => true
  }

  function Exec(v: View, step: Step): View
    requires Fifo(v) && Enabled(v, step)
  {
    match step
    case DoWrite(me, buf, i, killed) => Write(v, me, buf, i, killed).0
    case DoRead(me, n, killed) => Read(v, me, n, killed).0
    case DoClose(writable) => Close(v, writable)
    case DoKill(who) => v.(readers := v.readers - {who}, writers := v.writers - {who})
  }

  ghost predicate Run(v: View, steps: seq<Step>, u: View)
    decreases |steps|
  {
    if steps == [] then v == u
    else Fifo(v) && Enabled(v, steps[0]) && Run(Exec(v, steps[0]), steps[1..], u)
  }

  const NEW := View([], [], true, true, {}, {})

  // What the step hands to its caller, and what it takes in.
  function Returned(v: View, step: Step): seq<int>
    requires Fifo(v) && Enabled(v, step)
  {
    if step.DoRead? && Read(v, step.me, step.n, step.killed).1.Got?
    then Read(v, step.me, step.n, step.killed).1.bytes
    else []
  }

  ghost function AllReturned(v: View, steps: seq<Step>, u: View): seq<int>
    requires Run(v, steps, u)
    decreases |steps|
  {
    if steps == [] then [] else Returned(v, steps[0]) + AllReturned(Exec(v, steps[0]), steps[1..], u)
  }

  // The bytes of the caller's buffer that a step takes in.
  function Taken(v: View, step: Step): seq<int>
    requires Fifo(v) && Enabled(v, step)
  {
    if !step.DoWrite? then []
    else match Write(v, step.me, step.buf, step.i, step.killed).1
      case Wrote => step.buf[step.i..]
      case WriteBlocked(j) => if step.i <= j <= |step.buf| then step.buf[step.i..j] else []
      case WriteFailed => step.buf[step.i..step.i + Min(|step.buf| - step.i, PIPESIZE - Count(v))]
  }

  ghost function AllTaken(v: View, steps: seq<Step>, u: View): seq<int>
    requires Run(v, steps, u)
    decreases |steps|
  {
    if steps == [] then [] else Taken(v, steps[0]) + AllTaken(Exec(v, steps[0]), steps[1..], u)
  }

  lemma StepKeepsFifo(v: View, step: Step)
    requires Fifo(v) && Enabled(v, step)
    ensures Fifo(Exec(v, step))
    ensures Exec(v, step).delivered == v.delivered + Returned(v, step)
    ensures Exec(v, step).accepted == v.accepted + Taken(v, step)
  {
  }

  lemma {:induction false} RunTransfers(v: View, steps: seq<Step>, u: View)
    requires Fifo(v) && Run(v, steps, u)
    ensures Fifo(u)
    ensures u.delivered == v.delivered + AllReturned(v, steps, u)
    ensures u.accepted == v.accepted + AllTaken(v, steps, u)
    decreases |steps|
  {
    if steps == [] {
      assert u.delivered + [] == u.delivered && u.accepted + [] == u.accepted;
    } else {
      var v' := Exec(v, steps[0]);
      StepKeepsFifo(v, steps[0]);
      RunTransfers(v', steps[1..], u);
      Associate(v.delivered, Returned(v, steps[0]), AllReturned(v', steps[1..], u));
      Associate(v.accepted, Taken(v, steps[0]), AllTaken(v', steps[1..], u));
    }
  }

  lemma Associate(a: seq<int>, b: seq<int>, c: seq<int>)
    ensures a + b + c == a + (b + c)
  {
  }

  /**
   First in, first out: whatever the interleaving from a new pipe on, the bytes returned by all reads
   followed by what is still in the pipe are the bytes taken from the writers in order, and at most
   PIPESIZE of them are in it.
   */
  lemma FirstInFirstOut(steps: seq<Step>, u: View)
    requires Run(NEW, steps, u)
    ensures AllReturned(NEW, steps, u) <= AllTaken(NEW, steps, u)
    ensures |AllTaken(NEW, steps, u)| - |AllReturned(NEW, steps, u)| <= PIPESIZE
    ensures u.accepted == AllTaken(NEW, steps, u) && u.delivered == AllReturned(NEW, steps, u)
  {
    RunTransfers(NEW, steps, u);
    var returned, taken := AllReturned(NEW, steps, u), AllTaken(NEW, steps, u);
    assert [] + returned == returned && [] + taken == taken;
  }

  // The one step that can leave a reader asleep over data: a killed writer that fills the pipe.
  predicate Strands(v: View, step: Step) {
    step.DoWrite? && step.killed && v.readers != {} && |step.buf| - step.i > PIPESIZE
  }

  /** Sleepers keep their cause across a step exactly when the step is not of that kind. */
  lemma SleepersKeptIff(v: View, step: Step)
    requires Fifo(v) && SleepersHaveCause(v) && Enabled(v, step)
    ensures SleepersHaveCause(Exec(v, step)) <==> !Strands(v, step)
  {
  }

  ghost predicate Quiet(v: View, steps: seq<Step>, u: View)
    requires Run(v, steps, u)
    decreases |steps|
  {
    steps != [] ==> !Strands(v, steps[0]) && Quiet(Exec(v, steps[0]), steps[1..], u)
  }

  /** In every run without such a step, a sleeping reader means empty, a sleeping writer means full. */
  lemma {:induction false} SleepersAlwaysHaveCause(v: View, steps: seq<Step>, u: View)
    requires Fifo(v) && SleepersHaveCause(v) && Run(v, steps, u) && Quiet(v, steps, u)
    ensures SleepersHaveCause(u)
    decreases |steps|
  {
    if steps != [] {
      StepKeepsFifo(v, steps[0]);
      SleepersKeptIff(v, steps[0]);
      SleepersAlwaysHaveCause(Exec(v, steps[0]), steps[1..], u);
    }
  }

  /** A run that strands a reader: it sleeps on an empty pipe, and a killed writer fills the pipe and leaves. */
  lemma KilledWriterStrandsReader(buf: seq<int>)
    requires |buf| == PIPESIZE + 1
    ensures exists steps, u :: Run(NEW, steps, u) && u.readers == {1} && Count(u) == PIPESIZE && !SleepersHaveCause(u)
  {
    var read, write := DoRead(1, 1, false), DoWrite(2, buf, 0, true);
    var v := Exec(NEW, read);
    var u := Exec(v, write);
    assert [read, write][1..] == [write] && [write][1..] == [];
    assert Run(u, [], u) && Run(v, [write], u);
    assert Run(NEW, [read, write], u);
  }

  // ---------- The ring ----------

  // The j'th byte ever accepted, while it is in the pipe, is in its place on the ring.
  predicate HeldAt(ring: seq<int>, delivered: nat, accepted: seq<int>, j: int) {
    |ring| == PIPESIZE && (delivered <= j < |accepted| ==> ring[j % PIPESIZE] == accepted[j])
  }

  class Ring {
    const data: array<int>
    var nread: int
    var nwrite: int
    var readopen: bool
    var writeopen: bool
    ghost var v: View

    ghost predicate Valid()
      reads this, data
    {
      && data.Length == PIPESIZE && Fifo(v) && readopen == v.readopen && writeopen == v.writeopen
      && nread == |v.delivered| % TWO32 && nwrite == |v.accepted| % TWO32
      && forall j {:trigger HeldAt(data[..], |v.delivered|, v.accepted, j)} ::
        HeldAt(data[..], |v.delivered|, v.accepted, j)
    }

    constructor ()
      ensures Valid() && fresh(data) && v == NEW
    {
      data := new int[PIPESIZE];
      nread, nwrite, readopen, writeopen := 0, 0, true, true;
      v := NEW;
    }

    /**
     One critical section of pipewrite, from byte i on: as many bytes as there is room for go in. The
     call is over with all of them, fails with the read end closed or the process killed, and
     otherwise wakes the readers and goes to sleep.
     */
    method WriteSection(me: int, buf: seq<int>, i: int, killed: bool) returns (r: WriteResult)
      requires Valid() && 0 <= i <= |buf|
      modifies this`nwrite, this`v, data
      ensures Valid() && (v, r) == Write(old(v), me, buf, i, killed)
      ensures var left, room := |buf| - i, PIPESIZE - Count(old(v));
        && (r.Wrote? <==> left <= room)
        && (r.WriteFailed? <==> left > room && (!old(v).readopen || killed))
        && (r.WriteBlocked? ==> r.i == i + room)
        && v.accepted == old(v).accepted + buf[i..i + Min(left, room)] && v.delivered == old(v).delivered
      ensures v.readers == if r.WriteFailed? then old(v).readers else {}
      ensures v.writers == if r.WriteBlocked? then old(v).writers + {me} else old(v).writers
      ensures v.readopen == old(v).readopen && v.writeopen == old(v).writeopen
    {
      var k := i;
      ghost var v0 := v;
      while k < |buf| && nwrite != (nread + PIPESIZE) % TWO32
        invariant i <= k <= |buf| && Valid() && Count(v) == Count(v0) + k - i
        invariant v == v0.(accepted := v0.accepted + buf[i..k])
      {
        Counters(|v.delivered|, |v.accepted|);
        StoreByte(buf[k]);
        assert buf[i..k] + [buf[k]] == buf[i..k + 1];
        k := k + 1;
      }
      Counters(|v.delivered|, |v.accepted|);
      if k < |buf| {
        if !readopen || killed { return WriteFailed; }
        v := v.(readers := {}, writers := v.writers + {me});
        return WriteBlocked(k);
      }
      v := v.(readers := {});
      return Wrote;
    }

    // p->data[p->nwrite++ % PIPESIZE] = c
    method StoreByte(c: int)
      requires Valid() && Count(v) < PIPESIZE
      modifies this`nwrite, this`v, data
      ensures Valid() && v == old(v).(accepted := old(v).accepted + [c])
    {
      Counters(|v.delivered|, |v.accepted|);
      NoClash(|v.delivered|, |v.accepted|);
      ghost var ring, d, was := data[..], |v.delivered|, v.accepted;
      data[nwrite % PIPESIZE] := c;
      nwrite := (nwrite + 1) % TWO32;
      v := v.(accepted := v.accepted + [c]);
      forall j ensures HeldAt(data[..], d, v.accepted, j) { assert HeldAt(ring, d, was, j); }
    }

    // p->data[p->nread++ % PIPESIZE]
    method TakeByte() returns (c: int)
      requires Valid() && Count(v) > 0
      modifies this`nread, this`v
      ensures c == old(v).accepted[|old(v).delivered|]
      ensures Valid() && v == old(v).(delivered := old(v).delivered + [c])
    {
      Counters(|v.delivered|, |v.accepted|);
      c := data[nread % PIPESIZE];
      ghost var d := |v.delivered|;
      assert HeldAt(data[..], d, v.accepted, d);
      nread := (nread + 1) % TWO32;
      v := v.(delivered := v.delivered + [c]);
      forall j ensures HeldAt(data[..], |v.delivered|, v.accepted, j) { assert HeldAt(data[..], d, v.accepted, j); }
    }

    /**
     One critical section of piperead: on an empty pipe that is still written to it sleeps, or fails if
     killed; otherwise it returns the oldest bytes, as many as asked for and there are, and wakes the
     writers.
     */
    method ReadSection(me: int, n: int, killed: bool) returns (r: ReadResult)
      requires Valid()
      modifies this`nread, this`v
      ensures Valid() && (v, r) == Read(old(v), me, n, killed)
      ensures var dry := Count(old(v)) == 0 && old(v).writeopen;
        (r.ReadBlocked? <==> dry && !killed) && (r.ReadFailed? <==> dry && killed)
      ensures var at, most := |old(v).delivered|, Min(if n < 0 then 0 else n, Count(old(v)));
        r.Got? ==> r.bytes == old(v).accepted[at..at + most] && v.delivered == old(v).delivered + r.bytes
      ensures !r.Got? ==> v.delivered == old(v).delivered
      ensures v.accepted == old(v).accepted
      ensures v.readers == if r.ReadBlocked? then old(v).readers + {me} else old(v).readers
      ensures v.writers == if r.Got? then {} else old(v).writers
      ensures v.readopen == old(v).readopen && v.writeopen == old(v).writeopen
    {
      ghost var v0 := v;
      Counters(|v.delivered|, |v.accepted|);
      if nread == nwrite && writeopen {
        if killed { return ReadFailed; }
        v := v.(readers := v.readers + {me});
        return ReadBlocked;
      }
      var got := Drain(n);
      v := v.(writers := {});
      return Got(got);
    }

    // The copying loop of piperead.
    method Drain(n: int) returns (got: seq<int>)
      requires Valid()
      modifies this`nread, this`v
      ensures Valid()
      ensures var at, most := |old(v).delivered|, Min(if n < 0 then 0 else n, Count(old(v)));
        got == old(v).accepted[at..at + most]
      ensures v == old(v).(delivered := old(v).delivered + got)
    {
      ghost var v0 := v;
      got := [];
      var i := 0;
      var empty := Empty();
      while i < n && !empty
        invariant 0 <= i && (n >= 0 ==> i <= n) && (n < 0 ==> i == 0) && Valid() && empty == (Count(v) == 0)
        invariant Drained(v0, v, got, i)
        decreases n - i
      {
        DrainOne(v0, v, got, i);
        var c := TakeByte();
        got := got + [c];
        i := i + 1;
        empty := Empty();
      }
    }

    // p->nread == p->nwrite
    method Empty() returns (b: bool)
      requires Valid()
      ensures b == (Count(v) == 0)
    {
      Counters(|v.delivered|, |v.accepted|);
      b := nread == nwrite;
    }

    /**
     pipeclose: the end is closed and the other side woken; the pipe is freed when the other end was
     closed already.
     */
    method Pipeclose(writable: bool) returns (freed: bool)
      requires Valid()
      modifies this`readopen, this`writeopen, this`v
      ensures Valid() && v == Close(old(v), writable)
      ensures v.readopen == (old(v).readopen && writable) && v.writeopen == (old(v).writeopen && !writable)
      ensures v.readers == (if writable then {} else old(v).readers)
      ensures v.writers == (if writable then old(v).writers else {})
      ensures v.accepted == old(v).accepted && v.delivered == old(v).delivered
      ensures freed == if writable then !old(v).readopen else !old(v).writeopen
    {
      if writable {
        writeopen := false;
        v := v.(writeopen := false, readers := {});
      } else {
        readopen := false;
        v := v.(readopen := false, writers := {});
      }
      freed := !readopen && !writeopen;
    }
  }

  // The loop of piperead has taken i bytes from v0.
  predicate Drained(v0: View, v: View, got: seq<int>, i: nat) {
    && Fifo(v0) && i <= Count(v0) && got == v0.accepted[|v0.delivered|..|v0.delivered| + i]
    && v == v0.(delivered := v0.delivered + got)
  }

  lemma DrainOne(v0: View, v: View, got: seq<int>, i: nat)
    requires Drained(v0, v, got, i) && Count(v) > 0
    ensures var c := v.accepted[|v.delivered|]; Drained(v0, v.(delivered := v.delivered + [c]), got + [c], i + 1)
  {
    var c := v.accepted[|v.delivered|];
    Associate(v0.delivered, got, [c]);
    assert got + [c] == v0.accepted[|v0.delivered|..|v0.delivered| + i + 1];
  }

  // The wrapping counters still tell full from empty, and still index the ring.
  lemma Counters(d: nat, a: nat)
    requires d <= a <= d + PIPESIZE
    ensures a % TWO32 == d % TWO32 <==> a == d
    ensures a % TWO32 == (d % TWO32 + PIPESIZE) % TWO32 <==> a == d + PIPESIZE
    ensures (a + 1) % TWO32 == (a % TWO32 + 1) % TWO32 && (d + 1) % TWO32 == (d % TWO32 + 1) % TWO32
    ensures (a % TWO32) % PIPESIZE == a % PIPESIZE && (d % TWO32) % PIPESIZE == d % PIPESIZE
  {
    Close32(d, a);
    Close32(a, d + PIPESIZE);
    Shift(d, PIPESIZE);
    Shift(a, 1);
    Shift(d, 1);
    Divides(a);
    Divides(d);
  }

  lemma Close32(x: nat, y: nat)
    requires x <= y <= x + PIPESIZE
    ensures x % TWO32 == y % TWO32 <==> x == y
  {
  }

  lemma Shift(x: nat, k: nat)
    requires k <= PIPESIZE
    ensures (x + k) % TWO32 == (x % TWO32 + k) % TWO32
  {
  }

  lemma Divides(x: nat)
    ensures (x % TWO32) % PIPESIZE == x % PIPESIZE
  {
    var q := x / TWO32;
    assert x == PIPESIZE * (q * (TWO32 / PIPESIZE)) + x % TWO32;
  }

  lemma NoClash(d: nat, a: nat)
    requires d <= a < d + PIPESIZE
    ensures forall j {:trigger j % PIPESIZE} :: d <= j < a ==> j % PIPESIZE != a % PIPESIZE
  {
  }
}
