/** What one stay under a pipe's lock does, and the runs of any number of readers and writers. */
module PipeSpec {
  import opened Basics
  import opened Blocks

  const PIPESIZE: nat := 512

  /** All bytes ever written and read, and which ends are open. */
  datatype Queue = Queue(stored: seq<byte>, delivered: seq<byte>, readopen: bool, writeopen: bool)

  /** How a stay under the pipe's lock ends: the call returns, or it sleeps. */
  datatype WriteEnd = WriteDone | WriteFailed | WriterSleeps
  datatype ReadEnd = Bytes(data: seq<byte>) | ReadFailed | ReaderSleeps

  predicate Fifo(q: Queue) {
    |q.stored| - PIPESIZE <= |q.delivered| <= |q.stored| && q.delivered == q.stored[..|q.delivered|]
  }

  function Pending(q: Queue): nat
    requires Fifo(q)
  {
    |q.stored| - |q.delivered|
  }

  /** pipewrite goes on from the i-th byte of src: it stores what fits. */
  function WriteTo(q: Queue, src: seq<byte>, i: nat, killed: bool): (r: (Queue, nat, WriteEnd))
    requires Fifo(q) && i <= |src|
    ensures Fifo(r.0) && i <= r.1 <= |src|
  {
    var j := i + Min(|src| - i, PIPESIZE - Pending(q));
    (q.(stored := q.stored + src[i..j]), j,
      if j == |src| then WriteDone else if !q.readopen || killed then WriteFailed else WriterSleeps)
  }

  /** piperead of n bytes: it takes the oldest ones. */
  function ReadFrom(q: Queue, n: int, killed: bool): (r: (Queue, ReadEnd))
    requires Fifo(q)
    ensures Fifo(r.0)
  {
    if Pending(q) == 0 && q.writeopen then (q, if killed then ReadFailed else ReaderSleeps)
    else
      var m := |q.delivered| + Min(if n < 0 then 0 else n, Pending(q));
      (q.(delivered := q.stored[..m]), Bytes(q.stored[|q.delivered|..m]))
  }

  /** A read of at least one byte returns none only at the end of the file. */
  lemma EmptyReadIsEof(q: Queue, n: int, killed: bool)
    requires Fifo(q) && n > 0
    ensures ReadFrom(q, n, killed).1 == Bytes([]) <==> q.delivered == q.stored && !q.writeopen
    ensures ReadFrom(q, n, killed).1.Bytes? ==>
      ReadFrom(q, n, killed).0.delivered == q.delivered + ReadFrom(q, n, killed).1.data
  {
  }

  // ---- runs ----

  datatype Call = Writing(src: seq<byte>, i: nat) | Reading(n: int)
  datatype Job = Job(call: Call, asleep: bool)

  /** The pipe and the calls in progress, by process. */
  datatype Run = Run(q: Queue, jobs: map<nat, Job>, killed: set<nat>)

  datatype Event = Start(pid: nat, call: Call) | Go(pid: nat) | Kill(pid: nat) | Close(writable: bool)

  function Wake(jobs: map<nat, Job>, writers: bool): map<nat, Job> {
    map p | p in jobs :: if jobs[p].call.Writing? == writers then jobs[p].(asleep := false) else jobs[p]
  }

  /** Process p stays under the lock once. */
  function Stay(s: Run, p: nat): Run
    requires Fifo(s.q) && p in s.jobs && (s.jobs[p].call.Writing? ==> s.jobs[p].call.i <= |s.jobs[p].call.src|)
  {
    match s.jobs[p].call
    case Writing(src, i) =>
      var (q, j, end) := WriteTo(s.q, src, i, p in s.killed);
      (match end
       case WriteDone => Run(q, Wake(s.jobs - {p}, false), s.killed)
       case WriteFailed => Run(q, s.jobs - {p}, s.killed)
       case WriterSleeps => Run(q, Wake(s.jobs, false)[p := Job(Writing(src, j), true)], s.killed))
    case Reading(n) =>
      var (q, end) := ReadFrom(s.q, n, p in s.killed);
      match end
      case Bytes(_) => Run(q, Wake(s.jobs - {p}, true), s.killed)
      case ReadFailed => Run(q, s.jobs - {p}, s.killed)
      case ReaderSleeps => Run(q, s.jobs[p := Job(Reading(n), true)], s.killed)
  }

  predicate InUse(s: Run, writable: bool) {
    exists p :: p in s.jobs && s.jobs[p].call.Writing? == writable
  }

  /** Calls start on an open end, and an end in use is not closed: the caller holds its file. */
  predicate Possible(s: Run, e: Event) {
    match e
    case Start(p, call) => p !in s.jobs && (if call.Writing? then s.q.writeopen && call.i == 0 else s.q.readopen)
    case Go(p) => p in s.jobs && !s.jobs[p].asleep
    case Kill(_) => true
    case Close(writable) => !InUse(s, writable)
  }

  function Next(s: Run, e: Event): Run
    requires Base(s)
  {
    if !Possible(s, e) then s
    else match e
      case Start(p, call) => s.(jobs := s.jobs[p := Job(call, false)])
      case Go(p) => Stay(s, p)
      case Kill(p) => s.(killed := s.killed + {p},
          jobs := if p in s.jobs then s.jobs[p := s.jobs[p].(asleep := false)] else s.jobs)
      case Close(writable) =>
        if writable then s.(q := s.q.(writeopen := false), jobs := Wake(s.jobs, false))
        else s.(q := s.q.(readopen := false), jobs := Wake(s.jobs, true))
  }

  /** Delivered is a prefix of stored, at most PIPESIZE behind; a sleeping writer has a full pipe and
      readers, a sleeping reader has writers. */
  predicate Base(s: Run) {
    && Fifo(s.q)
    && forall p :: p in s.jobs ==>
        match s.jobs[p].call
        case Writing(src, i) => i <= |src| && s.q.writeopen
            && (s.jobs[p].asleep ==> Pending(s.q) == PIPESIZE && s.q.readopen)
        case Reading(_) => s.q.readopen && (s.jobs[p].asleep ==> s.q.writeopen)
  }

  /** No reader sleeps on a pipe that has bytes. */
  predicate NoneStranded(s: Run)
    requires Base(s)
  {
    forall p :: p in s.jobs && s.jobs[p].call.Reading? && s.jobs[p].asleep ==> Pending(s.q) == 0
  }

  lemma NextKeeps(s: Run, e: Event)
    requires Base(s)
    ensures Base(Next(s, e))
    ensures s.q.stored <= Next(s, e).q.stored && s.q.delivered <= Next(s, e).q.delivered
  {
    if e.Go? && Possible(s, e) {
      StayKeeps(s, e.pid);
      hide Stay, Fifo;
    }
  }

  lemma StayKeeps(s: Run, p: nat)
    requires Base(s) && p in s.jobs && !s.jobs[p].asleep
    ensures Base(Stay(s, p))
    ensures s.q.stored <= Stay(s, p).q.stored && s.q.delivered <= Stay(s, p).q.delivered
  {
  }

  /** Exactly when a step strands a reader: a killed writer fills the empty pipe and fails. */
  predicate Strands(s: Run, e: Event) {
    && e.Go? && Possible(s, e) && s.jobs[e.pid].call.Writing? && e.pid in s.killed
    && |s.jobs[e.pid].call.src| - s.jobs[e.pid].call.i > PIPESIZE
    && exists p :: p in s.jobs && s.jobs[p].call.Reading? && s.jobs[p].asleep
  }

  lemma StrandedExactly(s: Run, e: Event)
    requires Base(s) && NoneStranded(s)
    ensures Base(Next(s, e)) && (NoneStranded(Next(s, e)) <==> !Strands(s, e))
  {
    NextKeeps(s, e);
    if Strands(s, e) {
      var p :| p in s.jobs && s.jobs[p].call.Reading? && s.jobs[p].asleep;
      assert p in Next(s, e).jobs && Next(s, e).jobs[p] == s.jobs[p];
      assert Pending(Next(s, e).q) == PIPESIZE;
    }
  }

  /** Runs from an empty pipe. */
  function After(es: seq<Event>): (s: Run)
    ensures Base(s)
  {
    if es == [] then Run(Queue([], [], true, true), map[], {})
    else NextKeeps(After(es[..|es| - 1]), es[|es| - 1]); Next(After(es[..|es| - 1]), es[|es| - 1])
  }

  lemma AfterOneMore(es: seq<Event>, e: Event)
    ensures After(es + [e]) == Next(After(es), e)
  {
    assert (es + [e])[..|es|] == es;
  }

  /** A run that strands a reader: it sleeps, and a killed writer fills the pipe and fails. */
  function StrandingRun(): seq<Event> {
    [Start(1, Reading(1))] + [Go(1)] + [Start(2, Writing(seq(PIPESIZE + 1, _ => 0), 0))] + [Kill(2)] + [Go(2)]
  }

  lemma ReaderStranded()
    ensures !NoneStranded(After(StrandingRun()))
  {
    hide After, Stay;
    var src: seq<byte> := seq(PIPESIZE + 1, _ => 0);
    var q := Queue([], [], true, true);
    var e1 := [Start(1, Reading(1))];
    var e2 := e1 + [Go(1)];
    var e3 := e2 + [Start(2, Writing(src, 0))];
    AfterNothing();
    AfterOneMore([], Start(1, Reading(1)));
    assert [] + e1 == e1;
    AfterOneMore(e1, Go(1));
    ReaderSleepsOn(q);
    assert After(e2) == Run(q, map[1 := Job(Reading(1), true)], {});
    AfterOneMore(e2, Start(2, Writing(src, 0)));
    AfterOneMore(e3, Kill(2));
    AfterOneMore(e3 + [Kill(2)], Go(2));
    var s := After(e3 + [Kill(2)]);
    assert s.jobs[1] == Job(Reading(1), true) && s.jobs[2] == Job(Writing(src, 0), false);
    StrandedExactly(s, Go(2));
  }

  lemma AfterNothing()
    ensures After([]) == Run(Queue([], [], true, true), map[], {})
  {
  }

  lemma ReaderSleepsOn(q: Queue)
    requires q == Queue([], [], true, true)
    ensures Stay(Run(q, map[1 := Job(Reading(1), false)], {}), 1) == Run(q, map[1 := Job(Reading(1), true)], {})
  {
  }

  /** In a run without kill, no reader ever sleeps on a pipe that has bytes. */
  lemma {:induction false} KillFree(es: seq<Event>)
    requires forall e :: e in es ==> !e.Kill?
    ensures NoneStranded(After(es)) && After(es).killed == {}
  {
    if es != [] {
      KillFree(es[..|es| - 1]);
      StrandedExactly(After(es[..|es| - 1]), es[|es| - 1]);
      assert es[|es| - 1] in es;
    }
  }

  /** A killed process does not sleep in a pipe. */
  predicate KilledAwake(s: Run) {
    forall p :: p in s.killed && p in s.jobs ==> !s.jobs[p].asleep
  }

  lemma KilledNext(s: Run, e: Event)
    requires Base(s) && KilledAwake(s)
    ensures KilledAwake(Next(s, e))
  {
    hide Fifo;
  }

  /** So kill ends every sleep in a pipe, in every run. */
  lemma {:induction false} KillWakes(es: seq<Event>)
    ensures KilledAwake(After(es))
  {
    if es != [] {
      KillWakes(es[..|es| - 1]);
      KilledNext(After(es[..|es| - 1]), es[|es| - 1]);
    }
  }

  /** In every run, kills included, no writer sleeps on a pipe that has room or no readers. */
  lemma WritersAwake(es: seq<Event>, p: nat)
    ensures var s := After(es);
            p in s.jobs && s.jobs[p].call.Writing? && s.jobs[p].asleep ==> Pending(s.q) == PIPESIZE && s.q.readopen
  {
  }
}

/** pipe.c: a ring of 512 bytes with 32-bit counters. */
module Pipes {
  import opened Basics
  import opened Blocks
  import opened PipeSpec

  /** One pipe. `stored` and `delivered` are all bytes ever written and read. */
  class Pipe {
    const data: array<byte>
    var nread: nat
    var nwrite: nat
    var readopen: bool
    var writeopen: bool
    ghost var stored: seq<byte>
    ghost var delivered: seq<byte>

    constructor ()
      ensures Valid() && fresh(data) && stored == delivered == [] && readopen && writeopen
    {
      data := new byte[PIPESIZE](_ => 0);
      nread, nwrite, readopen, writeopen, stored, delivered := 0, 0, true, true, [], [];
    }

    /** The counters are the true ones modulo 2^32, and the bytes in between are in the ring. */
    ghost predicate Valid()
      reads this, data
    {
      && data.Length == PIPESIZE
      && nwrite == Wrap(|stored|) && nread == Wrap(|delivered|)
      && Fifo(State())
      && forall k :: |delivered| <= k < |stored| ==> data[Slot(k)] == stored[k]
    }

    ghost function State(): Queue
      reads this
    {
      Queue(stored, delivered, readopen, writeopen)
    }

    /** `p->data[p->nwrite++ % PIPESIZE] = b` */
    method Put(b: byte)
      requires Valid() && Pending(State()) < PIPESIZE
      modifies this`nwrite, this`stored, data
      ensures Valid() && stored == old(stored) + [b]
    {
      Counters(|stored|, |delivered|);
      hide Slot, Wrap;
      forall k | |delivered| <= k < |stored| ensures Slot(k) != Slot(|stored|) {
        Apart(k, |stored|);
      }
      data[nwrite % PIPESIZE] := b;
      nwrite := (nwrite + 1) % UINT;
      stored := stored + [b];
      assert stored[..|delivered|] == old(stored)[..|delivered|];
    }

    /** `p->data[p->nread++ % PIPESIZE]` */
    method Get() returns (b: byte)
      requires Valid() && Pending(State()) > 0
      modifies this`nread, this`delivered
      ensures Valid() && delivered == old(delivered) + [b]
    {
      Counters(|stored|, |delivered|);
      hide Slot, Wrap;
      b := data[nread % PIPESIZE];
      nread := (nread + 1) % UINT;
      assert b == stored[|delivered|] && |delivered| < |stored|;
      assert stored[..|delivered| + 1] == stored[..|delivered|] + [b];
      delivered := delivered + [b];
    }

    /** pipewrite from the i-th byte of src, until it returns or sleeps; it wakes the readers
        unless it fails. */
    method Write(src: seq<byte>, i: nat, killed: bool) returns (j: nat, end: WriteEnd, wakesReaders: bool)
      requires Valid() && i <= |src|
      modifies this`nwrite, this`stored, data
      ensures Valid() && (State(), j, end) == WriteTo(old(State()), src, i, killed)
      ensures i <= j <= |src| && stored == old(stored) + src[i..j]
      ensures j - i == Min(|src| - i, PIPESIZE - (|old(stored)| - |delivered|))
      ensures end.WriteDone? <==> j == |src|
      ensures end.WriteFailed? <==> j < |src| && (!readopen || killed)
      ensures wakesReaders <==> !end.WriteFailed?
    {
      hide Slot, Wrap, WriteTo;
      ghost var q := State();
      assert q.stored + src[i..i] == q.stored;
      j := i;
      while j < |src|
        invariant Valid() && i <= j <= |src| && State() == q.(stored := q.stored + src[i..j])
      {
        var full := Full();
        if full { break; }
        Put(src[j]);
        assert src[i..j + 1] == src[i..j] + [src[j]];
        j := j + 1;
      }
      WroteUpTo(q, src, i, j, killed);
      if j < |src| && (!readopen || killed) { return j, WriteFailed, false; }
      return j, if j < |src| then WriterSleeps else WriteDone, true;
    }

    /** `p->nwrite == p->nread + PIPESIZE` */
    method Full() returns (full: bool)
      requires Valid()
      ensures full <==> Pending(State()) == PIPESIZE
    {
      Counters(|stored|, |delivered|);
      return nwrite == (nread + PIPESIZE) % UINT;
    }

    /** piperead of n bytes, until it returns or sleeps; it wakes the writers if it returns bytes. */
    method Read(n: int, killed: bool) returns (end: ReadEnd, wakesWriters: bool)
      requires Valid()
      modifies this`nread, this`delivered
      ensures Valid() && (State(), end) == ReadFrom(old(State()), n, killed)
      ensures end.Bytes? ==> |end.data| == Min(if n < 0 then 0 else n, |stored| - |old(delivered)|)
      ensures end.Bytes? ==> end.data == stored[|old(delivered)|..|old(delivered)| + |end.data|]
      ensures delivered == old(delivered) + if end.Bytes? then end.data else []
      ensures end.ReadFailed? <==> |stored| == |old(delivered)| && writeopen && killed
      ensures end.ReaderSleeps? <==> |stored| == |old(delivered)| && writeopen && !killed
      ensures wakesWriters <==> end.Bytes?
    {
      hide Slot, Wrap;
      Counters(|stored|, |delivered|);
      if nread == nwrite && writeopen {
        return if killed then ReadFailed else ReaderSleeps, false;
      }
      var i, addr := 0, [];
      while i < n
        invariant Valid() && 0 <= i && (n < 0 ==> i == 0) && (0 <= n ==> i <= n) && |addr| == i
        invariant delivered == old(delivered) + addr
      {
        Counters(|stored|, |delivered|);
        if nread == nwrite { break; }
        var b := Get();
        addr := addr + [b];
        i := i + 1;
      }
      return Bytes(addr), true;
    }

    /** pipeclose; `last` if the pipe is to be freed. */
    method Close(writable: bool) returns (last: bool)
      requires Valid()
      modifies this`readopen, this`writeopen
      ensures Valid() && stored == old(stored) && delivered == old(delivered)
      ensures writeopen == (old(writeopen) && !writable) && readopen == (old(readopen) && writable)
      ensures last <==> !readopen && !writeopen
    {
      if writable { writeopen := false; } else { readopen := false; }
      return !readopen && !writeopen;
    }
  }

  /** Having stored all, or as much as fits, is what pipewrite does. */
  lemma WroteUpTo(q: Queue, src: seq<byte>, i: nat, j: nat, killed: bool)
    requires Fifo(q) && i <= j <= |src|
    requires var q' := q.(stored := q.stored + src[i..j]); Fifo(q') && (j == |src| || Pending(q') == PIPESIZE)
    ensures WriteTo(q, src, i, killed) == (q.(stored := q.stored + src[i..j]), j,
      if j == |src| then WriteDone else if !q.readopen || killed then WriteFailed else WriterSleeps)
  {
  }

  /** A counter as 32 bits hold it. */
  function Wrap(n: nat): nat {
    n % UINT
  }

  /** Where byte n of the stream lies in the ring. */
  function Slot(n: nat): (i: nat)
    ensures i < PIPESIZE
  {
    n % PIPESIZE
  }

  /** The tests on the wrapped counters say what they say on the true ones, as 512 divides 2^32. */
  lemma Counters(stored: nat, delivered: nat)
    requires delivered <= stored <= delivered + PIPESIZE
    ensures Wrap(stored) == (Wrap(delivered) + PIPESIZE) % UINT <==> stored == delivered + PIPESIZE
    ensures Wrap(delivered) == Wrap(stored) <==> stored == delivered
    ensures Wrap(stored) % PIPESIZE == Slot(stored) && Wrap(delivered) % PIPESIZE == Slot(delivered)
    ensures (Wrap(stored) + 1) % UINT == Wrap(stored + 1) && (Wrap(delivered) + 1) % UINT == Wrap(delivered + 1)
  {
    WrapAdd(delivered, stored - delivered);
    WrapAdd(stored, 1);
    WrapAdd(delivered, 1);
    WrapSlot(stored);
    WrapSlot(delivered);
  }

  lemma WrapAdd(n: nat, d: nat)
    requires d <= PIPESIZE
    ensures Wrap(n + d) == if Wrap(n) + d < UINT then Wrap(n) + d else Wrap(n) + d - UINT
  {
  }

  lemma WrapSlot(n: nat)
    ensures Wrap(n) % PIPESIZE == Slot(n)
  {
  }

  lemma Apart(k: nat, m: nat)
    requires k < m < k + PIPESIZE
    ensures Slot(k) != Slot(m)
  {
  }
}
