/** What proc.c's multi-level feedback queue and scheduler lock mean, on one CPU. A pass of the
    scheduler chooses a process, lets it act, and does its bookkeeping. */
module SchedSpec {
  import opened Basics

  const NPROC: nat := 64
  const BOOST: int := 100
  const PASSWORD: int := 2019030991
  const HALF: nat := 0x8000_0000

  datatype State = UNUSED | EMBRYO | SLEEPING | RUNNABLE | RUNNING | ZOMBIE

  datatype Proc = Proc(state: State, pid: int, chan: nat, q_lv: int, tq: int, priority: int, time: int)

  /** ptable, ticks and nextpid; `grants` counts the successful calls of schedulerLock. */
  datatype Sched = Sched(procs: seq<Proc>, ub: int, isLock: int, lockProcess: Option<nat>, ticks: nat, nextpid: int,
    grants: nat)

  /** The unsigned clock, stored in the signed field `time`. */
  function Stamp(ticks: nat): int {
    if ticks < HALF then ticks else ticks - 2 * HALF
  }

  // ---- the choice ----

  /** a is to run before b: lower queue first, then priority in L2, then the earlier time. */
  predicate Before(a: Proc, b: Proc) {
    a.q_lv < b.q_lv ||
    (a.q_lv == b.q_lv && if a.q_lv == 2 then a.priority < b.priority || (a.priority == b.priority && a.time < b.time)
                         else a.time < b.time)
  }

  /** The leftmost of the runnable processes among the first n that none is to run before. */
  predicate Best(procs: seq<Proc>, n: nat, i: nat) {
    && i < n <= |procs| && procs[i].state == RUNNABLE
    && forall j :: 0 <= j < n && procs[j].state == RUNNABLE && j != i ==>
      !Before(procs[j], procs[i]) && (j < i ==> Before(procs[i], procs[j]))
  }

  predicate NoneRunnable(procs: seq<Proc>, n: nat) {
    n <= |procs| && forall j :: 0 <= j < n ==> procs[j].state != RUNNABLE
  }

  predicate IsChoice(s: Sched, c: Option<nat>) {
    if s.isLock != 0 && s.lockProcess.Some? && s.lockProcess.value < |s.procs| then
      c == if s.procs[s.lockProcess.value].state == RUNNABLE then s.lockProcess else None
    else if c.Some? then Best(s.procs, |s.procs|, c.value) else NoneRunnable(s.procs, |s.procs|)
  }

  lemma OneChoice(s: Sched, c: Option<nat>, d: Option<nat>)
    requires IsChoice(s, c) && IsChoice(s, d)
    ensures c == d
  {
  }

  // ---- what the operations do ----

  function SetProc(s: Sched, i: nat, p: Proc): Sched
    requires i < |s.procs|
  {
    s.(procs := s.procs[i := p])
  }

  /** The first slot with this pid, or |procs|. */
  function {:induction false} FirstPid(procs: seq<Proc>, pid: int): (k: nat)
    ensures k <= |procs| && (k < |procs| ==> procs[k].pid == pid)
    ensures forall j :: 0 <= j < k ==> procs[j].pid != pid
  {
    if procs == [] || procs[0].pid == pid then 0 else FirstPid(procs[1..], pid) + 1
  }

  /** The first slot in this state, or |procs|. */
  function {:induction false} FirstIn(procs: seq<Proc>, state: State): (k: nat)
    ensures k <= |procs| && (k < |procs| ==> procs[k].state == state)
    ensures forall j :: 0 <= j < k ==> procs[j].state != state
  {
    if procs == [] || procs[0].state == state then 0 else FirstIn(procs[1..], state) + 1
  }

  function Clamp(v: int): (p: int)
    ensures 0 <= p <= 3 && (0 <= v <= 3 ==> p == v)
  {
    if v < 0 then 0 else if v > 3 then 3 else v
  }

  function Prioritized(s: Sched, pid: int, v: int): Sched {
    var k := FirstPid(s.procs, pid);
    if k < |s.procs| then SetProc(s, k, s.procs[k].(priority := Clamp(v))) else s
  }

  function Allocated(s: Sched): Sched {
    var k := FirstIn(s.procs, UNUSED);
    if k < |s.procs| then
      SetProc(s, k,
        s.procs[k].(state := EMBRYO, pid := s.nextpid, q_lv := 0, tq := 0, priority := 3, time := Stamp(s.ticks)))
        .(nextpid := s.nextpid + 1)
    else s
  }

  function Forked(s: Sched, i: nat): Sched
    requires i < |s.procs|
  {
    SetProc(s, i, s.procs[i].(state := RUNNABLE, q_lv := 0, tq := 0, priority := 3, time := Stamp(s.ticks)))
  }

  function Wake(p: Proc, chan: nat): Proc {
    if p.state == SLEEPING && p.chan == chan then p.(state := RUNNABLE) else p
  }

  function Woken(s: Sched, chan: nat): Sched {
    s.(procs := seq(|s.procs|, i requires 0 <= i < |s.procs| => Wake(s.procs[i], chan)))
  }

  function Killed(s: Sched, pid: int): Sched {
    var k := FirstPid(s.procs, pid);
    if k < |s.procs| && s.procs[k].state == SLEEPING then SetProc(s, k, s.procs[k].(state := RUNNABLE)) else s
  }

  function Locked(s: Sched, c: nat, password: int): Sched
    requires c < |s.procs|
  {
    if s.procs[c].state == SLEEPING || s.isLock == 1 || password != PASSWORD then s
    else s.(ub := 0, isLock := 1, lockProcess := Some(c), grants := s.grants + 1)
  }

  function Unlocked(s: Sched, password: int): Sched {
    if s.isLock == 0 || password != PASSWORD || s.lockProcess.None? || s.lockProcess.value >= |s.procs| then s
    else
      var h := s.lockProcess.value;
      SetProc(s, h, s.procs[h].(q_lv := 0, tq := 0, priority := 3, time := -1)).(isLock := 0, lockProcess := None)
  }

  /** The timer's accounting for the running process. */
  function Charged(s: Sched, c: nat): Sched
    requires c < |s.procs|
  {
    var p := s.procs[c].(tq := s.procs[c].tq + 1);
    var s1 := SetProc(s, c, p);
    if p.tq != p.q_lv * 2 + 4 then s1
    else
      var s2 := if p.q_lv == 2 then Prioritized(s1, p.pid, p.priority - 1) else SetProc(s1, c, p.(q_lv := p.q_lv + 1));
      SetProc(s2, c, s2.procs[c].(tq := 0))
  }

  /** sys_yield: down to L2 with a new quantum. */
  function Yielding(s: Sched, c: nat): Sched
    requires c < |s.procs|
  {
    SetProc(s, c, s.procs[c].(q_lv := 2, tq := 0, time := Stamp(s.ticks), priority := 3))
  }

  function Boost(p: Proc): Proc {
    p.(tq := 0, q_lv := 0, priority := 3, time := 0)
  }

  function Boosted(s: Sched): Sched {
    s.(procs := seq(|s.procs|, i requires 0 <= i < |s.procs| => Boost(s.procs[i])))
  }

  // ---- a pass ----

  /** What the running process, or an interrupt, may do. A child is made in two steps, so it can be
      an EMBRYO while others run. */
  datatype Event = Tick | Wakeup(chan: nat) | Kill(pid: int)
    | Allocate | Fork(slot: nat) | ForkFailed(slot: nat) | Reap(slot: nat)
                 | SetPriority(pid: int, v: int) | Lock(password: int) | Unlock(password: int)

  /** How its turn ends: the timer, sys_yield, sleep or exit. */
  datatype End = Preempted | YieldCall | Sleep(chan: nat) | Exit

  /** One pass: interrupts while nothing runs, the choice, the chosen process's turn. */
  datatype Pass = Pass(idle: seq<Event>, choice: Option<nat>, turn: seq<Event>, end: End)

  function Interrupt(s: Sched, e: Event): Sched {
    match e
    case Tick => s.(ticks := (s.ticks + 1) % (2 * HALF))
    case Wakeup(chan) => Woken(s, chan)
    case _ => s
  }

  function Do(s: Sched, c: nat, e: Event): Sched
    requires c < |s.procs|
  {
    match e
    case Tick => Interrupt(s, e)
    case Wakeup(_) => Interrupt(s, e)
    case Kill(pid) => Killed(s, pid)
    case Allocate => Allocated(s)
    case Fork(i) => if i < |s.procs| && s.procs[i].state == EMBRYO then Forked(s, i) else s
    case ForkFailed(i) => if i < |s.procs| && s.procs[i].state == EMBRYO
        then SetProc(s, i, s.procs[i].(state := UNUSED))
        else s
    case Reap(i) => if i < |s.procs| && s.procs[i].state == ZOMBIE
        then SetProc(s, i, s.procs[i].(state := UNUSED, pid := 0))
        else s
    case SetPriority(pid, v) => Prioritized(s, pid, v)
    case Lock(password) => Locked(s, c, password)
    case Unlock(password) => Unlocked(s, password)
  }

  function EndTurn(s: Sched, c: nat, end: End): Sched
    requires c < |s.procs|
  {
    match end
    case Preempted => var t := Charged(s, c); SetProc(t, c, t.procs[c].(state := RUNNABLE))
    case YieldCall => var t := Yielding(s, c); SetProc(t, c, t.procs[c].(state := RUNNABLE))
    case Sleep(chan) => SetProc(s, c, s.procs[c].(state := SLEEPING, chan := chan))
    case Exit => SetProc(s, c, s.procs[c].(state := ZOMBIE))
  }

  function Idle(s: Sched, es: seq<Event>): (t: Sched)
    ensures |t.procs| == |s.procs|
  {
    if es == [] then s else Interrupt(Idle(s, es[..|es| - 1]), es[|es| - 1])
  }

  function Turn(s: Sched, c: nat, es: seq<Event>): (t: Sched)
    requires c < |s.procs|
    ensures |t.procs| == |s.procs|
  {
    if es == [] then s else Do(Turn(s, c, es[..|es| - 1]), c, es[|es| - 1])
  }

  function Dispatched(s: Sched, c: nat): Sched
    requires c < |s.procs|
  {
    SetProc(s, c, s.procs[c].(state := RUNNING))
  }

  function Ran(s: Sched, c: nat, es: seq<Event>, end: End): Sched
    requires c < |s.procs|
  {
    var t := EndTurn(Turn(Dispatched(s, c), c, es), c, end);
    SetProc(t, c, t.procs[c].(time := Stamp(t.ticks)))
  }

  /** The scheduler's bookkeeping at the end of a pass. */
  function Bookkept(s: Sched): Sched {
    var s1 := if s.isLock == 1 && s.lockProcess.Some? && s.lockProcess.value < |s.procs|
      && s.procs[s.lockProcess.value].state == ZOMBIE
              then Unlocked(s, PASSWORD) else s;
    var s2 := s1.(ub := s1.ub + 1);
    if s2.ub < BOOST then s2
    else
      var s3 := Boosted(s2);
      var s4 := if s3.isLock == 1 then Unlocked(s3, PASSWORD) else s3;
      s4.(ub := 0)
  }

  predicate Legal(s: Sched, p: Pass) {
    IsChoice(Idle(s, p.idle), p.choice)
  }

  function After(s: Sched, p: Pass): Sched {
    var s1 := Idle(s, p.idle);
    Bookkept(if p.choice.Some? && p.choice.value < |s1.procs| then Ran(s1, p.choice.value, p.turn, p.end) else s1)
  }

  function AfterAll(s: Sched, ps: seq<Pass>): Sched
    decreases |ps|
  {
    if ps == [] then s else AfterAll(After(s, ps[0]), ps[1..])
  }

  predicate AllLegal(s: Sched, ps: seq<Pass>)
    decreases |ps|
  {
    ps == [] || (Legal(s, ps[0]) && AllLegal(After(s, ps[0]), ps[1..]))
  }

  /** The zeroed table the kernel starts with. */
  function Initial(): Sched {
    Sched(seq(NPROC, _ => Proc(UNUSED, 0, 0, 0, 0, 0, 0)), 0, 0, None, 0, 1, 0)
  }

  /** userinit: the first process, before the scheduler starts. */
  function Booted(): Sched {
    var s, k := Allocated(Initial()), FirstIn(Initial().procs, UNUSED);
    if k < |s.procs| then SetProc(s, k, s.procs[k].(state := RUNNABLE)) else s
  }

  // ---- invariants ----

  predicate InBounds(p: Proc) {
    0 <= p.q_lv <= 2 && 0 <= p.tq < 2 * p.q_lv + 4 && 0 <= p.priority <= 3
  }

  /** No two slots share a pid other than 0, and the next pid is new. */
  predicate Pids(s: Sched) {
    && s.nextpid > 0
    && (forall i :: 0 <= i < |s.procs| ==> 0 <= s.procs[i].pid < s.nextpid)
    && (forall i :: 0 <= i < |s.procs| && s.procs[i].pid == 0 ==> s.procs[i].state == UNUSED)
    && forall i, j :: 0 <= i < j < |s.procs| && s.procs[i].pid == s.procs[j].pid ==> s.procs[i].pid == 0
  }

  predicate Basic(s: Sched) {
    && |s.procs| == NPROC && 0 <= s.ub < BOOST && s.ticks < 2 * HALF
    && (forall i :: 0 <= i < NPROC ==> InBounds(s.procs[i]))
    && (s.isLock == 0 || s.isLock == 1) && (s.isLock == 1 <==> s.lockProcess.Some?)
    && (s.lockProcess.Some? ==> s.lockProcess.value < NPROC)
  }

  /** Between passes: nothing runs, and the holder of the scheduler lock is alive. */
  predicate Inv(s: Sched) {
    && Basic(s) && Pids(s)
    && (forall i :: 0 <= i < NPROC ==> s.procs[i].state != RUNNING)
    && (s.lockProcess.Some? ==> s.procs[s.lockProcess.value].state in {SLEEPING, RUNNABLE})
  }

  /** While c runs: it alone runs, and nobody else holds the scheduler lock. */
  predicate InTurn(s: Sched, c: nat) {
    && Basic(s) && Pids(s) && c < NPROC
    && (forall i :: 0 <= i < NPROC ==> (s.procs[i].state == RUNNING <==> i == c))
    && (s.lockProcess.Some? ==> s.lockProcess.value == c)
  }
}
