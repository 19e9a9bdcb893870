/** Properties of every run of the scheduler of proc.c: state bounds, the scheduler lock, no starvation. */
module SchedRuns {
  import opened Basics
  import opened SchedSpec

  lemma InterruptKeeps(s: Sched, e: Event)
    requires Inv(s)
    ensures var t := Interrupt(s, e);
      && Inv(t) && t == s.(procs := t.procs, ticks := t.ticks)
      && forall i :: 0 <= i < NPROC ==> SameBut(s.procs[i], t.procs[i])
  {
    assert forall i :: 0 <= i < NPROC ==> InBounds(s.procs[i].(state := RUNNABLE));
    hide InBounds;
  }

  lemma {:induction false} IdleKeeps(s: Sched, es: seq<Event>)
    requires Inv(s)
    ensures var t := Idle(s, es);
      && Inv(t) && t == s.(procs := t.procs, ticks := t.ticks)
      && |s.procs| == NPROC && forall i :: 0 <= i < NPROC ==> SameBut(s.procs[i], t.procs[i])
  {
    if es != [] {
      IdleKeeps(s, es[..|es| - 1]);
      hide Inv, Interrupt;
      InterruptKeeps(Idle(s, es[..|es| - 1]), es[|es| - 1]);
    }
  }

  /** At most woken up. */
  predicate SameBut(p: Proc, q: Proc) {
    p == q || (p.state == SLEEPING && q == p.(state := RUNNABLE))
  }

  lemma TurnStarts(s: Sched, c: nat)
    requires Inv(s) && IsChoice(s, Some(c))
    ensures c < NPROC == |s.procs| && InTurn(Dispatched(s, c), c)
  {
  }

  /** p may replace the occupant of slot i. */
  predicate Fits(s: Sched, i: nat, p: Proc) {
    && i < |s.procs| && InBounds(p)
    && (p.pid == s.procs[i].pid || p.pid == 0)
    && (p.pid == 0 ==> p.state == UNUSED)
  }

  lemma SetKeeps(s: Sched, i: nat, p: Proc)
    requires Basic(s) && Pids(s) && Fits(s, i, p)
    ensures Basic(SetProc(s, i, p)) && Pids(SetProc(s, i, p))
  {
  }

  lemma SetInTurn(s: Sched, c: nat, i: nat, p: Proc)
    requires InTurn(s, c) && Fits(s, i, p) && (p.state == RUNNING <==> i == c)
    ensures InTurn(SetProc(s, i, p), c)
  {
  }

  lemma Occupants(s: Sched, c: nat)
    requires InTurn(s, c)
    ensures |s.procs| == NPROC && c < NPROC
    ensures forall i :: 0 <= i < NPROC ==> Fits(s, i, s.procs[i]) && (s.procs[i].state == RUNNING <==> i == c)
  {
  }

  lemma DoKeeps(s: Sched, c: nat, e: Event)
    requires InTurn(s, c)
    ensures InTurn(Do(s, c, e), c)
  {
    Occupants(s, c);
    hide InTurn;
    match e
    case Tick => TickKeeps(s, c);
    case Wakeup(chan) => WakeKeeps(s, c, chan);
    case Allocate => AllocateInTurn(s, c);
    case Lock(password) => LockKeeps(s, c, password);
    case Unlock(password) => UnlockKeeps(s, c, password);
    case _ =>
      var k := match e case Kill(pid) => FirstPid(s.procs, pid)
                       case SetPriority(pid, _) => FirstPid(s.procs, pid)
                       case Fork(i) => i case ForkFailed(i) => i case Reap(i) => i case _ => 0;
      var t := Do(s, c, e);
      if k < NPROC && t != s { SetInTurn(s, c, k, t.procs[k]); }
  }

  lemma TickKeeps(s: Sched, c: nat)
    requires InTurn(s, c)
    ensures InTurn(Interrupt(s, Tick), c)
  {
  }

  lemma AllocateInTurn(s: Sched, c: nat)
    requires InTurn(s, c)
    ensures InTurn(Allocated(s), c)
  {
  }

  lemma LockKeeps(s: Sched, c: nat, password: int)
    requires InTurn(s, c)
    ensures c < |s.procs| && InTurn(Locked(s, c, password), c)
  {
  }

  lemma WakeKeeps(s: Sched, c: nat, chan: nat)
    requires InTurn(s, c)
    ensures InTurn(Woken(s, chan), c)
  {
  }

  lemma UnlockKeeps(s: Sched, c: nat, password: int)
    requires InTurn(s, c)
    ensures InTurn(Unlocked(s, password), c)
  {
  }

  lemma {:induction false} TurnKeeps(s: Sched, c: nat, es: seq<Event>)
    requires InTurn(s, c)
    ensures InTurn(Turn(s, c, es), c)
  {
    if es != [] {
      TurnKeeps(s, c, es[..|es| - 1]);
      DoKeeps(Turn(s, c, es[..|es| - 1]), c, es[|es| - 1]);
    }
  }

  /** After a turn the holder of the scheduler lock may also be a zombie. */
  predicate Ended(s: Sched) {
    && Basic(s) && Pids(s)
    && (forall i :: 0 <= i < NPROC ==> s.procs[i].state != RUNNING)
    && (s.lockProcess.Some? ==> s.procs[s.lockProcess.value].state in {SLEEPING, RUNNABLE, ZOMBIE})
  }

  /** A timer tick touches the running process only, though it looks the process up by pid: one more
      tick used, or the quantum over and the process a level down, in L2 one priority lower. */
  lemma ChargedAlone(s: Sched, c: nat)
    requires InTurn(s, c)
    ensures c < |s.procs|
    ensures var p := s.procs[c];
            var q := if p.tq + 1 < 2 * p.q_lv + 4 then p.(tq := p.tq + 1)
                     else if p.q_lv < 2 then p.(q_lv := p.q_lv + 1, tq := 0)
                     else p.(priority := if p.priority == 0 then 0 else p.priority - 1, tq := 0);
            Charged(s, c) == SetProc(s, c, q) && InBounds(q)
  {
  }

  lemma EndKeeps(s: Sched, c: nat, end: End)
    requires InTurn(s, c)
    ensures |s.procs| == NPROC && c < NPROC && Ended(EndTurn(s, c, end))
  {
    Occupants(s, c);
    ChargedAlone(s, c);
    var t := EndTurn(s, c, end);
    assert t == SetProc(s, c, t.procs[c]);
    SetKeeps(s, c, t.procs[c]);
    hide Basic, Pids, InBounds;
  }

  lemma StampKeeps(s: Sched, c: nat, time: int)
    requires Ended(s) && c < NPROC
    ensures c < |s.procs| && Ended(SetProc(s, c, s.procs[c].(time := time)))
  {
  }

  lemma RanKeeps(s: Sched, c: nat, es: seq<Event>, end: End)
    requires Inv(s) && IsChoice(s, Some(c))
    ensures c < |s.procs| && Ended(Ran(s, c, es, end))
  {
    TurnStarts(s, c);
    hide InTurn, Inv, Ended, IsChoice, Turn, EndTurn;
    TurnKeeps(Dispatched(s, c), c, es);
    EndKeeps(Turn(Dispatched(s, c), c, es), c, end);
    var t := EndTurn(Turn(Dispatched(s, c), c, es), c, end);
    StampKeeps(t, c, Stamp(t.ticks));
  }

  lemma BookkeepingKeeps(s: Sched)
    requires Ended(s)
    ensures Inv(Bookkept(s))
  {
  }

  /** Every pass keeps the level, quantum and priority of every slot in bounds, and the scheduler
      lock held exactly if it has a holder, who is neither unused, in the making, nor dead. */
  lemma PassKeeps(s: Sched, p: Pass)
    requires Inv(s) && Legal(s, p)
    ensures Inv(After(s, p))
  {
    IdleKeeps(s, p.idle);
    if p.choice.Some? { RanKeeps(Idle(s, p.idle), p.choice.value, p.turn, p.end); }
    hide Inv, Ended;
    BookkeepingKeeps(
      if p.choice.Some? && p.choice.value < NPROC then Ran(Idle(s, p.idle), p.choice.value, p.turn, p.end)
      else Idle(s, p.idle));
  }

  lemma {:induction false} RunKeeps(s: Sched, ps: seq<Pass>)
    requires Inv(s) && AllLegal(s, ps)
    ensures Inv(AfterAll(s, ps))
    decreases |ps|
  {
    if ps != [] {
      PassKeeps(s, ps[0]);
      RunKeeps(After(s, ps[0]), ps[1..]);
    }
  }

  /** The scheduler starts with the first process runnable in slot 0 and nothing else. */
  lemma FirstProcess()
    ensures Inv(Booted()) && Booted().isLock == 0
    ensures Booted().procs == Initial().procs[0 := Proc(RUNNABLE, 1, 0, 0, 0, 3, 0)]
    ensures Booted() == Initial().(procs := Booted().procs, nextpid := 2)
  {
    var s := Initial();
    assert s.procs[0].state == UNUSED && FirstIn(s.procs, UNUSED) == 0 && Stamp(0) == 0;
    hide FirstIn;
    assert Booted().procs == s.procs[0 := Proc(RUNNABLE, 1, 0, 0, 0, 3, 0)];
  }

  /** s is a state between two passes of some run from boot. */
  ghost predicate Reached(s: Sched) {
    exists ps :: AllLegal(Booted(), ps) && AfterAll(Booted(), ps) == s
  }

  /** Every state that a run of the kernel reaches. */
  lemma Reachable(s: Sched)
    requires Reached(s)
    ensures Inv(s)
  {
    var ps :| AllLegal(Booted(), ps) && AfterAll(Booted(), ps) == s;
    FirstProcess();
    RunKeeps(Booted(), ps);
  }

  lemma {:induction false} RunsCompose(s: Sched, ps: seq<Pass>, qs: seq<Pass>)
    requires AllLegal(s, ps) && AllLegal(AfterAll(s, ps), qs)
    ensures AllLegal(s, ps + qs) && AfterAll(s, ps + qs) == AfterAll(AfterAll(s, ps), qs)
    decreases |ps|
  {
    hide After, Legal;
    if ps == [] {
      assert ps + qs == qs;
    } else {
      RunsCompose(After(s, ps[0]), ps[1..], qs);
      assert (ps + qs)[1..] == ps[1..] + qs;
    }
  }

  /** A run goes on from where another has come to. */
  lemma ReachedOn(s: Sched, ps: seq<Pass>)
    requires Reached(s) && AllLegal(s, ps)
    ensures Reached(AfterAll(s, ps))
  {
    var qs :| AllLegal(Booted(), qs) && AfterAll(Booted(), qs) == s;
    RunsCompose(Booted(), qs, ps);
    assert AllLegal(Booted(), qs + ps);
  }

  // ---- what a pass does ----

  /** With the scheduler unlocked, the process chosen is the runnable one of the lowest level, in L2 of
      the lowest priority, then of the earliest time, then of the first slot. */
  lemma ChoiceMeans(s: Sched, c: nat)
    requires Inv(s) && s.isLock == 0
    ensures IsChoice(s, Some(c)) <==>
      && c < |s.procs| && s.procs[c].state == RUNNABLE
      && forall j :: 0 <= j < |s.procs| && s.procs[j].state == RUNNABLE ==>
           var a, b := s.procs[c], s.procs[j];
           if a.q_lv != b.q_lv then a.q_lv < b.q_lv
           else if a.q_lv == 2 && a.priority != b.priority then a.priority < b.priority
           else if a.time != b.time then a.time < b.time
           else c <= j
  {
  }

  /** A process that yields goes down to L2 with a new quantum, the least urgent priority and the
      clock; it does not run next while some process of L0 or L1 is runnable. */
  lemma YieldStepsDown(s: Sched, q: Pass, p: Pass)
    requires Inv(s) && Legal(s, q) && q.choice.Some? && q.choice.value < |s.procs| && Legal(After(s, q), p)
    requires q.end == YieldCall && SwitchBack(s, q).isLock == 0 && SwitchBack(s, q).ub + 1 < BOOST
    ensures var c, procs := q.choice.value, Idle(After(s, q), p.idle).procs;
      && |procs| == NPROC && procs[c].state == RUNNABLE
      && procs[c].q_lv == 2 && procs[c].tq == 0 && procs[c].priority == 3
      && procs[c].time == Stamp(SwitchBack(s, q).ticks)
      && ((exists j :: 0 <= j < NPROC && procs[j].state == RUNNABLE && procs[j].q_lv < 2) ==> p.choice != Some(c))
  {
    var c, t, v := q.choice.value, After(s, q), SwitchBack(s, q);
    SwitchBackKeeps(s, q);
    PassKeeps(s, q);
    IdleKeeps(t, p.idle);
    assert t == SetProc(v, c, v.procs[c].(time := Stamp(v.ticks))).(ub := v.ub + 1);
    assert v.procs[c].q_lv == 2 && v.procs[c].tq == 0 && v.procs[c].priority == 3 && v.procs[c].state == RUNNABLE;
    var w := Idle(t, p.idle);
    assert SameBut(t.procs[c], w.procs[c]);
    hide Inv, Ended, Idle, After, SwitchBack;
  }

  /** These events wake the process x from its sleep: a wakeup of its channel, or its being killed. */
  predicate Awakens(es: seq<Event>, x: Proc) {
    Wakeup(x.chan) in es || Kill(x.pid) in es
  }

  lemma DoAwakens(s: Sched, c: nat, e: Event, i: nat)
    requires InTurn(s, c) && i < |s.procs| && i != c && s.procs[i].state in {SLEEPING, RUNNABLE}
    ensures |Do(s, c, e).procs| == |s.procs|
    ensures var x, y := s.procs[i], Do(s, c, e).procs[i];
      && y.pid == x.pid && y.chan == x.chan
      && y.state == if x.state == SLEEPING && (e == Wakeup(x.chan) || e == Kill(x.pid)) then RUNNABLE else x.state
  {
  }

  lemma {:induction false} TurnAwakens(s: Sched, c: nat, es: seq<Event>, i: nat)
    requires InTurn(s, c) && i < |s.procs| && i != c && s.procs[i].state in {SLEEPING, RUNNABLE}
    ensures c < |s.procs| && var x, y := s.procs[i], Turn(s, c, es).procs[i];
      && y.pid == x.pid && y.chan == x.chan
      && y.state == if x.state == SLEEPING && Awakens(es, x) then RUNNABLE else x.state
  {
    if es != [] {
      var n := |es| - 1;
      TurnAwakens(s, c, es[..n], i);
      TurnKeeps(s, c, es[..n]);
      TurnLast(s, c, es);
      assert es == es[..n] + [es[n]];
      hide InTurn, Turn, Do;
      DoAwakens(Turn(s, c, es[..n]), c, es[n], i);
    }
  }

  lemma {:induction false} IdleAwakens(s: Sched, es: seq<Event>, i: nat)
    requires Inv(s) && i < |s.procs| && s.procs[i].state in {SLEEPING, RUNNABLE}
    ensures var x, y := s.procs[i], Idle(s, es).procs[i];
      && y.pid == x.pid && y.chan == x.chan
      && y.state == if x.state == SLEEPING && Wakeup(x.chan) in es then RUNNABLE else x.state
  {
    if es != [] {
      var n := |es| - 1;
      IdleAwakens(s, es[..n], i);
      assert es == es[..n] + [es[n]];
    }
  }

  /** How a turn ends concerns its own process alone. */
  lemma RanAlone(s: Sched, c: nat, es: seq<Event>, end: End)
    requires Inv(s) && IsChoice(s, Some(c))
    ensures c < |s.procs| == NPROC && InTurn(Dispatched(s, c), c) && Ended(Ran(s, c, es, end))
    ensures var t, u := Ran(s, c, es, end), Turn(Dispatched(s, c), c, es);
      && |t.procs| == NPROC && t == SetProc(u, c, t.procs[c]) && InTurn(u, c)
      && (end != Exit ==> t.procs[c].state in {SLEEPING, RUNNABLE})
  {
    TurnStarts(s, c);
    TurnKeeps(Dispatched(s, c), c, es);
    RanKeeps(s, c, es, end);
    ChargedAlone(Turn(Dispatched(s, c), c, es), c);
    hide Inv, InTurn, Ended, Turn, Charged, InBounds;
  }

  lemma BookkeepingWakesNobody(s: Sched)
    requires Ended(s)
    ensures |Bookkept(s).procs| == |s.procs| == NPROC
    ensures forall i :: 0 <= i < NPROC ==>
      var x, y := s.procs[i], Bookkept(s).procs[i]; y.state == x.state && y.pid == x.pid && y.chan == x.chan
  {
  }

  /** A sleeper that is not chosen is runnable after the pass exactly if somebody has woken its
      channel or killed it; otherwise it sleeps on, on the same channel. */
  lemma SleepersWake(s: Sched, p: Pass, i: nat)
    requires Inv(s) && Legal(s, p) && i < NPROC && s.procs[i].state == SLEEPING && p.choice != Some(i)
    ensures |After(s, p).procs| == NPROC
    ensures var x, y := s.procs[i], After(s, p).procs[i];
      && y.pid == x.pid && y.chan == x.chan
      && y.state == if Wakeup(x.chan) in p.idle || (p.choice.Some? && Awakens(p.turn, x)) then RUNNABLE else SLEEPING
  {
    IdleKeeps(s, p.idle);
    IdleAwakens(s, p.idle, i);
    var s1 := Idle(s, p.idle);
    var u := s1;
    hide InTurn, Turn, Idle, Ran, Awakens, Bookkept, Ended;
    if p.choice.Some? {
      var c := p.choice.value;
      RanAlone(s1, c, p.turn, p.end);
      TurnAwakens(Dispatched(s1, c), c, p.turn, i);
      u := Ran(s1, c, p.turn, p.end);
    } else {
      IdleEnds(s1);
    }
    hide Inv;
    BookkeepingWakesNobody(u);
  }

  lemma IdleEnds(s: Sched)
    requires Inv(s)
    ensures Ended(s)
  {
  }

  lemma {:induction false} TurnCounts(s: Sched, c: nat, es: seq<Event>)
    requires InTurn(s, c) && Lock(PASSWORD) !in es
    ensures c < |s.procs| && Turn(s, c, es).ub == s.ub
  {
    if es != [] {
      TurnCounts(s, c, es[..|es| - 1]);
      TurnKeeps(s, c, es[..|es| - 1]);
      TurnLast(s, c, es);
    }
  }

  /** Every hundredth pass resets level, quantum and priority of every slot, and ends a lock. */
  lemma BoostResets(s: Sched, p: Pass)
    requires Inv(s) && Legal(s, p) && s.ub + 1 == BOOST && Lock(PASSWORD) !in p.turn
    ensures var t := After(s, p);
      && t.ub == 0 && t.isLock == 0 && |t.procs| == NPROC
      && forall i :: 0 <= i < NPROC ==>
           t.procs[i].q_lv == 0 && t.procs[i].tq == 0 && t.procs[i].priority == 3 && t.procs[i].time <= 0
  {
    IdleKeeps(s, p.idle);
    var u := Idle(s, p.idle);
    hide InTurn, Turn, Idle, Ran, Bookkept, Ended;
    if p.choice.Some? {
      var c := p.choice.value;
      RanAlone(u, c, p.turn, p.end);
      TurnCounts(Dispatched(u, c), c, p.turn);
      u := Ran(u, c, p.turn, p.end);
    } else {
      IdleEnds(u);
    }
    hide Inv;
    BoostedFields(u);
  }

  lemma BoostedFields(s: Sched)
    requires Ended(s) && s.ub + 1 == BOOST
    ensures var t := Bookkept(s);
      && t.ub == 0 && t.isLock == 0 && |t.procs| == NPROC
      && forall i :: 0 <= i < NPROC ==>
           t.procs[i].q_lv == 0 && t.procs[i].tq == 0 && t.procs[i].priority == 3 && t.procs[i].time <= 0
  {
  }

  /** A grant starts the count of passes anew: unless its holder gives the lock up or exits in the
      same turn, it holds it after the pass, with all but one of BOOST passes left. */
  lemma GrantRestarts(s: Sched, p: Pass, k: nat)
    requires Inv(s) && Legal(s, p) && p.choice.Some? && p.choice.value < |s.procs| && k < |p.turn| && p.end != Exit
    requires Turn(Dispatched(Idle(s, p.idle), p.choice.value), p.choice.value, p.turn[..k]).isLock == 0
    requires p.turn[k] == Lock(PASSWORD) && Unlock(PASSWORD) !in p.turn[k + 1..]
    ensures var t := After(s, p);
      t.isLock == 1 && t.lockProcess == p.choice && t.ub == 1 && t.grants > s.grants
  {
    IdleKeeps(s, p.idle);
    var s1, c := Idle(s, p.idle), p.choice.value;
    AfterRan(s, p);
    hide Inv, Turn, Idle, Ran, After, Bookkept, IsChoice;
    GrantInTurn(s1, c, p.turn, p.end, k);
    StillHeld(Ran(s1, c, p.turn, p.end), c);
  }

  lemma GrantInTurn(s: Sched, c: nat, es: seq<Event>, end: End, k: nat)
    requires Inv(s) && IsChoice(s, Some(c)) && c < |s.procs| && k < |es| && end != Exit
    requires Turn(Dispatched(s, c), c, es[..k]).isLock == 0
    requires es[k] == Lock(PASSWORD) && Unlock(PASSWORD) !in es[k + 1..]
    ensures var t := Ran(s, c, es, end);
      && t.isLock == 1 && t.lockProcess == Some(c) && t.ub == 0 && t.grants > s.grants
      && c < |t.procs| && t.procs[c].state != ZOMBIE
  {
    RanAlone(s, c, es, end);
    hide Inv, InTurn, Turn, Ran, Ended, IsChoice;
    HoldsOn(Dispatched(s, c), c, es, k, |es|);
    assert es[..|es|] == es;
  }

  lemma AfterRan(s: Sched, p: Pass)
    requires p.choice.Some? && p.choice.value < |s.procs|
    ensures After(s, p) == Bookkept(Ran(Idle(s, p.idle), p.choice.value, p.turn, p.end))
  {
  }

  lemma StillHeld(s: Sched, c: nat)
    requires s.isLock == 1 && s.lockProcess == Some(c) && s.ub == 0 && c < |s.procs| && s.procs[c].state != ZOMBIE
    ensures Bookkept(s) == s.(ub := 1)
  {
  }

  lemma {:induction false} HoldsOn(s: Sched, c: nat, es: seq<Event>, k: nat, n: nat)
    requires InTurn(s, c) && k < n <= |es| && es[k] == Lock(PASSWORD) && Unlock(PASSWORD) !in es[k + 1..]
    requires c < |s.procs| && Turn(s, c, es[..k]).isLock == 0
    ensures var t := Turn(s, c, es[..n]); t.isLock == 1 && t.lockProcess == Some(c) && t.ub == 0 && t.grants > s.grants
    decreases n
  {
    assert es[..n][..n - 1] == es[..n - 1] && es[..n][n - 1] == es[n - 1];
    TurnKeeps(s, c, es[..n - 1]);
    TurnLast(s, c, es[..n]);
    TurnFollows(s, c, es[..n - 1]);
    hide Turn, Do;
    DoHolds(Turn(s, c, es[..n - 1]), c, es[n - 1]);
    if n > k + 1 {
      HoldsOn(s, c, es, k, n - 1);
      assert es[n - 1] == es[k + 1..][n - k - 2];
    }
    hide InTurn;
  }

  lemma DoHolds(s: Sched, c: nat, e: Event)
    requires InTurn(s, c)
    ensures c < |s.procs|
    ensures s.isLock == 0 && e == Lock(PASSWORD) ==>
      var t := Do(s, c, e); t.isLock == 1 && t.lockProcess == Some(c) && t.ub == 0 && t.grants == s.grants + 1
    ensures s.isLock == 1 && s.lockProcess == Some(c) && e != Unlock(PASSWORD) ==>
      var t := Do(s, c, e); t.isLock == 1 && t.lockProcess == Some(c) && t.ub == s.ub && t.grants == s.grants
  {
  }

  // ---- no starvation ----

  /** Slot p becomes q while others run: a runnable process stays put, and a slot whose stamp
      changes gets one from the clock. */
  predicate Steady(p: Proc, q: Proc) {
    && (q.time == p.time || q.time >= 1)
    && (p.state == RUNNABLE ==> q.state == RUNNABLE && q.q_lv == p.q_lv && q.time == p.time)
  }

  function Ticks(es: seq<Event>): nat {
    if es == [] then 0 else Ticks(es[..|es| - 1]) + if es[|es| - 1] == Tick then 1 else 0
  }

  function AllTicks(ps: seq<Pass>): nat {
    if ps == [] then 0 else Ticks(ps[0].idle) + Ticks(ps[0].turn) + AllTicks(ps[1..])
  }

  /** The clock has started and stays below 2^31 for the whole run. */
  predicate Clock(s: Sched, ps: seq<Pass>) {
    1 <= s.ticks && s.ticks + AllTicks(ps) < HALF
  }

  predicate NoLock(ps: seq<Pass>) {
    forall k :: 0 <= k < |ps| ==> Lock(PASSWORD) !in ps[k].turn
  }

  lemma {:induction false} IdleSteady(s: Sched, es: seq<Event>)
    requires Inv(s) && s.ticks + Ticks(es) < HALF
    ensures var t := Idle(s, es);
      && s.ticks <= t.ticks <= s.ticks + Ticks(es)
      && |t.procs| == |s.procs| == NPROC && forall i :: 0 <= i < NPROC ==> Steady(s.procs[i], t.procs[i])
  {
    IdleKeeps(s, es);
    if es != [] { IdleSteady(s, es[..|es| - 1]); }
  }

  lemma DoSteady(s: Sched, c: nat, e: Event)
    requires InTurn(s, c) && s.isLock == 0 && e != Lock(PASSWORD) && 1 <= s.ticks
    requires s.ticks + (if e == Tick then 1 else 0) < HALF
    ensures var t := Do(s, c, e);
      && t.isLock == 0 && t.ub == s.ub && t.ticks == s.ticks + (if e == Tick then 1 else 0)
      && |t.procs| == |s.procs| == NPROC && forall i :: 0 <= i < NPROC ==> Steady(s.procs[i], t.procs[i])
  {
  }

  predicate AllSteady(s: Sched, t: Sched) {
    |t.procs| == |s.procs| == NPROC && forall i :: 0 <= i < NPROC ==> Steady(s.procs[i], t.procs[i])
  }

  lemma {:induction false} TurnSteady(s: Sched, c: nat, es: seq<Event>)
    requires InTurn(s, c) && s.isLock == 0 && Lock(PASSWORD) !in es && 1 <= s.ticks && s.ticks + Ticks(es) < HALF
    ensures |s.procs| == NPROC && c < NPROC
    ensures var t := Turn(s, c, es); t.isLock == 0 && t.ub == s.ub && t.ticks == s.ticks + Ticks(es) && AllSteady(s, t)
  {
    if es != [] {
      TurnSteady(s, c, es[..|es| - 1]);
      TurnKeeps(s, c, es[..|es| - 1]);
      hide InTurn, Turn;
      assert Turn(s, c, es) == Do(Turn(s, c, es[..|es| - 1]), c, es[|es| - 1]) by { TurnLast(s, c, es); }
      DoSteady(Turn(s, c, es[..|es| - 1]), c, es[|es| - 1]);
    }
  }

  lemma TurnLast(s: Sched, c: nat, es: seq<Event>)
    requires c < |s.procs| && es != []
    ensures Turn(s, c, es) == Do(Turn(s, c, es[..|es| - 1]), c, es[|es| - 1])
  {
  }

  /** A turn leaves every other slot steady, and stamps its own with the clock. */
  lemma RanSteady(s: Sched, c: nat, es: seq<Event>, end: End)
    requires Inv(s) && IsChoice(s, Some(c)) && s.isLock == 0 && Lock(PASSWORD) !in es && 1 <= s.ticks
    requires s.ticks + Ticks(es) < HALF
    ensures |s.procs| == NPROC && c < NPROC
    ensures var t := Ran(s, c, es, end);
      && t.isLock == 0 && t.ub == s.ub && t.ticks == s.ticks + Ticks(es) && |t.procs| == NPROC && t.procs[c].time >= 1
      && forall i :: 0 <= i < NPROC && i != c ==> Steady(s.procs[i], t.procs[i])
  {
    TurnStarts(s, c);
    TurnSteady(Dispatched(s, c), c, es);
    TurnKeeps(Dispatched(s, c), c, es);
    ChargedAlone(Turn(Dispatched(s, c), c, es), c);
    hide Inv, InTurn, IsChoice, Turn, Charged;
  }

  /** A pass without a boost, the scheduler lock free throughout. */
  lemma PassSteady(s: Sched, p: Pass)
    requires Inv(s) && Legal(s, p) && s.isLock == 0 && Lock(PASSWORD) !in p.turn && s.ub + 1 < BOOST
    requires 1 <= s.ticks && s.ticks + Ticks(p.idle) + Ticks(p.turn) < HALF
    ensures var t := After(s, p);
      && t.isLock == 0 && t.ub == s.ub + 1 && s.ticks <= t.ticks <= s.ticks + Ticks(p.idle) + Ticks(p.turn)
      && |t.procs| == |s.procs| == NPROC
      && (p.choice.Some? ==> p.choice.value < NPROC && t.procs[p.choice.value].time >= 1)
      && forall i :: 0 <= i < NPROC && p.choice != Some(i) ==> Steady(s.procs[i], t.procs[i])
  {
    IdleKeeps(s, p.idle);
    IdleSteady(s, p.idle);
    var s1 := Idle(s, p.idle);
    if p.choice.Some? { RanSteady(s1, p.choice.value, p.turn, p.end); }
    hide Inv, Legal, Ran, Idle;
  }

  /** The slots whose time is not after 0, as a boost leaves them all. */
  function Old(s: Sched): set<nat> {
    set i: nat | i < |s.procs| && s.procs[i].time <= 0
  }

  /** p is runnable in L0 since the last boost. */
  predicate Waiting(s: Sched, p: nat) {
    p < |s.procs| && s.procs[p].state == RUNNABLE && s.procs[p].q_lv == 0 && s.procs[p].time <= 0
  }

  lemma OldShrinks(s: Sched, p: Pass, w: nat)
    requires Inv(s) && Legal(s, p) && s.isLock == 0 && Lock(PASSWORD) !in p.turn && s.ub + 1 < BOOST
    requires 1 <= s.ticks && s.ticks + Ticks(p.idle) + Ticks(p.turn) < HALF
    requires Waiting(s, w) && p.choice != Some(w)
    ensures Waiting(After(s, p), w) && |Old(After(s, p))| < |Old(s)|
  {
    PassSteady(s, p);
    IdleKeeps(s, p.idle);
    var t := After(s, p);
    var s1 := Idle(s, p.idle);
    assert s1.procs[w].state == RUNNABLE && SameBut(s.procs[w], s1.procs[w]);
    var c := p.choice.value;
    assert SameBut(s.procs[c], s1.procs[c]) && !Before(s1.procs[w], s1.procs[c]);
    assert InBounds(s1.procs[c]);
    hide Inv, After, Idle;
    assert c in Old(s) && c !in Old(t);
    assert Old(t) <= Old(s) - {c};
    StrictlyFewer(Old(t), Old(s), c);
  }

  predicate Runs(ps: seq<Pass>, p: nat) {
    exists k :: 0 <= k < |ps| && ps[k].choice == Some(p)
  }

  lemma RunsLater(ps: seq<Pass>, p: nat)
    requires ps != [] && Runs(ps[1..], p)
    ensures Runs(ps, p)
  {
  }

  /** A process waiting since the boost is dispatched after at most as many passes as there are
      slots with a time not after 0. */
  lemma {:induction false} WaitsItsTurn(s: Sched, ps: seq<Pass>, w: nat)
    requires Inv(s) && AllLegal(s, ps) && s.isLock == 0 && NoLock(ps) && Clock(s, ps)
    requires Waiting(s, w) && |ps| >= |Old(s)| && s.ub + |ps| < BOOST
    ensures Runs(ps, w)
    decreases |ps|
  {
    assert w in Old(s);
    if ps[0].choice != Some(w) {
      PassKeeps(s, ps[0]);
      PassSteady(s, ps[0]);
      OldShrinks(s, ps[0], w);
      hide Inv, Waiting, After;
      WaitsItsTurn(After(s, ps[0]), ps[1..], w);
      RunsLater(ps, w);
    }
  }

  /** The state right after a boost. */
  predicate JustBoosted(s: Sched) {
    s.ub == 0 && forall i :: 0 <= i < |s.procs| ==> s.procs[i].q_lv == 0 && s.procs[i].time <= 0
  }

  /** No starvation: whoever is runnable after a boost is dispatched within NPROC passes. */
  lemma NoStarvation(s: Sched, ps: seq<Pass>, w: nat)
    requires Inv(s) && AllLegal(s, ps) && s.isLock == 0 && NoLock(ps) && Clock(s, ps) && JustBoosted(s)
    requires w < NPROC && s.procs[w].state == RUNNABLE && |ps| == NPROC
    ensures Runs(ps, w)
  {
    SpanSize(0, NPROC);
    Fewer(Old(s), Span(0, NPROC));
    WaitsItsTurn(s, ps, w);
  }

  /** A pass that ends with a boost. */
  lemma PassBoosts(s: Sched, p: Pass, w: nat)
    requires Inv(s) && Legal(s, p) && s.isLock == 0 && Lock(PASSWORD) !in p.turn && s.ub + 1 == BOOST
    requires 1 <= s.ticks && s.ticks + Ticks(p.idle) + Ticks(p.turn) < HALF
    requires w < NPROC && s.procs[w].state == RUNNABLE && p.choice != Some(w)
    ensures var t := After(s, p);
      && t.isLock == 0 && JustBoosted(t) && s.ticks <= t.ticks <= s.ticks + Ticks(p.idle) + Ticks(p.turn)
      && w < |t.procs| && t.procs[w].state == RUNNABLE
  {
    IdleKeeps(s, p.idle);
    IdleSteady(s, p.idle);
    var s1 := Idle(s, p.idle);
    if p.choice.Some? { RanSteady(s1, p.choice.value, p.turn, p.end); }
    hide Inv, Legal, Ran, Idle;
  }

  /** Without the scheduler lock, a runnable process is dispatched within BOOST + NPROC passes. */
  lemma {:induction false} NeverStarves(s: Sched, ps: seq<Pass>, w: nat)
    requires Inv(s) && AllLegal(s, ps) && s.isLock == 0 && NoLock(ps) && Clock(s, ps)
    requires w < NPROC && s.procs[w].state == RUNNABLE && |ps| >= BOOST - s.ub + NPROC
    ensures Runs(ps, w)
    decreases |ps|
  {
    var p, t := ps[0], After(s, ps[0]);
    if p.choice != Some(w) {
      PassKeeps(s, p);
      if s.ub + 1 < BOOST {
        PassSteady(s, p);
        NeverStarves(t, ps[1..], w);
      } else {
        PassBoosts(s, p, w);
        var qs := ps[1..][..NPROC];
        LegalPrefix(t, ps[1..], NPROC);
        NoStarvation(t, qs, w);
        var k :| 0 <= k < |qs| && qs[k].choice == Some(w);
        assert ps[1..][k].choice == Some(w);
      }
      RunsLater(ps, w);
    }
  }

  lemma {:induction false} LegalPrefix(s: Sched, ps: seq<Pass>, n: nat)
    requires AllLegal(s, ps) && n <= |ps|
    ensures AllLegal(s, ps[..n]) && AllTicks(ps[..n]) <= AllTicks(ps)
    decreases n
  {
    if n > 0 {
      LegalPrefix(After(s, ps[0]), ps[1..], n - 1);
      assert ps[..n][1..] == ps[1..][..n - 1];
    }
  }

  // ---- the scheduler lock ----

  /** While the scheduler is locked, only the holder of the lock is dispatched. */
  lemma OnlyHolderRuns(s: Sched, p: Pass)
    requires Inv(s) && Legal(s, p) && s.isLock == 1
    ensures p.choice.None? || p.choice == s.lockProcess
  {
    IdleKeeps(s, p.idle);
  }

  /** The lock of s is still held in t, has been given up, or has even been granted again. */
  predicate Follows(s: Sched, t: Sched) {
    t.grants > s.grants || (t.grants == s.grants &&
      (t.isLock == 0 || (s.isLock == 1 && t.isLock == 1 && t.lockProcess == s.lockProcess && t.ub == s.ub)))
  }

  lemma DoFollows(s: Sched, c: nat, e: Event)
    requires InTurn(s, c)
    ensures c < |s.procs| && Follows(s, Do(s, c, e))
  {
  }

  lemma {:induction false} TurnFollows(s: Sched, c: nat, es: seq<Event>)
    requires InTurn(s, c)
    ensures c < |s.procs| && Follows(s, Turn(s, c, es))
  {
    if es != [] {
      TurnFollows(s, c, es[..|es| - 1]);
      TurnKeeps(s, c, es[..|es| - 1]);
      TurnLast(s, c, es);
      hide InTurn, Turn;
      DoFollows(Turn(s, c, es[..|es| - 1]), c, es[|es| - 1]);
    }
  }

  lemma RanFollows(s: Sched, c: nat, es: seq<Event>, end: End)
    requires Inv(s) && IsChoice(s, Some(c))
    ensures c < |s.procs| && Follows(s, Ran(s, c, es, end))
  {
    TurnStarts(s, c);
    TurnFollows(Dispatched(s, c), c, es);
    TurnKeeps(Dispatched(s, c), c, es);
    ChargedAlone(Turn(Dispatched(s, c), c, es), c);
    hide Inv, InTurn, Turn, Charged;
  }

  /** A pass before its bookkeeping. */
  lemma Unbooked(s: Sched, p: Pass) returns (u: Sched)
    requires Inv(s) && Legal(s, p)
    ensures Ended(u) && Follows(s, u) && After(s, p) == Bookkept(u)
  {
    IdleKeeps(s, p.idle);
    u := Idle(s, p.idle);
    if p.choice.Some? {
      RanKeeps(u, p.choice.value, p.turn, p.end);
      RanFollows(u, p.choice.value, p.turn, p.end);
      u := Ran(u, p.choice.value, p.turn, p.end);
    }
  }

  /** One pass under the lock brings its end closer. */
  lemma LockedPass(s: Sched, p: Pass)
    requires Inv(s) && Legal(s, p) && s.isLock == 1
    ensures var t := After(s, p);
      t.grants > s.grants || (t.grants == s.grants &&
        (t.isLock == 0 || (t.isLock == 1 && t.lockProcess == s.lockProcess && t.ub == s.ub + 1 < BOOST)))
  {
    var u := Unbooked(s, p);
    hide Inv, Legal, After;
  }

  /** A free lock stays free unless it is granted. */
  lemma UnlockedPass(s: Sched, p: Pass)
    requires Inv(s) && Legal(s, p) && s.isLock == 0
    ensures var t := After(s, p); t.grants > s.grants || (t.grants == s.grants && t.isLock == 0)
  {
    var u := Unbooked(s, p);
    hide Inv, Legal, After;
  }

  /** Every lock ends within BOOST passes, whatever its holder does: afterwards the scheduler is
      unlocked, or the lock has been granted again since. */
  lemma {:induction false} LockEnds(s: Sched, ps: seq<Pass>)
    requires Inv(s) && AllLegal(s, ps) && |ps| >= BOOST - s.ub
    ensures var t := AfterAll(s, ps); t.grants > s.grants || (t.grants == s.grants && t.isLock == 0)
    decreases |ps|
  {
    LockHistory(s, ps, if s.isLock == 0 then 0 else BOOST - s.ub);
  }

  lemma {:induction false} LockHistory(s: Sched, ps: seq<Pass>, n: nat)
    requires Inv(s) && AllLegal(s, ps) && |ps| >= n && (s.isLock == 0 || n == BOOST - s.ub)
    ensures var t := AfterAll(s, ps); t.grants > s.grants || (t.grants == s.grants && t.isLock == 0)
    decreases |ps|
  {
    if ps != [] {
      var t := After(s, ps[0]);
      PassKeeps(s, ps[0]);
      if s.isLock == 1 { LockedPass(s, ps[0]); } else { UnlockedPass(s, ps[0]); }
      hide After, Legal;
      if t.isLock == 0 {
        LockHistory(t, ps[1..], 0);
      } else if t.grants == s.grants {
        LockHistory(t, ps[1..], n - 1);
      } else {
        GrantsGrow(t, ps[1..]);
      }
    }
  }

  lemma {:induction false} GrantsGrow(s: Sched, ps: seq<Pass>)
    requires Inv(s) && AllLegal(s, ps)
    ensures AfterAll(s, ps).grants >= s.grants
    decreases |ps|
  {
    if ps != [] {
      PassKeeps(s, ps[0]);
      if s.isLock == 1 { LockedPass(s, ps[0]); } else { UnlockedPass(s, ps[0]); }
      GrantsGrow(After(s, ps[0]), ps[1..]);
    }
  }

  /** All of this at any point of any run of the kernel: from there on a runnable process runs within
      BOOST + NPROC passes unless somebody takes the scheduler lock, a lock held ends within BOOST
      passes, and the bounds hold at the end. */
  lemma InEveryRun(s: Sched, ps: seq<Pass>, w: nat)
    requires Reached(s) && AllLegal(s, ps) && |ps| >= BOOST + NPROC
    ensures var t := AfterAll(s, ps); Inv(t) && (t.grants > s.grants || (t.grants == s.grants && t.isLock == 0))
    ensures s.isLock == 0 && NoLock(ps) && Clock(s, ps) && w < |s.procs| && s.procs[w].state == RUNNABLE ==> Runs(ps, w)
  {
    Reachable(s);
    ReachedOn(s, ps);
    Reachable(AfterAll(s, ps));
    LockEnds(s, ps);
    if s.isLock == 0 && NoLock(ps) && Clock(s, ps) && w < |s.procs| && s.procs[w].state == RUNNABLE {
      NeverStarves(s, ps, w);
    }
  }

  /** A holder whose lock runs out is the first to be chosen, as soon as it is runnable. */
  lemma TimeoutPutsHolderFirst(s: Sched, p: Pass)
    requires Ended(s) && s.isLock == 1 && s.ub + 1 == BOOST && s.procs[s.lockProcess.value].state != ZOMBIE
    requires Legal(Bookkept(s), p)
    ensures Bookkept(s).isLock == 0
    ensures var h := s.lockProcess.value;
            p.choice == Some(h) <==>
              h < |Idle(Bookkept(s), p.idle).procs| && Idle(Bookkept(s), p.idle).procs[h].state == RUNNABLE
  {
    BookkeepingKeeps(s);
    IdleKeeps(Bookkept(s), p.idle);
    var t, u, h := Bookkept(s), Idle(Bookkept(s), p.idle), s.lockProcess.value;
    assert forall i :: 0 <= i < NPROC ==> t.procs[i].q_lv == 0 && t.procs[i].time == if i == h then -1 else 0;
    assert forall i :: 0 <= i < NPROC ==> SameBut(t.procs[i], u.procs[i]);
    hide Ended, Inv, Bookkept, Idle;
  }

  /** The state in which the process that a pass has chosen switches back to the scheduler. */
  function SwitchBack(s: Sched, q: Pass): Sched
    requires q.choice.Some? && q.choice.value < |s.procs|
  {
    var s1, c := Idle(s, q.idle), q.choice.value;
    EndTurn(Turn(Dispatched(s1, c), c, q.turn), c, q.end)
  }

  lemma SwitchBackKeeps(s: Sched, q: Pass)
    requires Inv(s) && Legal(s, q) && q.choice.Some? && q.choice.value < |s.procs|
    ensures Ended(SwitchBack(s, q)) && |s.procs| == NPROC
  {
    var s1, c := Idle(s, q.idle), q.choice.value;
    IdleKeeps(s, q.idle);
    TurnStarts(s1, c);
    TurnKeeps(Dispatched(s1, c), c, q.turn);
    EndKeeps(Turn(Dispatched(s1, c), c, q.turn), c, q.end);
  }

  /** A holder that gives the lock up itself is stamped with the clock when its turn ends, whatever
      else happens in that turn. So one that is still in L0 is first there exactly if it is runnable
      and no other runnable process of L0 has an earlier stamp, or the same one in an earlier slot. */
  lemma OwnUnlock(s: Sched, q: Pass, p: Pass)
    requires Inv(s) && Legal(s, q) && q.choice.Some? && q.choice.value < |s.procs| && Legal(After(s, q), p)
    requires var v := SwitchBack(s, q);
             v.isLock == 0 && v.ub + 1 < BOOST && q.choice.value < |v.procs| && v.procs[q.choice.value].q_lv == 0
    ensures |Idle(After(s, q), p.idle).procs| == NPROC
    ensures var c, now, procs := q.choice.value, Stamp(SwitchBack(s, q).ticks), Idle(After(s, q), p.idle).procs;
      p.choice == Some(c) <==> procs[c].state == RUNNABLE && FirstInL0(procs, c, now)
  {
    var c, t, v := q.choice.value, After(s, q), SwitchBack(s, q);
    SwitchBackKeeps(s, q);
    PassKeeps(s, q);
    IdleKeeps(t, p.idle);
    assert t == SetProc(v, c, v.procs[c].(time := Stamp(v.ticks))).(ub := v.ub + 1);
    var w := Idle(t, p.idle);
    assert SameBut(t.procs[c], w.procs[c]);
    hide Inv, Ended, Idle, After, SwitchBack;
    assert p.choice == Some(c) ==> forall j :: 0 <= j < NPROC && j != c && w.procs[j].state == RUNNABLE ==>
      !Before(w.procs[j], w.procs[c]) && (j < c ==> Before(w.procs[c], w.procs[j]));
    if p.choice.Some? && p.choice != Some(c) {
      var d := p.choice.value;
      assert w.procs[c].state == RUNNABLE ==>
        !Before(w.procs[c], w.procs[d]) && (c < d ==> Before(w.procs[d], w.procs[c]));
    }
  }

  /** In the pass that ends with a boost its stamp is reset to 0 with all others: then it is first
      exactly if it is the leftmost runnable process. */
  lemma OwnUnlockBoosted(s: Sched, q: Pass, p: Pass)
    requires Inv(s) && Legal(s, q) && q.choice.Some? && q.choice.value < |s.procs| && Legal(After(s, q), p)
    requires SwitchBack(s, q).isLock == 0 && SwitchBack(s, q).ub + 1 == BOOST
    ensures |Idle(After(s, q), p.idle).procs| == NPROC
    ensures var c, procs := q.choice.value, Idle(After(s, q), p.idle).procs;
      p.choice == Some(c) <==>
        procs[c].state == RUNNABLE && forall j :: 0 <= j < c ==> procs[j].state != RUNNABLE
  {
    var t, v := After(s, q), SwitchBack(s, q);
    SwitchBackKeeps(s, q);
    PassKeeps(s, q);
    IdleKeeps(t, p.idle);
    var w := Idle(t, p.idle);
    assert forall i :: 0 <= i < NPROC ==> t.procs[i].q_lv == 0 && t.procs[i].time == 0 && t.isLock == 0;
    assert forall i :: 0 <= i < NPROC ==> SameBut(t.procs[i], w.procs[i]);
    hide Inv, Ended, Idle, After, SwitchBack;
    LeftmostFirst(w, p.choice);
  }

  lemma LeftmostFirst(s: Sched, choice: Option<nat>)
    requires |s.procs| == NPROC && s.isLock == 0 && IsChoice(s, choice)
    requires forall i :: 0 <= i < NPROC ==> s.procs[i].q_lv == 0 && s.procs[i].time == 0
    ensures forall c: nat :: c < NPROC ==>
      (choice == Some(c) <==>
        s.procs[c].state == RUNNABLE && forall j :: 0 <= j < c ==> s.procs[j].state != RUNNABLE)
  {
  }

  /** Every other runnable process of L0 is stamped later than `now`, or the same in a later slot. */
  predicate FirstInL0(procs: seq<Proc>, c: nat, now: int) {
    forall j :: 0 <= j < |procs| && j != c && procs[j].state == RUNNABLE && procs[j].q_lv == 0 ==>
      procs[j].time > now || (procs[j].time == now && j > c)
  }

  /** A turn that the timer ends contains its tick, and stays in L0 after an unlock if fewer than
      three ticks of quantum are used up: such a turn too is covered. */
  lemma PreemptedInL0(s: Sched, q: Pass)
    requires Inv(s) && Legal(s, q) && q.choice.Some? && q.choice.value < |s.procs| && q.end == Preempted
    requires var u := Turn(Dispatched(Idle(s, q.idle), q.choice.value), q.choice.value, q.turn);
             u.procs[q.choice.value].q_lv == 0 && u.procs[q.choice.value].tq < 3
    ensures var c := q.choice.value;
      |SwitchBack(s, q).procs| == NPROC && SwitchBack(s, q).procs[c].q_lv == 0
        && SwitchBack(s, q).procs[c].state == RUNNABLE
  {
    var s1, c := Idle(s, q.idle), q.choice.value;
    IdleKeeps(s, q.idle);
    TurnStarts(s1, c);
    TurnKeeps(Dispatched(s1, c), c, q.turn);
    ChargedAlone(Turn(Dispatched(s1, c), c, q.turn), c);
  }

  /** The first process forks, locks and unlocks the scheduler, and is preempted by the next tick. */
  function Contest(): Pass {
    Pass([], Some(0), [Allocate] + [Fork(1)] + [Lock(PASSWORD)] + [Unlock(PASSWORD)] + [Tick], Preempted)
  }

  /** Then its child comes first, although the process has just given up the lock. */
  lemma OwnUnlockNotFirst()
    ensures Legal(Booted(), Contest()) && IsChoice(After(Booted(), Contest()), Some(1))
    ensures Reached(After(Booted(), Contest()))
  {
    FirstProcess();
    var s, q := Booted(), Contest();
    BootedRuns(s);
    TurnStarts(s, 0);
    ContestTurn(Dispatched(s, 0));
    TurnKeeps(Dispatched(s, 0), 0, q.turn);
    ChargedAlone(Turn(Dispatched(s, 0), 0, q.turn), 0);
    assert Ran(s, 0, q.turn, q.end).procs[0].time == 1 by { hide Turn, Charged, InTurn, Inv; }
    hide Turn, Charged, InTurn, Inv, Booted, Contest;
    ContestEnds(Ran(s, 0, q.turn, q.end));
    assert [q][1..] == [];
    assert AllLegal(After(s, q), []) && AfterAll(After(s, q), []) == After(s, q);
    assert AllLegal(s, [q]) && AfterAll(s, [q]) == After(s, q);
  }

  lemma BootedRuns(s: Sched)
    requires s.procs == Initial().procs[0 := Proc(RUNNABLE, 1, 0, 0, 0, 3, 0)] && s.isLock == 0
    ensures IsChoice(s, Some(0))
  {
  }

  /** What the turn leaves: the parent put first by its own unlock, and the child. */
  lemma ContestTurn(d: Sched)
    requires d.procs == Initial().procs[0 := Proc(RUNNING, 1, 0, 0, 0, 3, 0)]
    requires d == Initial().(procs := d.procs, nextpid := 2)
    ensures Turn(d, 0, Contest().turn).procs ==
              d.procs[0 := Proc(RUNNING, 1, 0, 0, 0, 3, -1)][1 := Proc(RUNNABLE, 2, 0, 0, 0, 3, 0)]
    ensures Turn(d, 0, Contest().turn) ==
              d.(procs := Turn(d, 0, Contest().turn).procs, nextpid := 3, ticks := 1, grants := 1)
  {
    ContestEvents(d);
    hide Turn;
    ChildForked(d);
    var s2 := d.(procs := d.procs[1 := Proc(RUNNABLE, 2, 0, 0, 0, 3, 0)], nextpid := 3);
    GivenUp(s2);
    DoEach(d);
    DoEach(Allocated(d));
    DoEach(s2);
    hide Do, Allocated, Forked;
    LockTickUnlock(s2);
  }

  lemma DoEach(s: Sched)
    requires |s.procs| == NPROC
    ensures Do(s, 0, Allocate) == Allocated(s) && Do(s, 0, Tick) == s.(ticks := (s.ticks + 1) % (2 * HALF))
    ensures s.procs[1].state == EMBRYO ==> Do(s, 0, Fork(1)) == Forked(s, 1)
    ensures Do(s, 0, Lock(PASSWORD)) == Locked(s, 0, PASSWORD) && Do(s, 0, Unlock(PASSWORD)) == Unlocked(s, PASSWORD)
  {
  }

  /** The process in slot 0 takes the scheduler lock and gives it up. */
  lemma GivenUp(s: Sched)
    requires |s.procs| == NPROC && s.isLock == 0 && s.ub == 0 && s.lockProcess == None && s.procs[0].state == RUNNING
    ensures Unlocked(Locked(s, 0, PASSWORD), PASSWORD) ==
              SetProc(s, 0, s.procs[0].(q_lv := 0, tq := 0, priority := 3, time := -1)).(grants := s.grants + 1)
  {
  }

  lemma ChildForked(d: Sched)
    requires d.procs == Initial().procs[0 := Proc(RUNNING, 1, 0, 0, 0, 3, 0)]
    requires d == Initial().(procs := d.procs, nextpid := 2)
    ensures var s1 := Allocated(d);
            && |s1.procs| == NPROC && s1.procs[1].state == EMBRYO
            && Forked(s1, 1) == d.(procs := d.procs[1 := Proc(RUNNABLE, 2, 0, 0, 0, 3, 0)], nextpid := 3)
  {
    assert d.procs[1].state == UNUSED && FirstIn(d.procs[1..], UNUSED) == 0 && FirstIn(d.procs, UNUSED) == 1;
  }

  lemma LockTickUnlock(s: Sched)
    requires |s.procs| == NPROC
    ensures Do(Do(Do(s, 0, Lock(PASSWORD)), 0, Unlock(PASSWORD)), 0, Tick) ==
              Interrupt(Unlocked(Locked(s, 0, PASSWORD), PASSWORD), Tick)
  {
    DoEach(s);
    DoEach(Locked(s, 0, PASSWORD));
  }

  lemma OneMoreEvent(s: Sched, c: nat, es: seq<Event>, e: Event)
    requires c < |s.procs|
    ensures Turn(s, c, es + [e]) == Do(Turn(s, c, es), c, e)
  {
    assert (es + [e])[..|es|] == es;
  }

  lemma ContestEvents(d: Sched)
    requires |d.procs| == NPROC
    ensures var t := Do(Do(d, 0, Allocate), 0, Fork(1));
            Turn(d, 0, Contest().turn) == Do(Do(Do(t, 0, Lock(PASSWORD)), 0, Unlock(PASSWORD)), 0, Tick)
  {
    hide Do;
    var e1 := [Allocate];
    var e2 := e1 + [Fork(1)];
    var e3 := e2 + [Lock(PASSWORD)];
    assert Turn(d, 0, []) == d && [] + e1 == e1;
    hide Turn;
    OneMoreEvent(d, 0, [], Allocate);
    OneMoreEvent(d, 0, e1, Fork(1));
    OneMoreEvent(d, 0, e2, Lock(PASSWORD));
    OneMoreEvent(d, 0, e3, Unlock(PASSWORD));
    OneMoreEvent(d, 0, e3 + [Unlock(PASSWORD)], Tick);
  }

  lemma ContestEnds(t: Sched)
    requires t.procs == Initial().procs[0 := Proc(RUNNABLE, 1, 0, 0, 1, 3, 1)][1 := Proc(RUNNABLE, 2, 0, 0, 0, 3, 0)]
    requires t.ub == 0 && t.isLock == 0
    ensures IsChoice(Bookkept(t), Some(1))
  {
  }
}
