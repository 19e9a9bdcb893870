/** The process table of proc.c with its scheduling operations, as the kernel performs them in place. */
module Scheduler {
  import opened Basics
  import opened SchedSpec

  class Kernel {
    const proc: array<Proc>
    var upper_bound: int
    var is_lock: int
    var lock_process: Option<nat>
    var ticks: nat
    var nextpid: int
    ghost var grants: nat

    constructor ()
      ensures fresh(proc) && Valid() && State() == Initial()
    {
      var p := Proc(UNUSED, 0, 0, 0, 0, 0, 0);
      proc := new Proc[NPROC](_ => p);
      upper_bound, is_lock, lock_process, ticks, nextpid, grants := 0, 0, None, 0, 1, 0;
      new;
      assert proc[..] == Initial().procs;
    }

    predicate Valid()
      reads this
    {
      proc.Length == NPROC && ticks < 2 * HALF && (lock_process.Some? ==> lock_process.value < NPROC)
    }

    ghost function State(): Sched
      reads this, proc
    {
      Sched(proc[..], upper_bound, is_lock, lock_process, ticks, nextpid, grants)
    }

    /** allocproc's search and its initialisation of the scheduling fields. */
    method AllocProc() returns (slot: nat)
      requires Valid()
      modifies this`nextpid, proc
      ensures Valid() && State() == Allocated(old(State()))
      ensures slot <= NPROC && forall j :: 0 <= j < slot ==> proc[j].state != UNUSED && proc[j] == old(proc[j])
      ensures slot == NPROC ==> nextpid == old(nextpid)
      ensures slot < NPROC ==> old(proc[slot].state) == UNUSED && nextpid == old(nextpid) + 1
      ensures slot < NPROC ==> proc[slot] == Proc(EMBRYO, old(nextpid), old(proc[slot].chan), 0, 0, 3, Stamp(ticks))
      ensures forall j :: slot < j < NPROC ==> proc[j] == old(proc[j])
    {
      ghost var ps := proc[..];
      slot := 0;
      while slot < NPROC
        invariant slot <= NPROC && proc[..] == ps && nextpid == old(nextpid)
        invariant forall j :: 0 <= j < slot ==> ps[j].state != UNUSED
      {
        if proc[slot].state == UNUSED {
          proc[slot] := proc[slot].(state := EMBRYO, pid := nextpid, q_lv := 0, tq := 0, priority := 3,
            time := Stamp(ticks));
          nextpid := nextpid + 1;
          return;
        }
        slot := slot + 1;
      }
    }

    /** userinit, before the scheduler starts. */
    method UserInit()
      requires Valid() && State() == Initial()
      modifies this`nextpid, proc
      ensures Valid() && State() == Booted()
    {
      var p := AllocProc();
      if p < NPROC { proc[p] := proc[p].(state := RUNNABLE); }
    }

    /** The end of fork: the child becomes runnable. */
    method StartChild(np: nat)
      requires Valid() && np < NPROC
      modifies proc
      ensures State() == Forked(old(State()), np)
      ensures proc[np] == Proc(RUNNABLE, old(proc[np].pid), old(proc[np].chan), 0, 0, 3, Stamp(ticks))
      ensures forall j :: 0 <= j < NPROC && j != np ==> proc[j] == old(proc[j])
    {
      proc[np] := proc[np].(tq := 0, q_lv := 0, time := Stamp(ticks), priority := 3);
      proc[np] := proc[np].(state := RUNNABLE);
    }

    method SetPriority(pid: int, priority: int)
      requires Valid()
      modifies proc
      ensures State() == Prioritized(old(State()), pid, priority)
      ensures forall j :: 0 <= j < NPROC ==>
        if old(proc[j].pid) == pid && forall k :: 0 <= k < j ==> old(proc[k].pid) != pid
        then proc[j] == old(proc[j]).(priority := if priority < 0 then 0 else if priority > 3 then 3 else priority)
        else proc[j] == old(proc[j])
    {
      ghost var ps := proc[..];
      var p := 0;
      while p < NPROC
        invariant p <= NPROC && proc[..] == ps
        invariant forall j :: 0 <= j < p ==> ps[j].pid != pid
      {
        if proc[p].pid == pid {
          if priority < 0 { proc[p] := proc[p].(priority := 0); }
          else if priority > 3 { proc[p] := proc[p].(priority := 3); }
          else { proc[p] := proc[p].(priority := priority); }
          return;
        }
        p := p + 1;
      }
    }

    /** schedulerLock; `exits` if the password is wrong and the caller has to exit. */
    method SchedulerLock(me: nat, password: int) returns (exits: bool)
      requires Valid() && me < NPROC
      modifies this
      ensures Valid() && State() == Locked(old(State()), me, password)
      ensures var granted := proc[me].state != SLEEPING && old(is_lock) != 1 && password == PASSWORD;
        && is_lock == (if granted then 1 else old(is_lock)) && grants == old(grants) + (if granted then 1 else 0)
        && lock_process == (if granted then Some(me) else old(lock_process))
        && upper_bound == (if granted then 0 else old(upper_bound)) && ticks == old(ticks)
      ensures exits <==> proc[me].state != SLEEPING && old(is_lock) != 1 && password != PASSWORD
    {
      if proc[me].state == SLEEPING { return false; }
      if is_lock == 1 { return false; }
      if password == PASSWORD {
        upper_bound := 0;
        is_lock := 1;
        lock_process := Some(me);
        grants := grants + 1;
        return false;
      }
      return true;
    }

    method SchedulerUnlock(password: int) returns (exits: bool)
      requires Valid() && (is_lock != 0 ==> lock_process.Some?)
      modifies this, proc
      ensures Valid() && State() == Unlocked(old(State()), password)
      ensures var given := old(is_lock) != 0 && password == PASSWORD;
        && is_lock == (if given then 0 else old(is_lock))
        && lock_process == (if given then None else old(lock_process))
        && (forall j :: 0 <= j < NPROC ==>
              if given && Some(j) == old(lock_process)
              then proc[j] == old(proc[j]).(q_lv := 0, tq := 0, priority := 3, time := -1)
              else proc[j] == old(proc[j]))
        && upper_bound == old(upper_bound) && ticks == old(ticks) && grants == old(grants)
      ensures exits <==> old(is_lock) != 0 && password != PASSWORD
    {
      if is_lock == 0 { return false; }
      if password == PASSWORD {
        is_lock := 0;
        var p := lock_process.value;
        proc[p] := proc[p].(q_lv := 0, tq := 0, priority := 3);
        proc[p] := proc[p].(time := -1);
        lock_process := None;
        return false;
      }
      return true;
    }

    /** No slot before has the pid of this one. */
    ghost predicate First(me: nat)
      reads proc
      requires me < proc.Length
    {
      forall k :: 0 <= k < me ==> proc[k].pid != proc[me].pid
    }

    /** The timer branch of trap: the running process is charged for the tick. */
    method ChargeTick(me: nat)
      requires Valid() && me < NPROC
      modifies proc
      ensures State() == Charged(old(State()), me)
      ensures old(proc[me].tq) + 1 != 2 * old(proc[me].q_lv) + 4 ==>
        proc[me] == old(proc[me]).(tq := old(proc[me].tq) + 1)
      ensures old(proc[me].tq) + 1 == 2 * old(proc[me].q_lv) + 4 && old(proc[me].q_lv) != 2 ==>
        proc[me] == old(proc[me]).(tq := 0, q_lv := old(proc[me].q_lv) + 1)
      ensures old(proc[me].tq) + 1 == 2 * old(proc[me].q_lv) + 4 == 8 && old(First(me)) ==>
        proc[me] == old(proc[me]).(tq := 0, priority := Clamp(old(proc[me].priority) - 1))
      ensures old(First(me)) ==> forall j :: 0 <= j < NPROC && j != me ==> proc[j] == old(proc[j])
    {
      ghost var ps := proc[..];
      proc[me] := proc[me].(tq := proc[me].tq + 1);
      assert forall k :: 0 <= k < NPROC ==> proc[k].pid == ps[k].pid;
      assert First(me) == old(First(me));
      if proc[me].tq == proc[me].q_lv * 2 + 4 {
        if proc[me].q_lv == 2 {
          SetPriority(proc[me].pid, proc[me].priority - 1);
        } else {
          proc[me] := proc[me].(q_lv := proc[me].q_lv + 1);
        }
        proc[me] := proc[me].(tq := 0);
      }
    }

    method SysYield(me: nat)
      requires Valid() && me < NPROC
      modifies proc
      ensures State() == Yielding(old(State()), me)
      ensures proc[me] == old(proc[me]).(q_lv := 2, tq := 0, priority := 3, time := Stamp(ticks))
      ensures forall j :: 0 <= j < NPROC && j != me ==> proc[j] == old(proc[j])
    {
      proc[me] := proc[me].(q_lv := 2);
      proc[me] := proc[me].(tq := 0);
      proc[me] := proc[me].(time := Stamp(ticks));
      proc[me] := proc[me].(priority := 3);
    }

    /** wakeup1 */
    method Wakeup1(chan: nat)
      requires Valid()
      modifies proc
      ensures State() == Woken(old(State()), chan)
      ensures forall j :: 0 <= j < NPROC ==>
        if old(proc[j].state) == SLEEPING && old(proc[j].chan) == chan
        then proc[j] == old(proc[j]).(state := RUNNABLE) else proc[j] == old(proc[j])
    {
      ghost var ps := proc[..];
      var p := 0;
      while p < NPROC
        invariant p <= NPROC
        invariant forall j :: 0 <= j < p ==> proc[j] == Wake(ps[j], chan)
        invariant forall j :: p <= j < NPROC ==> proc[j] == ps[j]
      {
        if proc[p].state == SLEEPING && proc[p].chan == chan {
          proc[p] := proc[p].(state := RUNNABLE);
        }
        p := p + 1;
      }
      assert proc[..] == Woken(old(State()), chan).procs;
    }

    method Kill(pid: int) returns (found: bool)
      requires Valid()
      modifies proc
      ensures State() == Killed(old(State()), pid)
      ensures forall j :: 0 <= j < NPROC ==>
        if old(proc[j].state) == SLEEPING && old(proc[j].pid) == pid &&
           forall k :: 0 <= k < j ==> old(proc[k].pid) != pid
        then proc[j] == old(proc[j]).(state := RUNNABLE) else proc[j] == old(proc[j])
      ensures found <==> exists j :: 0 <= j < NPROC && old(proc[..])[j].pid == pid
    {
      ghost var ps := proc[..];
      var p := 0;
      while p < NPROC
        invariant p <= NPROC && proc[..] == ps
        invariant forall j :: 0 <= j < p ==> ps[j].pid != pid
      {
        if proc[p].pid == pid {
          if proc[p].state == SLEEPING { proc[p] := proc[p].(state := RUNNABLE); }
          return true;
        }
        p := p + 1;
      }
      return false;
    }

    /** The scan of the scheduler. */
    method Scan() returns (c: Option<nat>)
      requires Valid()
      ensures if c.Some? then Best(proc[..], NPROC, c.value) else NoneRunnable(proc[..], NPROC)
      ensures c.None? <==> forall j :: 0 <= j < NPROC ==> proc[j].state != RUNNABLE
      ensures c.Some? ==> c.value < NPROC && proc[c.value].state == RUNNABLE
      ensures c.Some? ==> forall j :: 0 <= j < NPROC && proc[j].state == RUNNABLE ==>
        var a, b := proc[c.value], proc[j];
        && a.q_lv <= b.q_lv
        && (a.q_lv == b.q_lv == 2 ==> a.priority <= b.priority)
        && (a.q_lv == b.q_lv && (a.q_lv == 2 ==> a.priority == b.priority) ==> a.time <= b.time)
        && (a.q_lv == b.q_lv && (a.q_lv == 2 ==> a.priority == b.priority) && a.time == b.time ==> c.value <= j)
    {
      c := None;
      var p := 0;
      while p < NPROC
        invariant p <= NPROC
        invariant if c.Some? then Best(proc[..], p, c.value) else NoneRunnable(proc[..], p)
      {
        if proc[p].state == RUNNABLE {
          if c == None || proc[c.value].q_lv > proc[p].q_lv {
            c := Some(p);
          } else if proc[c.value].q_lv == proc[p].q_lv {
            if proc[c.value].q_lv == 2 {
              if proc[c.value].priority > proc[p].priority { c := Some(p); }
              else if proc[c.value].priority == proc[p].priority && proc[c.value].time > proc[p].time { c := Some(p); }
            } else {
              if proc[c.value].time > proc[p].time { c := Some(p); }
            }
          }
        }
        p := p + 1;
      }
    }

    /** The first half of a pass: choose a process and set it running. */
    method Dispatch() returns (c: Option<nat>)
      requires Valid() && (is_lock != 0 ==> lock_process.Some?)
      modifies proc
      ensures Valid() && IsChoice(old(State()), c) && (c.Some? ==> c.value < NPROC)
      ensures State() == if c.Some? then Dispatched(old(State()), c.value) else old(State())
      ensures is_lock != 0 ==>
        c == if old(proc[lock_process.value].state) == RUNNABLE then lock_process else None
      ensures c.Some? ==> old(proc[c.value].state) == RUNNABLE
      ensures forall j :: 0 <= j < NPROC ==>
        proc[j] == if c == Some(j) then old(proc[j]).(state := RUNNING) else old(proc[j])
    {
      if is_lock != 0 {
        c := if proc[lock_process.value].state == RUNNABLE then lock_process else None;
      } else {
        c := Scan();
      }
      if c.Some? { proc[c.value] := proc[c.value].(state := RUNNING); }
    }

    /** The boost's loop. */
    method BoostAll()
      requires Valid()
      modifies proc
      ensures State() == Boosted(old(State()))
      ensures forall j :: 0 <= j < NPROC ==> proc[j] == old(proc[j]).(q_lv := 0, tq := 0, priority := 3, time := 0)
    {
      ghost var ps := proc[..];
      var p := 0;
      while p < NPROC
        invariant p <= NPROC
        invariant forall j :: 0 <= j < p ==> proc[j] == Boost(ps[j])
        invariant forall j :: p <= j < NPROC ==> proc[j] == ps[j]
      {
        proc[p] := proc[p].(tq := 0, q_lv := 0, priority := 3, time := 0);
        p := p + 1;
      }
      assert proc[..] == Boosted(old(State())).procs;
    }

    /** The second half of a pass, once the chosen process has switched back. */
    method FinishPass(c: Option<nat>)
      requires Valid() && (is_lock == 1 ==> lock_process.Some?) && (c.Some? ==> c.value < NPROC)
      modifies this, proc
      ensures Valid()
      ensures var s := old(State());
              State() == Bookkept(if c.Some? then SetProc(s, c.value, s.procs[c.value].(time := Stamp(s.ticks))) else s)
      ensures upper_bound == if old(upper_bound) + 1 >= BOOST then 0 else old(upper_bound) + 1
      ensures var h := old(lock_process);
              var dead := old(is_lock) == 1 && old(proc[h.value].state) == ZOMBIE;
              var boost := old(upper_bound) + 1 >= BOOST;
        && is_lock == (if old(is_lock) == 1 && (dead || boost) then 0 else old(is_lock))
        && lock_process == (if old(is_lock) == 1 && (dead || boost) then None else h)
        && forall j :: 0 <= j < NPROC ==>
             var p := old(proc[j]);
             proc[j] == if h == Some(j) && old(is_lock) == 1 && dead != boost
                          then p.(q_lv := 0, tq := 0, priority := 3, time := -1)
                        else if boost then p.(q_lv := 0, tq := 0, priority := 3, time := 0)
                        else if c == Some(j) then p.(time := Stamp(ticks)) else p
    {
      if c.Some? { proc[c.value] := proc[c.value].(time := Stamp(ticks)); }
      if is_lock == 1 && proc[lock_process.value].state == ZOMBIE {
        var _ := SchedulerUnlock(PASSWORD);
      }
      upper_bound := upper_bound + 1;
      if upper_bound >= BOOST {
        BoostAll();
        if is_lock == 1 {
          var _ := SchedulerUnlock(PASSWORD);
        }
        upper_bound := 0;
      }
    }
  }
}
