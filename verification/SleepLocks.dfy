/** sleeplock.c over sleep and wakeup of proc.c, as an interleaving protocol: any number of
    processes and sleep-locks, each step one access to shared memory. */
module SleepLocks {
  import opened Basics

  /** Where a process is. The argument is the sleep-lock, or the process to kill. */
  datatype Pc =
    | Idle
    // acquiresleep
    | AcqSpin(l: nat)        // acquire(&lk->lk)
    | AcqTest(l: nat)        // while (lk->locked)
    | AcqSet(l: nat)         // lk->locked = 1; lk->pid = myproc()->pid
    | AcqExit(l: nat)        // release(&lk->lk)
    // sleep(lk, &lk->lk)
    | SleepSpin(l: nat)      // acquire(&ptable.lock)
    | SleepRelease(l: nat)   // release(lk)
    | SleepSet(l: nat)       // p->chan = chan; p->state = SLEEPING; sched()
    | Asleep(l: nat)
    | Runnable(l: nat)       // until the scheduler switches to it
    | Resumed(l: nat)        // release(&ptable.lock)
    // releasesleep
    | RelSpin(l: nat)        // acquire(&lk->lk)
    | RelClear(l: nat)       // lk->locked = 0; lk->pid = 0
    | WakeSpin(l: nat)       // wakeup: acquire(&ptable.lock)
    | Waking(l: nat, k: nat) // wakeup1's loop, at slot k
    | RelExit(l: nat)        // release(&lk->lk)
    // holdingsleep
    | HoldSpin(l: nat)
    | HoldTest(l: nat)
    | HoldExit(l: nat)
    // kill
    | KillSpin(t: nat)
    | KillSet(t: nat)
    | KillExit

  /** The process's place, and the sleep-locks it has been given and not begun to release. */
  datatype Proc = Proc(pc: Pc, held: set<nat>)

  /** A sleep-lock: the spin-lock inside it, `locked`, and `pid` (0 for nobody). */
  datatype Lock = Lock(inner: Option<nat>, locked: bool, pid: nat)

  datatype Owner = Nobody | Scheduler | Process(i: nat)

  datatype System = System(procs: seq<Proc>, locks: seq<Lock>, ptable: Owner)

  datatype Call = Acquiresleep(l: nat) | Releasesleep(l: nat) | Holdingsleep(l: nat) | Kill(t: nat)

  datatype Step = Begin(i: nat, call: Call) | Go(i: nat) | SchedulerReleases

  function Pid(i: nat): nat {
    i + 1
  }

  function At(s: System, i: nat, pc: Pc): System
    requires i < |s.procs|
  {
    s.(procs := s.procs[i := s.procs[i].(pc := pc)])
  }

  function SetLock(s: System, l: nat, k: Lock): System
    requires l < |s.locks|
  {
    s.(locks := s.locks[l := k])
  }

  /** Process i starts a call. Only the holder releases a sleep-lock, as brelse and iunlock check. */
  function Called(s: System, i: nat, call: Call): System
    requires i < |s.procs|
  {
    if s.procs[i].pc != Idle then s
    else match call
      case Acquiresleep(l) => if l < |s.locks| then At(s, i, AcqSpin(l)) else s
      case Releasesleep(l) =>
        if l in s.procs[i].held then s.(procs := s.procs[i := Proc(RelSpin(l), s.procs[i].held - {l})]) else s
      case Holdingsleep(l) => if l < |s.locks| then At(s, i, HoldSpin(l)) else s
      case Kill(t) => if t < |s.procs| then At(s, i, KillSpin(t)) else s
  }

  /** acquire of the spin-lock inside sleep-lock l */
  function TakeInner(s: System, i: nat, l: nat, next: Pc): System
    requires i < |s.procs|
  {
    if l < |s.locks| && s.locks[l].inner == None then SetLock(At(s, i, next), l, s.locks[l].(inner := Some(i))) else s
  }

  function DropInner(s: System, i: nat, l: nat, next: Pc): System
    requires i < |s.procs|
  {
    if l < |s.locks| then SetLock(At(s, i, next), l, s.locks[l].(inner := None)) else s
  }

  function TakeTable(s: System, i: nat, next: Pc): System
    requires i < |s.procs|
  {
    if s.ptable == Nobody then At(s, i, next).(ptable := Process(i)) else s
  }

  /** The effect of wakeup1 or kill on one slot. */
  function WakeOne(s: System, k: nat, chan: Option<nat>): System {
    if k < |s.procs| && s.procs[k].pc.Asleep? && (chan == None || chan == Some(s.procs[k].pc.l))
    then At(s, k, Runnable(s.procs[k].pc.l)) else s
  }

  /** Process i takes its next step; a step that has to wait changes nothing. */
  function Gone(s: System, i: nat): System
    requires i < |s.procs|
  {
    match s.procs[i].pc
    case Idle => s
    case AcqSpin(l) => TakeInner(s, i, l, AcqTest(l))
    case AcqTest(l) => if l < |s.locks| then At(s, i, if s.locks[l].locked then SleepSpin(l) else AcqSet(l)) else s
    case AcqSet(l) => if l < |s.locks|
        then SetLock(At(s, i, AcqExit(l)), l, s.locks[l].(locked := true, pid := Pid(i)))
        else s
    case AcqExit(l) =>
      var t := DropInner(s, i, l, Idle);
      t.(procs := t.procs[i := t.procs[i].(held := t.procs[i].held + {l})])
    case SleepSpin(l) => TakeTable(s, i, SleepRelease(l))
    case SleepRelease(l) => DropInner(s, i, l, SleepSet(l))
    case SleepSet(l) => At(s, i, Asleep(l)).(ptable := Scheduler)
    case Asleep(_) => s
    case Runnable(l) => TakeTable(s, i, Resumed(l))
    case Resumed(l) => At(s, i, AcqSpin(l)).(ptable := Nobody)
    case RelSpin(l) => TakeInner(s, i, l, RelClear(l))
    case RelClear(l) => if l < |s.locks|
        then SetLock(At(s, i, WakeSpin(l)), l, s.locks[l].(locked := false, pid := 0))
        else s
    case WakeSpin(l) => TakeTable(s, i, Waking(l, 0))
    case Waking(l, k) =>
      if k < |s.procs| then At(WakeOne(s, k, Some(l)), i, Waking(l, k + 1)) else At(s, i, RelExit(l)).(ptable := Nobody)
    case RelExit(l) => DropInner(s, i, l, Idle)
    case HoldSpin(l) => TakeInner(s, i, l, HoldTest(l))
    case HoldTest(l) => At(s, i, HoldExit(l))
    case HoldExit(l) => DropInner(s, i, l, Idle)
    case KillSpin(t) => TakeTable(s, i, KillSet(t))
    case KillSet(t) => At(WakeOne(s, t, None), i, KillExit)
    case KillExit => At(s, i, Idle).(ptable := Nobody)
  }

  function Next(s: System, step: Step): System {
    match step
    case Begin(i, call) => if i < |s.procs| then Called(s, i, call) else s
    case Go(i) => if i < |s.procs| then Gone(s, i) else s
    case SchedulerReleases => if s.ptable == Scheduler then s.(ptable := Nobody) else s
  }

  function Run(s: System, steps: seq<Step>): System
    decreases |steps|
  {
    if steps == [] then s else Next(Run(s, steps[..|steps| - 1]), steps[|steps| - 1])
  }

  function Initial(n: nat, m: nat): System {
    System(seq(n, _ => Proc(Idle, {})), seq(m, _ => Lock(None, false, 0)), Nobody)
  }

  /** A sleeper is woken by no step but that of the wakeup loop of its own lock that has come to it, or
      of a kill of it; and by these it is. */
  lemma WokenExactly(s: System, i: nat, j: nat, l: nat)
    requires i < |s.procs| && j < |s.procs| && i != j && s.procs[j].pc == Asleep(l)
    ensures |Gone(s, i).procs| == |s.procs|
    ensures Gone(s, i).procs[j].pc ==
      if s.procs[i].pc == Waking(l, j) || s.procs[i].pc == KillSet(j) then Runnable(l) else Asleep(l)
  {
  }

  // ---- the invariant ----

  /** The sleep-lock whose inner spin-lock a process at pc holds. */
  function InnerOf(pc: Pc): Option<nat> {
    match pc
    case AcqTest(l) => Some(l) case AcqSet(l) => Some(l) case AcqExit(l) => Some(l)
    case SleepSpin(l) => Some(l) case SleepRelease(l) => Some(l)
    case RelClear(l) => Some(l) case WakeSpin(l) => Some(l) case Waking(l, _) => Some(l) case RelExit(l) => Some(l)
    case HoldTest(l) => Some(l) case HoldExit(l) => Some(l)
    case _ => None
  }

  predicate HoldsTable(pc: Pc) {
    pc.SleepRelease? || pc.SleepSet? || pc.Resumed? || pc.Waking? || pc.KillSet? || pc.KillExit?
  }

  /** Between `locked = 1` and `locked = 0`. */
  predicate Owns(p: Proc, l: nat) {
    l in p.held || p.pc == AcqExit(l) || p.pc == RelSpin(l) || p.pc == RelClear(l)
  }

  /** On its way into sleep, or in it. */
  predicate Sleepy(pc: Pc, l: nat) {
    pc == SleepSpin(l) || pc == SleepRelease(l) || pc == SleepSet(l) || pc == Asleep(l)
  }

  /** The process at pc will still look at slot i to wake it from sleep-lock l. */
  predicate WillWake(pc: Pc, l: nat, i: nat) {
    pc == WakeSpin(l) || (pc.Waking? && pc.l == l && pc.k <= i)
  }

  predicate Places(s: System) {
    forall i :: 0 <= i < |s.procs| ==>
      && (forall l :: l in s.procs[i].held ==> l < |s.locks|)
      && (Locked(s.procs[i].pc) ==> LockOf(s.procs[i].pc) < |s.locks|)
  }

  predicate Spinlocks(s: System) {
    && (forall i, l :: 0 <= i < |s.procs| && 0 <= l < |s.locks| ==>
      (InnerOf(s.procs[i].pc) == Some(l) <==> s.locks[l].inner == Some(i)))
    && (forall l :: 0 <= l < |s.locks| && s.locks[l].inner.Some? ==> s.locks[l].inner.value < |s.procs|)
    && (forall i :: 0 <= i < |s.procs| ==> (HoldsTable(s.procs[i].pc) <==> s.ptable == Process(i)))
    && (s.ptable.Process? ==> s.ptable.i < |s.procs|)
  }

  predicate Ownership(s: System) {
    && (forall i, l :: 0 <= i < |s.procs| && 0 <= l < |s.locks| ==>
          (Owns(s.procs[i], l) <==> s.locks[l].locked && s.locks[l].pid == Pid(i)))
    && (forall l :: 0 <= l < |s.locks| && s.locks[l].locked ==> 0 < s.locks[l].pid <= |s.procs|)
    && (forall i :: 0 <= i < |s.procs| && s.procs[i].pc.AcqSet? && s.procs[i].pc.l < |s.locks| ==>
      !s.locks[s.procs[i].pc.l].locked)
    && (forall i :: 0 <= i < |s.procs| ==> !Tangled(s.procs[i]))
  }

  /** Whoever sleeps, or is about to, waits for a lock that is taken, or for a wakeup in progress. */
  ghost predicate Awaited(s: System) {
    forall i, l :: 0 <= i < |s.procs| && 0 <= l < |s.locks| && Sleepy(s.procs[i].pc, l) ==> Cared(s, i, l)
  }

  predicate Cared(s: System, i: nat, l: nat)
    requires l < |s.locks|
  {
    || s.locks[l].locked
    || (s.locks[l].inner.Some? && s.locks[l].inner.value < |s.procs|
      && WillWake(s.procs[s.locks[l].inner.value].pc, l, i))
  }

  ghost predicate Inv(s: System) {
    Places(s) && Spinlocks(s) && Ownership(s) && Awaited(s)
  }

  // ---- every step keeps it ----

  /** One step at most changes one process, one lock and the table's owner. */
  function Put(s: System, i: nat, p: Proc, l: nat, k: Lock, o: Owner): System
    requires i < |s.procs|
  {
    System(s.procs[i := p], if l < |s.locks| then s.locks[l := k] else s.locks, o)
  }

  function LockAt(s: System, l: nat): Lock {
    if l < |s.locks| then s.locks[l] else Lock(None, false, 0)
  }

  /** Spin-lock l before and after, seen from process i at pc, then at pc'. */
  predicate InnerMoves(pc: Pc, pc': Pc, i: nat, l: nat, inner: Option<nat>, inner': Option<nat>) {
    || (InnerOf(pc') == InnerOf(pc) && inner' == inner)
    || (InnerOf(pc) == None && InnerOf(pc') == Some(l) && inner == None && inner' == Some(i))
    || (InnerOf(pc) == Some(l) && InnerOf(pc') == None && inner' == None)
  }

  predicate TableMoves(pc: Pc, pc': Pc, i: nat, o: Owner, o': Owner) {
    || (HoldsTable(pc') == HoldsTable(pc) && o' == o)
    || (!HoldsTable(pc) && HoldsTable(pc') && o == Nobody && o' == Process(i))
    || (HoldsTable(pc) && !HoldsTable(pc') && !o'.Process?)
  }

  predicate Tangled(p: Proc) {
    (p.pc.AcqExit? || p.pc.RelSpin? || p.pc.RelClear?) && p.pc.l in p.held
  }

  /** `locked` and `pid` of sleep-lock l before and after a step of process i. */
  predicate OwnerMoves(p: Proc, p': Proc, i: nat, l: nat, k: Lock, k': Lock) {
    && (forall m :: m in p.held + p'.held && m != l ==> (Owns(p', m) <==> Owns(p, m)))
    && (p.pc != p'.pc ==> (LockOf(p.pc) == l || !Marks(p.pc)) && (LockOf(p'.pc) == l || !Marks(p'.pc)))
    && (|| (k'.locked == k.locked && k'.pid == k.pid && (Owns(p', l) <==> Owns(p, l)))
        || (!k.locked && k'.locked && k'.pid == Pid(i) && Owns(p', l) && p.pc == AcqSet(l))
        || (Owns(p, l) && !k'.locked && k'.pid == 0 && !Owns(p', l)))
    && (p'.pc.AcqSet? ==> p'.pc.l == l && !k'.locked)
    && !Tangled(p')
  }

  /** The places that say something about who owns a sleep-lock. */
  predicate Marks(pc: Pc) {
    pc.AcqExit? || pc.RelSpin? || pc.RelClear?
  }

  /** No sleeper of lock l is forgotten by a step of process i. */
  ghost predicate WakersMove(s: System, i: nat, p: Proc, l: nat, k: Lock)
    requires i < |s.procs|
  {
    var pc, pc', k0 := s.procs[i].pc, p.pc, LockAt(s, l);
    && (InnerOf(pc) == None || InnerOf(pc) == Some(l))
    && (k.locked || !k0.locked || (pc' == WakeSpin(l) && k.inner == Some(i)))
    && (k0.inner == Some(i) ==>
          forall j :: 0 <= j < |s.procs| && j != i && Sleepy(s.procs[j].pc, l) && WillWake(pc, l, j) ==>
            WillWake(pc', l, j) && k.inner == Some(i))
    && (k0.inner != Some(i) ==> k.inner == k0.inner || k0.inner == None)
    && (forall m :: Sleepy(pc', m) ==> m == l && (k.locked || Sleepy(pc, l)))
  }

  ghost predicate Local(s: System, i: nat, p: Proc, l: nat, k: Lock, o: Owner) {
    && i < |s.procs| && (forall m :: m in p.held ==> m < |s.locks|) && (Locked(p.pc) ==> LockOf(p.pc) < |s.locks|)
    && InnerMoves(s.procs[i].pc, p.pc, i, l, LockAt(s, l).inner, k.inner)
    && TableMoves(s.procs[i].pc, p.pc, i, s.ptable, o)
    && OwnerMoves(s.procs[i], p, i, l, LockAt(s, l), k) && WakersMove(s, i, p, l, k)
  }

  predicate Locked(pc: Pc) {
    !(pc.Idle? || pc.KillSpin? || pc.KillSet? || pc.KillExit?)
  }

  function LockOf(pc: Pc): nat {
    if Locked(pc) then pc.l else 0
  }

  lemma PutPlaces(s: System, i: nat, p: Proc, l: nat, k: Lock, o: Owner)
    requires Inv(s) && Local(s, i, p, l, k, o)
    ensures Places(Put(s, i, p, l, k, o))
  {
  }

  lemma PutSpinlocks(s: System, i: nat, p: Proc, l: nat, k: Lock, o: Owner)
    requires Inv(s) && Local(s, i, p, l, k, o)
    ensures Spinlocks(Put(s, i, p, l, k, o))
  {
  }

  lemma PutOwners(s: System, i: nat, p: Proc, l: nat, k: Lock, o: Owner, j: nat, m: nat)
    requires Inv(s) && Local(s, i, p, l, k, o) && j < |s.procs| && m < |s.locks|
    ensures var t := Put(s, i, p, l, k, o); Owns(t.procs[j], m) <==> t.locks[m].locked && t.locks[m].pid == Pid(j)
  {
    hide Inv, TableMoves, InnerMoves, WakersMove;
    FactsOf(s, i);
    FactsOf(s, j);
    assert Owns(s.procs[j], m) <==> s.locks[m].locked && s.locks[m].pid == Pid(j);
    if m == l {
      assert Owns(s.procs[i], l) ==> s.locks[l].locked && s.locks[l].pid == Pid(i);
      hide Facts;
    } else {
      hide Facts;
      OtherOwner(s.procs[i], p, i, l, LockAt(s, l), k, m);
    }
  }

  /** A step at sleep-lock l changes nothing about owning another. */
  lemma OtherOwner(p: Proc, p': Proc, i: nat, l: nat, k: Lock, k': Lock, m: nat)
    requires OwnerMoves(p, p', i, l, k, k') && m != l
    ensures Owns(p', m) <==> Owns(p, m)
  {
  }

  lemma PutSetters(s: System, i: nat, p: Proc, l: nat, k: Lock, o: Owner, j: nat)
    requires Inv(s) && Local(s, i, p, l, k, o) && j < |s.procs|
    ensures var t := Put(s, i, p, l, k, o);
            t.procs[j].pc.AcqSet? && t.procs[j].pc.l < |t.locks| ==> !t.locks[t.procs[j].pc.l].locked
  {
  }

  lemma PutPids(s: System, i: nat, p: Proc, l: nat, k: Lock, o: Owner)
    requires Inv(s) && Local(s, i, p, l, k, o)
    ensures var t := Put(s, i, p, l, k, o);
            forall m :: 0 <= m < |t.locks| && t.locks[m].locked ==> 0 < t.locks[m].pid <= |t.procs|
  {
  }

  lemma PutOwnership(s: System, i: nat, p: Proc, l: nat, k: Lock, o: Owner)
    requires Inv(s) && Local(s, i, p, l, k, o)
    ensures Ownership(Put(s, i, p, l, k, o))
  {
    var t := Put(s, i, p, l, k, o);
    forall j | 0 <= j < |t.procs| ensures !Tangled(t.procs[j]) {
      FactsOf(s, j);
    }
    hide Inv, Local, Owns, Tangled;
    PutPids(s, i, p, l, k, o);
    forall j, m | 0 <= j < |t.procs| && 0 <= m < |t.locks|
      ensures Owns(t.procs[j], m) <==> t.locks[m].locked && t.locks[m].pid == Pid(j)
    {
      PutOwners(s, i, p, l, k, o, j, m);
    }
    forall j | 0 <= j < |t.procs| && t.procs[j].pc.AcqSet? && t.procs[j].pc.l < |t.locks|
      ensures !t.locks[t.procs[j].pc.l].locked {
      PutSetters(s, i, p, l, k, o, j);
    }
  }

  lemma PutAwaited(s: System, i: nat, p: Proc, l: nat, k: Lock, o: Owner)
    requires Inv(s) && Local(s, i, p, l, k, o)
    ensures Awaited(Put(s, i, p, l, k, o))
  {
    var t := Put(s, i, p, l, k, o);
    hide HoldsTable, Ownership, OwnerMoves, TableMoves, InnerMoves, Locked, Places;
    forall j, m | 0 <= j < |t.procs| && 0 <= m < |t.locks| && Sleepy(t.procs[j].pc, m) ensures Cared(t, j, m) {
      assert j != i ==> Cared(s, j, m);
      assert j == i && Sleepy(s.procs[i].pc, m) ==> Cared(s, j, m);
      var inner := s.locks[m].inner;
      assert inner.Some? ==> InnerOf(s.procs[inner.value].pc) == Some(m);
      assert m != l ==> t.locks[m] == s.locks[m] && inner != Some(i);
    }
  }

  lemma PutInv(s: System, i: nat, p: Proc, l: nat, k: Lock, o: Owner)
    requires Inv(s) && Local(s, i, p, l, k, o)
    ensures Inv(Put(s, i, p, l, k, o))
  {
    PutPlaces(s, i, p, l, k, o);
    PutSpinlocks(s, i, p, l, k, o);
    PutOwnership(s, i, p, l, k, o);
    PutAwaited(s, i, p, l, k, o);
  }

  /** What the invariant says of process i alone. */
  ghost predicate Facts(s: System, i: nat) {
    && i < |s.procs|
    && (Locked(s.procs[i].pc) ==> LockOf(s.procs[i].pc) < |s.locks|)
    && (forall l :: 0 <= l < |s.locks| ==> (InnerOf(s.procs[i].pc) == Some(l) <==> s.locks[l].inner == Some(i)))
    && (HoldsTable(s.procs[i].pc) <==> s.ptable == Process(i))
    && (forall l :: 0 <= l < |s.locks| ==> (Owns(s.procs[i], l) <==> s.locks[l].locked && s.locks[l].pid == Pid(i)))
    && !Tangled(s.procs[i]) && (forall l :: l in s.procs[i].held ==> l < |s.locks|)
    && (s.procs[i].pc.AcqSet? ==> !s.locks[LockOf(s.procs[i].pc)].locked)
  }

  lemma FactsOf(s: System, i: nat)
    requires Inv(s) && i < |s.procs|
    ensures Facts(s, i)
  {
  }

  /** A step that wakes nobody. */
  ghost predicate Plain(s: System, i: nat) {
    Facts(s, i) && !s.procs[i].pc.Waking? && !s.procs[i].pc.KillSet?
  }

  lemma GoIsPut(s: System, i: nat)
    requires Plain(s, i)
    ensures var t, l := Gone(s, i), LockOf(s.procs[i].pc);
            |t.procs| == |s.procs| && |t.locks| == |s.locks| && t == Put(s, i, t.procs[i], l, LockAt(t, l), t.ptable)
  {
  }

  lemma GoMoves(s: System, i: nat)
    requires Plain(s, i)
    ensures var t, l := Gone(s, i), LockOf(s.procs[i].pc);
      && i < |t.procs| && InnerMoves(s.procs[i].pc, t.procs[i].pc, i, l, LockAt(s, l).inner, LockAt(t, l).inner)
      && TableMoves(s.procs[i].pc, t.procs[i].pc, i, s.ptable, t.ptable)
      && (forall m :: m in t.procs[i].held ==> m < |s.locks|)
      && (Locked(t.procs[i].pc) ==> LockOf(t.procs[i].pc) < |s.locks|)
  {
  }

  /** The steps around `locked = 1` and `locked = 0`. */
  predicate Hands(pc: Pc) {
    pc.AcqSet? || pc.AcqExit? || pc.RelSpin? || pc.RelClear?
  }

  lemma GoOwner(s: System, i: nat)
    requires Plain(s, i) && Gone(s, i) != s
    ensures var t, l := Gone(s, i), LockOf(s.procs[i].pc);
            i < |t.procs| && OwnerMoves(s.procs[i], t.procs[i], i, l, LockAt(s, l), LockAt(t, l))
  {
    assert i < |s.procs|;
    hide OwnerMoves, Plain, Gone;
    if Hands(s.procs[i].pc) { GoHands(s, i); } else { GoNoHands(s, i); }
  }

  lemma GoHands(s: System, i: nat)
    requires Plain(s, i) && Gone(s, i) != s && Hands(s.procs[i].pc)
    ensures var t, l := Gone(s, i), LockOf(s.procs[i].pc);
            i < |t.procs| && OwnerMoves(s.procs[i], t.procs[i], i, l, LockAt(s, l), LockAt(t, l))
  {
  }

  lemma GoNoHands(s: System, i: nat)
    requires Plain(s, i) && Gone(s, i) != s && !Hands(s.procs[i].pc)
    ensures var t, l := Gone(s, i), LockOf(s.procs[i].pc);
            i < |t.procs| && OwnerMoves(s.procs[i], t.procs[i], i, l, LockAt(s, l), LockAt(t, l))
  {
  }

  lemma GoWakers(s: System, i: nat)
    requires Plain(s, i) && Gone(s, i) != s
    ensures var t, l := Gone(s, i), LockOf(s.procs[i].pc);
            i < |t.procs| && WakersMove(s, i, t.procs[i], l, LockAt(t, l))
  {
    assert i < |s.procs|;
    hide WakersMove, Plain, Gone;
    if InnerOf(s.procs[i].pc) == None { GoWakersOutside(s, i); } else { GoWakersInside(s, i); }
  }

  lemma GoWakersOutside(s: System, i: nat)
    requires Plain(s, i) && Gone(s, i) != s && InnerOf(s.procs[i].pc) == None
    ensures var t, l := Gone(s, i), LockOf(s.procs[i].pc);
            i < |t.procs| && WakersMove(s, i, t.procs[i], l, LockAt(t, l))
  {
    hide HoldsTable;
  }

  lemma GoWakersInside(s: System, i: nat)
    requires Plain(s, i) && Gone(s, i) != s && InnerOf(s.procs[i].pc) != None
    ensures var t, l := Gone(s, i), LockOf(s.procs[i].pc);
            i < |t.procs| && WakersMove(s, i, t.procs[i], l, LockAt(t, l))
  {
    hide HoldsTable;
  }

  /** Every step but those that wake a process up changes one process and one lock. */
  lemma GoOne(s: System, i: nat)
    requires Inv(s) && i < |s.procs| && !s.procs[i].pc.Waking? && !s.procs[i].pc.KillSet?
    ensures Inv(Gone(s, i))
  {
    assert Facts(s, i);
    hide Inv, Gone, Put, Facts, InnerMoves, TableMoves, OwnerMoves, WakersMove;
    GoIsPut(s, i);
    var t, l := Gone(s, i), LockOf(s.procs[i].pc);
    if t != s {
      GoMoves(s, i);
      GoOwner(s, i);
      GoWakers(s, i);
      PutInv(s, i, t.procs[i], l, LockAt(t, l), t.ptable);
    }
  }

  lemma WakeOneKeeps(s: System, k: nat, chan: Option<nat>)
    requires Inv(s)
    ensures Inv(WakeOne(s, k, chan))
  {
    var t := WakeOne(s, k, chan);
    if t != s {
      var l := s.procs[k].pc.l;
      assert Facts(s, k);
      hide Inv;
      assert t == Put(s, k, t.procs[k], l, LockAt(s, l), s.ptable);
      assert WakersMove(s, k, t.procs[k], l, LockAt(s, l));
      assert OwnerMoves(s.procs[k], t.procs[k], k, l, LockAt(s, l), LockAt(s, l));
      assert Local(s, k, t.procs[k], l, LockAt(s, l), s.ptable) by { hide WakersMove, OwnerMoves; }
      hide Local, WakersMove, OwnerMoves;
      PutInv(s, k, t.procs[k], l, LockAt(s, l), s.ptable);
    }
  }

  /** While process i runs wakeup1, nobody is on the way into sleep on l: that takes the inner
      spin-lock or the table's. */
  lemma NoneEntering(s: System, i: nat, j: nat)
    requires Inv(s) && i < |s.procs| && s.procs[i].pc.Waking? && j < |s.procs|
    ensures Sleepy(s.procs[j].pc, s.procs[i].pc.l) ==> s.procs[j].pc == Asleep(s.procs[i].pc.l)
  {
  }

  lemma GoneWaking(s: System, i: nat)
    requires i < |s.procs| && s.procs[i].pc.Waking?
    ensures var k, l := s.procs[i].pc.k, s.procs[i].pc.l;
      && WakeOne(s, k, Some(l)).locks == s.locks && |WakeOne(s, k, Some(l)).procs| == |s.procs|
      && WakeOne(s, k, Some(l)).procs[i] == s.procs[i]
      && (k < |s.procs| ==> WakeOne(s, k, Some(l)).procs[k].pc != Asleep(l))
      && Gone(s, i) == if k < |s.procs| then At(WakeOne(s, k, Some(l)), i, Waking(l, k + 1))
        else At(s, i, RelExit(l)).(ptable := Nobody)
  {
  }

  lemma WakingKeeps(s: System, i: nat)
    requires Inv(s) && i < |s.procs| && s.procs[i].pc.Waking?
    ensures Inv(Gone(s, i))
  {
    hide Inv, Facts, Gone, WakeOne, Sleepy, At;
    var l, k := s.procs[i].pc.l, s.procs[i].pc.k;
    GoneWaking(s, i);
    if k < |s.procs| {
      var u := WakeOne(s, k, Some(l));
      WakeOneKeeps(s, k, Some(l));
      FactsOf(u, i);
      NoSleeperAt(u, i);
      WakingOn(u, i);
    } else {
      FactsOf(s, i);
      WakingOn(s, i);
    }
  }

  lemma NoSleeperAt(s: System, i: nat)
    requires Inv(s) && i < |s.procs| && s.procs[i].pc.Waking? && s.procs[i].pc.k < |s.procs|
    requires s.procs[s.procs[i].pc.k].pc != Asleep(s.procs[i].pc.l)
    ensures forall j :: 0 <= j < |s.procs| && Sleepy(s.procs[j].pc, s.procs[i].pc.l) ==> j != s.procs[i].pc.k
  {
  }

  /** wakeup1's loop moves on once nobody sleeps in its slot. */
  lemma WakingOn(s: System, i: nat)
    requires Inv(s) && Facts(s, i) && s.procs[i].pc.Waking?
    requires forall j :: 0 <= j < |s.procs| && Sleepy(s.procs[j].pc, s.procs[i].pc.l) ==> j != s.procs[i].pc.k
    ensures var k, l := s.procs[i].pc.k, s.procs[i].pc.l;
            Inv(if k < |s.procs| then At(s, i, Waking(l, k + 1)) else At(s, i, RelExit(l)).(ptable := Nobody))
  {
    hide Inv;
    var k, l := s.procs[i].pc.k, s.procs[i].pc.l;
    var t := if k < |s.procs| then At(s, i, Waking(l, k + 1)) else At(s, i, RelExit(l)).(ptable := Nobody);
    assert t == Put(s, i, t.procs[i], l, LockAt(s, l), t.ptable);
    assert WakersMove(s, i, t.procs[i], l, LockAt(s, l));
    assert OwnerMoves(s.procs[i], t.procs[i], i, l, LockAt(s, l), LockAt(s, l));
    hide WakersMove, OwnerMoves;
    PutInv(s, i, t.procs[i], l, LockAt(s, l), t.ptable);
  }

  lemma KillKeeps(s: System, i: nat)
    requires Inv(s) && i < |s.procs| && s.procs[i].pc.KillSet?
    ensures Inv(Gone(s, i))
  {
    hide Inv, Facts, Gone, WakeOne, At;
    var u := WakeOne(s, s.procs[i].pc.t, None);
    WakeOneKeeps(s, s.procs[i].pc.t, None);
    GoneKill(s, i);
    FactsOf(u, i);
    KillOn(u, i);
  }

  lemma GoneKill(s: System, i: nat)
    requires i < |s.procs| && s.procs[i].pc.KillSet?
    ensures var u := WakeOne(s, s.procs[i].pc.t, None);
      |u.procs| == |s.procs| && u.procs[i] == s.procs[i] && Gone(s, i) == At(u, i, KillExit)
  {
  }

  lemma KillOn(s: System, i: nat)
    requires Inv(s) && Facts(s, i) && s.procs[i].pc.KillSet?
    ensures Inv(At(s, i, KillExit))
  {
    hide Inv;
    var t := At(s, i, KillExit);
    assert t == Put(s, i, t.procs[i], 0, LockAt(s, 0), s.ptable);
    assert WakersMove(s, i, t.procs[i], 0, LockAt(s, 0));
    PutInv(s, i, t.procs[i], 0, LockAt(s, 0), s.ptable);
  }

  lemma CallKeeps(s: System, i: nat, call: Call)
    requires Inv(s) && i < |s.procs|
    ensures Inv(Called(s, i, call))
  {
    hide Inv, Facts, Called, OwnerMoves, WakersMove, Put;
    var t := Called(s, i, call);
    if t != s {
      FactsOf(s, i);
      CalledIsPut(s, i, call);
      var l := LockOf(t.procs[i].pc);
      CalledOwner(s, i, call);
      CalledWakers(s, i, call);
      PutInv(s, i, t.procs[i], l, LockAt(s, l), s.ptable);
    }
  }

  lemma CalledIsPut(s: System, i: nat, call: Call)
    requires Facts(s, i) && Called(s, i, call) != s
    ensures var t := Called(s, i, call);
      && |t.procs| == |s.procs| && InnerOf(t.procs[i].pc) == InnerOf(s.procs[i].pc) == None
      && !HoldsTable(t.procs[i].pc) && !HoldsTable(s.procs[i].pc)
      && (forall m :: m in t.procs[i].held ==> m < |s.locks|)
      && (Locked(t.procs[i].pc) ==> LockOf(t.procs[i].pc) < |s.locks|)
      && var l := LockOf(t.procs[i].pc); t == Put(s, i, t.procs[i], l, LockAt(s, l), s.ptable)
  {
  }

  lemma CalledOwner(s: System, i: nat, call: Call)
    requires Facts(s, i) && Called(s, i, call) != s
    ensures var t := Called(s, i, call);
            i < |t.procs| && var l := LockOf(t.procs[i].pc);
              OwnerMoves(s.procs[i], t.procs[i], i, l, LockAt(s, l), LockAt(s, l))
  {
  }

  lemma CalledWakers(s: System, i: nat, call: Call)
    requires Facts(s, i) && Called(s, i, call) != s
    ensures var t := Called(s, i, call);
            i < |t.procs| && var l := LockOf(t.procs[i].pc); WakersMove(s, i, t.procs[i], l, LockAt(s, l))
  {
  }

  lemma NextKeeps(s: System, step: Step)
    requires Inv(s)
    ensures Inv(Next(s, step))
  {
    match step
    case Begin(i, call) => if i < |s.procs| { CallKeeps(s, i, call); }
    case Go(i) =>
      if i < |s.procs| {
        if s.procs[i].pc.Waking? { WakingKeeps(s, i); }
        else if s.procs[i].pc.KillSet? { KillKeeps(s, i); }
        else { GoOne(s, i); }
      }
    case SchedulerReleases =>
  }

  lemma {:induction false} RunKeeps(n: nat, m: nat, steps: seq<Step>)
    ensures Inv(Run(Initial(n, m), steps))
  {
    if steps != [] {
      RunKeeps(n, m, steps[..|steps| - 1]);
      hide Inv, Next;
      NextKeeps(Run(Initial(n, m), steps[..|steps| - 1]), steps[|steps| - 1]);
    }
  }

  // ---- what it means ----

  /** At most one process has been given a sleep-lock and not begun to release it. */
  lemma MutualExclusion(n: nat, m: nat, steps: seq<Step>, l: nat, i: nat, j: nat)
    requires i < n && j < n && l < m
    ensures var s := Run(Initial(n, m), steps);
            i < |s.procs| && j < |s.procs| && (l in s.procs[i].held && l in s.procs[j].held ==> i == j)
  {
    RunKeeps(n, m, steps);
    hide Inv, Run;
    SameSize(n, m, steps);
    OneHolder(Run(Initial(n, m), steps), l, i, j);
  }

  lemma OneHolder(s: System, l: nat, i: nat, j: nat)
    requires Inv(s) && i < |s.procs| && j < |s.procs| && l < |s.locks|
    ensures l in s.procs[i].held && l in s.procs[j].held ==> i == j
  {
    FactsOf(s, i);
    FactsOf(s, j);
    hide Inv;
    assert l in s.procs[i].held && l in s.procs[j].held ==> Owns(s.procs[i], l) && Owns(s.procs[j], l);
  }

  lemma {:induction false} SameSize(n: nat, m: nat, steps: seq<Step>)
    ensures var s := Run(Initial(n, m), steps); |s.procs| == n && |s.locks| == m
  {
    if steps != [] {
      SameSize(n, m, steps[..|steps| - 1]);
      hide Run;
      var s := Run(Initial(n, m), steps[..|steps| - 1]);
      NextSize(s, steps[|steps| - 1]);
      assert Run(Initial(n, m), steps) == Next(s, steps[|steps| - 1]) by { RunLast(n, m, steps); }
    }
  }

  lemma RunLast(n: nat, m: nat, steps: seq<Step>)
    requires steps != []
    ensures Run(Initial(n, m), steps) == Next(Run(Initial(n, m), steps[..|steps| - 1]), steps[|steps| - 1])
  {
  }

  lemma NextSize(s: System, step: Step)
    ensures |Next(s, step).procs| == |s.procs| && |Next(s, step).locks| == |s.locks|
  {
  }

  /** No lost wakeup: nobody sleeps on a sleep-lock that is free and whose spin-lock is free. */
  lemma NoLostWakeup(n: nat, m: nat, steps: seq<Step>, l: nat, i: nat)
    requires i < n && l < m
    ensures var s := Run(Initial(n, m), steps);
      && i < |s.procs| && l < |s.locks|
      && (s.locks[l].inner == None && !s.locks[l].locked ==> s.procs[i].pc != Asleep(l))
  {
    RunKeeps(n, m, steps);
    SameSize(n, m, steps);
    var s := Run(Initial(n, m), steps);
    assert Sleepy(s.procs[i].pc, l) ==> Cared(s, i, l);
  }

  /** What holdingsleep finds under the spin-lock is whether the caller holds the sleep-lock. */
  lemma HoldingsleepIsRight(n: nat, m: nat, steps: seq<Step>, l: nat, i: nat)
    requires i < n
    ensures var s := Run(Initial(n, m), steps);
      && i < |s.procs|
      && (s.procs[i].pc == HoldTest(l) ==>
        l < |s.locks| && (s.locks[l].locked && s.locks[l].pid == Pid(i) <==> l in s.procs[i].held))
  {
    hide Inv, Run;
    RunKeeps(n, m, steps);
    SameSize(n, m, steps);
    if Run(Initial(n, m), steps).procs[i].pc == HoldTest(l) { HolderIsOwner(Run(Initial(n, m), steps), l, i); }
  }

  lemma HolderIsOwner(s: System, l: nat, i: nat)
    requires Inv(s) && i < |s.procs| && s.procs[i].pc == HoldTest(l)
    ensures l < |s.locks| && (s.locks[l].locked && s.locks[l].pid == Pid(i) <==> l in s.procs[i].held)
  {
    hide Awaited;
  }

  /** The panics of acquire and release cannot happen: nobody takes a spin-lock it holds, or drops
      one it does not hold. */
  lemma NoSpinlockPanic(n: nat, m: nat, steps: seq<Step>, i: nat)
    requires i < n
    ensures var s := Run(Initial(n, m), steps);
      && i < |s.procs|
      && var pc := s.procs[i].pc;
      && (pc.AcqSpin? || pc.RelSpin? || pc.HoldSpin? ==> pc.l < |s.locks| && s.locks[pc.l].inner != Some(i))
      && (pc.AcqExit? || pc.SleepRelease? || pc.RelExit? || pc.HoldExit? ==>
        pc.l < |s.locks| && s.locks[pc.l].inner == Some(i))
      && (pc.SleepSpin? || pc.WakeSpin? || pc.KillSpin? ==> s.ptable != Process(i))
      && (pc.SleepSet? || pc.Resumed? || pc.Waking? || pc.KillExit? ==> s.ptable == Process(i))
  {
    RunKeeps(n, m, steps);
    SameSize(n, m, steps);
    FactsOf(Run(Initial(n, m), steps), i);
    hide Inv, Run;
  }

  // ---- progress ----

  /** Not between calls and not asleep. */
  predicate Busy(pc: Pc) {
    pc != Idle && !pc.Asleep?
  }

  /** Somebody can move as long as any process is in the middle of a call and not asleep. */
  lemma NoDeadlock(s: System, i: nat) returns (step: Step)
    requires Inv(s) && i < |s.procs| && Busy(s.procs[i].pc)
    ensures !step.Begin? && Next(s, step) != s
  {
    if s.ptable == Scheduler { return SchedulerReleases; }
    if s.ptable.Process? { return Go(s.ptable.i); }
    var pc := s.procs[i].pc;
    if (pc.AcqSpin? || pc.RelSpin? || pc.HoldSpin?) && s.locks[pc.l].inner.Some? {
      return Go(s.locks[pc.l].inner.value);
    }
    return Go(i);
  }

  /** Once nobody can move, every sleeper waits for a sleep-lock that a process holds between calls. */
  lemma SleepersWaitForHolders(s: System, i: nat, l: nat) returns (j: nat)
    requires Inv(s) && i < |s.procs| && l < |s.locks| && s.procs[i].pc == Asleep(l)
    requires forall step: Step :: !step.Begin? ==> Next(s, step) == s
    ensures j < |s.procs| && l in s.procs[j].held
  {
    if k :| 0 <= k < |s.procs| && Busy(s.procs[k].pc) {
      var step := NoDeadlock(s, k);
      assert false;
    }
    assert Cared(s, i, l);
    assert s.locks[l].inner.Some? ==> Busy(s.procs[s.locks[l].inner.value].pc);
    j := s.locks[l].pid - 1;
    assert Owns(s.procs[j], l);
  }
}
