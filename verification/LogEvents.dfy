/** What a run of the logging layer makes durable, read off its events alone: which log_writes come
    before a header write that a crash does not forestall, and with which data. */
module LogEvents {
  import opened Basics
  import opened Blocks
  import opened Wal
  import opened LogProtocol

  /** The machine after the first k events. */
  function At(c: Config, s: State, es: seq<Event>, k: nat): State
    requires k <= |es|
  {
    if CanRun(c, s, es[..k]) then Run(c, s, es[..k]) else s
  }

  /** The block list in the header on disk. */
  function HeadOf(l: Layout, d: Disk): seq<nat> {
    if l.start < |d| && Word(d[l.start], 0) <= LOGSIZE then HeadList(d[l.start]) else []
  }

  /** Event m is the write of a header with blocks in it over one with none. */
  predicate CommitPoint(c: Config, s: State, es: seq<Event>, m: nat) {
    && m < |es| && es[m].CommitWrite?
    && HeadOf(c.l, At(c, s, es, m).disk) == [] && HeadOf(c.l, At(c, s, es, m + 1).disk) != []
  }

  /** Event j is a log_write, and a commit point follows before any crash. */
  ghost predicate CommittedWrite(c: Config, s: State, es: seq<Event>, j: nat) {
    j < |es| && es[j].LogWrite? && exists m: nat :: CommittedBy(c, s, es, j, m)
  }

  ghost predicate CommittedBy(c: Config, s: State, es: seq<Event>, j: nat, m: nat) {
    j < m && CommitPoint(c, s, es, m) && forall x :: j < x < m ==> !es[x].Crash?
  }

  /** Event j is a log_write, and neither a commit point nor a crash has followed. */
  ghost predicate OpenWrite(c: Config, s: State, es: seq<Event>, j: nat) {
    && j < |es| && es[j].LogWrite?
    && forall x :: j < x < |es| ==> !es[x].Crash? && !CommitPoint(c, s, es, x)
  }

  /** Event j is the last committed log_write to block b. */
  ghost predicate LastCommitted(c: Config, s: State, es: seq<Event>, b: nat, j: nat) {
    && CommittedWrite(c, s, es, j) && es[j].b == b
    && forall x: nat :: x > j && CommittedWrite(c, s, es, x) ==> es[x].b != b
  }

  /** Event j is the last log_write to block b that is committed or open. */
  ghost predicate LastWritten(c: Config, s: State, es: seq<Event>, b: nat, j: nat) {
    && (CommittedWrite(c, s, es, j) || OpenWrite(c, s, es, j)) && es[j].b == b
    && forall x: nat :: x > j && (CommittedWrite(c, s, es, x) || OpenWrite(c, s, es, x)) ==> es[x].b != b
  }

  // ---- runs event by event ----

  lemma {:induction false} RunSnoc(c: Config, s: State, es: seq<Event>)
    requires CanRun(c, s, es) && es != []
    ensures var n := |es| - 1;
      && CanRun(c, s, es[..n]) && Enabled(c, Run(c, s, es[..n]), es[n])
      && Run(c, s, es) == Do(c, Run(c, s, es[..n]), es[n])
    decreases |es|
  {
    hide Enabled, Do;
    var n := |es| - 1;
    if n > 0 {
      RunSnoc(c, Do(c, s, es[0]), es[1..]);
      assert es[1..][..n - 1] == es[..n][1..];
    }
  }

  lemma PointsAgree(c: Config, s: State, es: seq<Event>, k: nat, m: nat)
    requires m < k <= |es|
    ensures CommitPoint(c, s, es[..k], m) <==> CommitPoint(c, s, es, m)
  {
    assert es[..k][..m] == es[..m] && es[..k][..m + 1] == es[..m + 1];
  }

  /** The open log_writes, in order. */
  function Open(c: Config, s: State, es: seq<Event>): seq<nat>
    decreases |es|
  {
    if es == [] then []
    else
      var n := |es| - 1;
      if es[n].Crash? || CommitPoint(c, s, es, n) then []
      else Open(c, s, es[..n]) + if es[n].LogWrite? then [n] else []
  }

  /** The committed ones, in order. */
  function Done(c: Config, s: State, es: seq<Event>): seq<nat>
    decreases |es|
  {
    if es == [] then []
    else
      var n := |es| - 1;
      Done(c, s, es[..n]) + if CommitPoint(c, s, es, n) then Open(c, s, es[..n]) else []
  }

  predicate Increasing(js: seq<nat>, n: nat) {
    (forall i :: 0 <= i < |js| ==> js[i] < n) && forall i, k :: 0 <= i < k < |js| ==> js[i] < js[k]
  }

  lemma MoreIncreasing(ds: seq<nat>, os: seq<nat>, n: nat)
    requires Increasing(ds + os, n)
    ensures Increasing(ds + (os + [n]), n + 1) && Increasing(ds + [], n + 1) && Increasing((ds + os) + [], n + 1)
    ensures Increasing(ds + os, n + 1)
  {
    var js := ds + os;
    assert ds + (os + [n]) == js + [n] && js + [] == js;
    assert ds + [] == js[..|ds|];
  }

  lemma {:induction false} InOrder(c: Config, s: State, es: seq<Event>)
    ensures Increasing(Done(c, s, es) + Open(c, s, es), |es|)
    decreases |es|
  {
    if es != [] {
      var n := |es| - 1;
      InOrder(c, s, es[..n]);
      hide CommitPoint;
      var ds, os := Done(c, s, es[..n]), Open(c, s, es[..n]);
      LedgerStep(c, s, es);
      hide Open, Done;
      MoreIncreasing(ds, os, n);
    }
  }

  lemma {:induction false} OpenMeans(c: Config, s: State, es: seq<Event>, j: nat)
    ensures j in Open(c, s, es) <==> OpenWrite(c, s, es, j)
    decreases |es|
  {
    if es != [] {
      var n := |es| - 1;
      OpenMeans(c, s, es[..n], j);
      forall m: nat | m < n ensures CommitPoint(c, s, es[..n], m) <==> CommitPoint(c, s, es, m) {
        PointsAgree(c, s, es, n, m);
      }
      hide CommitPoint;
    }
  }

  lemma CommittedMore(c: Config, s: State, es: seq<Event>, j: nat)
    requires es != []
    ensures var n := |es| - 1; CommittedWrite(c, s, es, j) <==>
      CommittedWrite(c, s, es[..n], j) || (CommitPoint(c, s, es, n) && OpenWrite(c, s, es[..n], j))
  {
    var n := |es| - 1;
    forall m: nat | m < n
      ensures CommitPoint(c, s, es[..n], m) <==> CommitPoint(c, s, es, m)
      ensures CommittedBy(c, s, es[..n], j, m) <==> CommittedBy(c, s, es, j, m)
    {
      PointsAgree(c, s, es, n, m);
      assert CommitPoint(c, s, es, m) ==> forall x :: j < x < m ==> es[..n][x] == es[x];
    }
    assert forall x :: 0 <= x < n ==> es[..n][x] == es[x];
    Past(c, s, es, n);
    hide CommitPoint;
    if CommittedWrite(c, s, es, j) {
      var m: nat :| CommittedBy(c, s, es, j, m);
      if m < n {
        assert CommittedBy(c, s, es[..n], j, m);
      } else if !OpenWrite(c, s, es[..n], j) {
        var x :| j < x < n && CommitPoint(c, s, es[..n], x);
        assert CommittedBy(c, s, es[..n], j, x);
      }
    }
    if CommittedWrite(c, s, es[..n], j) {
      var m: nat :| CommittedBy(c, s, es[..n], j, m);
      assert CommittedBy(c, s, es, j, m);
    }
    if CommitPoint(c, s, es, n) && OpenWrite(c, s, es[..n], j) { assert CommittedBy(c, s, es, j, n); }
  }

  lemma Past(c: Config, s: State, es: seq<Event>, n: nat)
    requires n <= |es|
    ensures forall m: nat :: CommitPoint(c, s, es[..n], m) ==> m < n
    ensures forall m: nat :: CommitPoint(c, s, es, m) ==> m < |es|
  {
  }

  lemma {:induction false} DoneMeans(c: Config, s: State, es: seq<Event>, j: nat)
    ensures j in Done(c, s, es) <==> CommittedWrite(c, s, es, j)
    decreases |es|
  {
    if es != [] {
      DoneMeans(c, s, es[..|es| - 1], j);
      OpenMeans(c, s, es[..|es| - 1], j);
      CommittedMore(c, s, es, j);
      hide CommitPoint, CommittedWrite, OpenWrite;
    } else {
      assert !CommittedWrite(c, s, es, j);
    }
  }

  // ---- the machine agrees ----

  /** What the header on disk lists during a commit: nothing until the header write, then the group. */
  lemma HeadDuringCommit(l: Layout, base: Disk, bl: seq<nat>, vals: seq<Block>, k: nat, disk: Disk)
    requires CommitImage(l, base, bl, vals, k, disk) && bl != []
    ensures HeadOf(l, disk) == if |bl| < k < 2 * |bl| + 2 then bl else []
  {
    hide Word, HeadList, Apply;
    var ws := Wal.CommitWrites(l, base, bl, vals);
    if k <= |bl| {
      TornBeforeHeader(l, base, bl, vals, k);
    } else if k == |ws| {
      hide Wal.CommitWrites;
      CommitPrefix(l, base, bl, vals, k);
    } else {
      HeadWhileInstalling(l, base, bl, vals, k, disk);
    }
  }

  lemma HeadWhileInstalling(l: Layout, base: Disk, bl: seq<nat>, vals: seq<Block>, k: nat, disk: Disk)
    requires CommitImage(l, base, bl, vals, k, disk) && |bl| < k < 2 * |bl| + 2
    ensures HeadOf(l, disk) == bl
  {
    hide Word, HeadList, Apply, PrepareWrites, RecoverWrites, LogList;
    var ws := Wal.CommitWrites(l, base, bl, vals);
    var pre, m := PrepareWrites(l, base, bl, vals), k - |bl| - 1;
    Prepared(l, base, bl, vals);
    var e := Apply(base, pre);
    assert ws[..k] == pre + RecoverWrites(l, e)[..m];
    hide Wal.CommitWrites;
    ApplyConcat(base, pre, RecoverWrites(l, e)[..m]);
    InstalledAt(l, e, m, l.start);
  }

  /** A write of commit fills the header exactly if it closes the group. */
  lemma HeaderWrite(c: Config, t: State)
    requires Inv(c, t) && Enabled(c, t, CommitWrite)
    ensures var u := Do(c, t, CommitWrite);
      && t.phase.Committing? && t.active == [] && !u.phase.TooBig?
      && if HeadOf(c.l, t.disk) == [] && HeadOf(c.l, u.disk) != [] then u.groups == t.groups + [t.cur] && u.cur == []
         else u.groups == t.groups && u.cur == t.cur
  {
    CommitDo(c, t);
    InCommit(c, t);
    var k, base, vals, disk := t.phase.k, t.phase.base, t.phase.vals, Do(c, t, CommitWrite).disk;
    var w := CommitWriteOf(c.l, t, k);
    hide Inv, Do, Enabled, CommittingOk, HeadOf, CommitImage, CommitWriteOf, Coherent, CanWrite;
    ImagesAround(c, t, k, base, vals, w, disk);
    HeadsOf(c.l, base, t.bl, vals, k, t.disk, disk);
  }

  lemma ImagesAround(c: Config, t: State, k: nat, base: Disk, vals: seq<Block>, w: Write, disk: Disk)
    requires Coherent(c, t) && |t.disk| == |c.d0| && CommittingOk(c, t, k, base, vals)
    requires t.bl != [] && k < 2 * |t.bl| + 2 && CanWrite(c.l, t) && w == CommitWriteOf(c.l, t, k)
    requires w.at < |t.disk| && disk == t.disk[w.at := w.data]
    ensures CommitImage(c.l, base, t.bl, vals, k, t.disk) && CommitImage(c.l, base, t.bl, vals, k + 1, disk)
  {
    hide CommittingOk, CommitImage, CommitWriteOf, Coherent, CanWrite, Wal.CommitWrites;
    CommitWriteStep(c, t, k, base, vals);
  }

  lemma HeadsOf(l: Layout, base: Disk, bl: seq<nat>, vals: seq<Block>, k: nat, disk: Disk, disk': Disk)
    requires CommitImage(l, base, bl, vals, k, disk) && CommitImage(l, base, bl, vals, k + 1, disk')
    requires bl != [] && k < 2 * |bl| + 2
    ensures HeadOf(l, disk) == [] && HeadOf(l, disk') != [] <==> k == |bl|
  {
    hide CommitImage, HeadOf;
    HeadDuringCommit(l, base, bl, vals, k, disk);
    HeadDuringCommit(l, base, bl, vals, k + 1, disk');
  }

  lemma CommitDo(c: Config, t: State)
    requires Enabled(c, t, CommitWrite)
    ensures t.phase.Committing? && t.bl != [] && t.phase.k < 2 * |t.bl| + 2 && CanWrite(c.l, t)
    ensures var w, u := CommitWriteOf(c.l, t, t.phase.k), Do(c, t, CommitWrite);
      && w.at < |t.disk| && u.disk == t.disk[w.at := w.data] && !u.phase.TooBig?
      && u.groups == (if t.phase.k == |t.bl| then t.groups + [t.cur] else t.groups)
      && u.cur == if t.phase.k == |t.bl| then [] else t.cur
  {
    hide CommitWriteOf, View;
  }

  lemma InCommit(c: Config, t: State)
    requires Inv(c, t) && t.phase.Committing?
    ensures Coherent(c, t) && |t.disk| == |c.d0| && t.active == []
    ensures CommittingOk(c, t, t.phase.k, t.phase.base, t.phase.vals)
  {
    hide CommitImage, Survives, LineOk, WellFormed;
  }

  /** The commit points are the header writes, each of which closes a group. */
  lemma PointClosesGroup(c: Config, s: State, es: seq<Event>)
    requires CanRun(c, s, es) && es != [] && es[|es| - 1].CommitWrite? && Inv(c, At(c, s, es, |es| - 1))
    ensures var n := |es| - 1;
            var t, u := At(c, s, es, n), At(c, s, es, n + 1);
      && t.phase.Committing? && t.active == [] && !u.phase.TooBig?
      && if CommitPoint(c, s, es, n) then u.groups == t.groups + [t.cur] && u.cur == []
         else u.groups == t.groups && u.cur == t.cur
  {
    LastStep(c, s, es);
    hide At, CanRun, Inv, Do, Enabled, HeadOf;
    HeaderWrite(c, At(c, s, es, |es| - 1));
  }

  lemma LastStep(c: Config, s: State, es: seq<Event>)
    requires CanRun(c, s, es) && es != []
    ensures var n := |es| - 1;
      Enabled(c, At(c, s, es, n), es[n]) && At(c, s, es, n + 1) == Do(c, At(c, s, es, n), es[n])
  {
    RunSnoc(c, s, es);
    assert es[..|es|] == es;
  }

  function Flat(groups: seq<seq<Rec>>): seq<Rec> {
    if groups == [] then [] else Flat(groups[..|groups| - 1]) + groups[|groups| - 1]
  }

  lemma FlatSnoc(groups: seq<seq<Rec>>, g: seq<Rec>)
    ensures Flat(groups + [g]) == Flat(groups) + g
  {
  }

  /** These records are what the log_write events js say. */
  predicate Says(es: seq<Event>, js: seq<nat>, g: seq<Rec>) {
    && |g| == |js|
    && forall i :: 0 <= i < |js| ==>
         js[i] < |es| && es[js[i]].LogWrite? && g[i].b == es[js[i]].b && g[i].data == es[js[i]].data
  }

  ghost predicate Told(c: Config, s: State, es: seq<Event>)
    requires CanRun(c, s, es)
  {
    var t := Run(c, s, es);
    (t.phase.TooBig? || Says(es, Open(c, s, es), t.cur)) && Says(es, Done(c, s, es), Flat(t.groups))
  }

  lemma SaysOn(es: seq<Event>, n: nat, js: seq<nat>, g: seq<Rec>)
    requires n <= |es| && Says(es[..n], js, g)
    ensures Says(es, js, g)
  {
  }

  /** What the other events do to the machine's records. */
  lemma RecordsKept(c: Config, t: State, e: Event)
    requires Enabled(c, t, e) && !e.CommitWrite?
    ensures var u := Do(c, t, e);
      && u.groups == t.groups && (t.phase.TooBig? ==> e.Crash?) && (u.phase.TooBig? ==> e.LogWrite?)
      && (e.Crash? ==> u.cur == [])
      && (!e.Crash? && !e.LogWrite? ==> u.cur == t.cur)
      && (e.LogWrite? && !u.phase.TooBig? ==>
            |u.cur| == |t.cur| + 1 && u.cur[..|t.cur|] == t.cur &&
            u.cur[|t.cur|].b == e.b && u.cur[|t.cur|].data == e.data)
  {
    hide View, HeadList, CommitWriteOf;
  }

  lemma SaysMore(es: seq<Event>, js: seq<nat>, g: seq<Rec>, n: nat, g': seq<Rec>)
    requires Says(es, js, g) && n < |es| && es[n].LogWrite? && |g'| == |g| + 1 && g'[..|g|] == g
    requires g'[|g|].b == es[n].b && g'[|g|].data == es[n].data
    ensures Says(es, js + [n], g')
  {
    assert forall i :: 0 <= i < |g| ==> g'[i] == g'[..|g|][i];
  }

  lemma SaysJoin(es: seq<Event>, js: seq<nat>, g: seq<Rec>, ks: seq<nat>, h: seq<Rec>)
    requires Says(es, js, g) && Says(es, ks, h)
    ensures Says(es, js + ks, g + h)
  {
  }

  lemma LedgerStep(c: Config, s: State, es: seq<Event>)
    requires es != []
    ensures var n := |es| - 1; var point := CommitPoint(c, s, es, n);
      && Open(c, s, es) == (if es[n].Crash? || point then []
                            else if es[n].LogWrite? then Open(c, s, es[..n]) + [n] else Open(c, s, es[..n]))
      && Done(c, s, es) == if point then Done(c, s, es[..n]) + Open(c, s, es[..n]) else Done(c, s, es[..n])
    ensures CommitPoint(c, s, es, |es| - 1) ==> es[|es| - 1].CommitWrite?
  {
  }

  lemma ToldOn(c: Config, s: State, es: seq<Event>)
    requires CanRun(c, s, es) && es != []
    requires CanRun(c, s, es[..|es| - 1]) && Told(c, s, es[..|es| - 1]) && Inv(c, Run(c, s, es[..|es| - 1]))
    ensures Told(c, s, es)
  {
    var n := |es| - 1;
    RunSnoc(c, s, es);
    var t, u, e := Run(c, s, es[..n]), Run(c, s, es), es[n];
    LedgerStep(c, s, es);
    assert es[..n + 1] == es;
    if e.CommitWrite? { PointClosesGroup(c, s, es); } else { RecordsKept(c, t, e); }
    hide Run, CanRun, Inv, CommitPoint, Flat, Do, Enabled, Open, Done, Says;
    SaysOn(es, n, Done(c, s, es[..n]), Flat(t.groups));
    NothingSaid(es);
    if !t.phase.TooBig? {
      SaysOn(es, n, Open(c, s, es[..n]), t.cur);
      if CommitPoint(c, s, es, n) {
        FlatSnoc(t.groups, t.cur);
        SaysJoin(es, Done(c, s, es[..n]), Flat(t.groups), Open(c, s, es[..n]), t.cur);
      } else if e.LogWrite? && !u.phase.TooBig? {
        SaysMore(es, Open(c, s, es[..n]), t.cur, n, u.cur);
      }
    }
  }

  lemma NothingSaid(es: seq<Event>)
    ensures Says(es, [], [])
  {
  }

  lemma {:induction false} RunTold(c: Config, s: State, es: seq<Event>)
    requires Init(c, s) && CanRun(c, s, es)
    ensures Told(c, s, es) && Inv(c, Run(c, s, es))
    decreases |es|
  {
    InitHolds(c, s);
    RunKeeps(c, s, es);
    if es != [] {
      RunSnoc(c, s, es);
      RunTold(c, s, es[..|es| - 1]);
      hide Inv, Run, CanRun, Told;
      ToldOn(c, s, es);
    }
  }

  // ---- the last write wins ----

  lemma {:induction false} PlayConcat(d: Disk, g: seq<Rec>, h: seq<Rec>)
    ensures Play(d, g + h) == Play(Play(d, g), h)
    decreases |h|
  {
    if h == [] {
      assert g + h == g;
    } else {
      assert (g + h)[..|g + h| - 1] == g + h[..|h| - 1];
      PlayConcat(d, g, h[..|h| - 1]);
    }
  }

  lemma {:induction false} ReplayFlat(d: Disk, groups: seq<seq<Rec>>)
    ensures Replay(d, groups) == Play(d, Flat(groups))
    decreases |groups|
  {
    if groups != [] {
      var n := |groups| - 1;
      ReplayFlat(d, groups[..n]);
      PlayConcat(d, Flat(groups[..n]), groups[n]);
      hide Play;
    }
  }

  lemma {:induction false} PlayLast(d: Disk, g: seq<Rec>, b: nat)
    requires b < |d|
    ensures (forall i :: 0 <= i < |g| ==> g[i].b != b) ==> Play(d, g)[b] == d[b]
    ensures forall i :: 0 <= i < |g| && g[i].b == b && (forall k :: i < k < |g| ==> g[k].b != b) ==>
      Play(d, g)[b] == g[i].data
    decreases |g|
  {
    if g != [] { PlayLast(d, g[..|g| - 1], b); }
  }

  /** What log_writes js leave in block b: the data of the last one to it. */
  lemma SaidLast(d: Disk, es: seq<Event>, js: seq<nat>, g: seq<Rec>, b: nat, j: nat)
    requires Says(es, js, g) && Increasing(js, |es|) && b < |d|
    ensures (forall x: nat :: x in js ==> es[x].b != b) ==> Play(d, g)[b] == d[b]
    ensures j in js && es[j].b == b && (forall x: nat :: x in js && x > j ==> es[x].b != b) ==>
      Play(d, g)[b] == es[j].data
  {
    PlayLast(d, g, b);
    hide Play;
    if j in js && es[j].b == b && (forall x: nat :: x in js && x > j ==> es[x].b != b) {
      var i :| 0 <= i < |js| && js[i] == j;
      forall k | i < k < |g| ensures g[k].b != b { assert js[k] in js && js[k] > j; }
    }
    if forall x: nat :: x in js ==> es[x].b != b {
      forall k | 0 <= k < |g| ensures g[k].b != b { assert js[k] in js; }
    }
  }

  /** Durability, by the events alone: cut the power at any moment and crash recovery any number of
      times; a home block then holds what the last committed log_write to it was given, and what it
      held at first if there is none. */
  lemma LastCommittedWriteWins(c: Config, s: State, es: seq<Event>, crashes: seq<nat>, b: nat, j: nat)
    requires Init(c, s) && CanRun(c, s, es) && Home(c.l, c.d0, b)
    ensures WellFormed(c.l, Run(c, s, es).disk) && b < |CrashingRecovery(c.l, Run(c, s, es).disk, crashes)|
    ensures (forall x: nat :: CommittedWrite(c, s, es, x) ==> es[x].b != b) ==>
      CrashingRecovery(c.l, Run(c, s, es).disk, crashes)[b] == c.d0[b]
    ensures LastCommitted(c, s, es, b, j) ==>
      CrashingRecovery(c.l, Run(c, s, es).disk, crashes)[b] == es[j].data
  {
    hide Init, CanRun, Run, Replay, Play, CommittedWrite, CrashingRecovery, WellFormed, Quiet, Open, Done, Flat, Inv;
    Durability(c, s, es, crashes);
    RunTold(c, s, es);
    InOrder(c, s, es);
    var groups, js := Run(c, s, es).groups, Done(c, s, es);
    ReplayFlat(c.d0, groups);
    forall x: nat ensures x in js <==> CommittedWrite(c, s, es, x) { DoneMeans(c, s, es, x); }
    assert Increasing(js, |es|) by { Parts(js, Open(c, s, es), |es|); }
    SaidLast(c.d0, es, js, Flat(groups), b, j);
  }

  lemma Parts(js: seq<nat>, ks: seq<nat>, n: nat)
    requires Increasing(js + ks, n)
    ensures Increasing(js, n)
  {
    assert js == (js + ks)[..|js|];
  }

  /** While operations run, readers see what the last log_write to a block was given, committed or
      still open. */
  lemma ReadersSeeLastWrite(c: Config, s: State, es: seq<Event>, b: nat, j: nat)
    requires Init(c, s) && CanRun(c, s, es) && Home(c.l, c.d0, b) && Run(c, s, es).phase.Running?
    ensures b < |Run(c, s, es).disk|
    ensures (forall x: nat :: CommittedWrite(c, s, es, x) || OpenWrite(c, s, es, x) ==> es[x].b != b) ==>
      View(Run(c, s, es), b) == c.d0[b]
    ensures LastWritten(c, s, es, b, j) ==> View(Run(c, s, es), b) == es[j].data
  {
    hide Init, CanRun, Run, Replay, Play, CommittedWrite, OpenWrite, Open, Done, Flat, Inv, View;
    NothingEarly(c, s, es);
    RunTold(c, s, es);
    InOrder(c, s, es);
    var t, ds, os := Run(c, s, es), Done(c, s, es), Open(c, s, es);
    ReplayFlat(c.d0, t.groups);
    PlayConcat(c.d0, Flat(t.groups), t.cur);
    SaysJoin(es, ds, Flat(t.groups), os, t.cur);
    forall x: nat ensures x in ds + os <==> CommittedWrite(c, s, es, x) || OpenWrite(c, s, es, x) {
      DoneMeans(c, s, es, x);
      OpenMeans(c, s, es, x);
    }
    SaidLast(c.d0, es, ds + os, Flat(t.groups) + t.cur, b, j);
  }

  /** Once the machine runs with no operation under way, every log_write that no crash has followed
      is committed. */
  lemma FinishedIsCommitted(c: Config, s: State, es: seq<Event>, j: nat)
    requires Init(c, s) && CanRun(c, s, es) && Run(c, s, es).phase.Running? && Run(c, s, es).active == []
    requires j < |es| && es[j].LogWrite? && forall x :: j < x < |es| ==> !es[x].Crash?
    ensures CommittedWrite(c, s, es, j)
  {
    hide Init, CanRun, Run, CommitPoint, Open, Flat;
    RunTold(c, s, es);
    OpenMeans(c, s, es, j);
    assert Run(c, s, es).cur == [] by { IdleIsClosed(c, Run(c, s, es)); }
    assert j !in Open(c, s, es);
    var m :| j < m < |es| && CommitPoint(c, s, es, m);
    assert CommittedBy(c, s, es, j, m);
  }

  lemma IdleIsClosed(c: Config, t: State)
    requires Inv(c, t) && t.phase.Running? && t.active == []
    ensures t.cur == []
  {
  }

  // ---- operations ----

  /** How many operations have begun. */
  function Begun(es: seq<Event>): nat {
    if es == [] then 0 else Begun(es[..|es| - 1]) + if es[|es| - 1].BeginOp? then 1 else 0
  }

  /** The operations under way, numbered in the order of their begin_ops. */
  function Ongoing(es: seq<Event>): seq<nat> {
    if es == [] then []
    else
      var ops := Ongoing(es[..|es| - 1]);
      match es[|es| - 1]
      case BeginOp => ops + [Begun(es[..|es| - 1])]
      case EndOp(i) => if i < |ops| then ops[..i] + ops[i + 1..] else ops
      case Crash => []
      case _ => ops
  }

  /** Event j is a log_write of operation op. */
  predicate WriteOf(es: seq<Event>, j: nat, op: nat) {
    j < |es| && es[j].LogWrite? && es[j].i < |Ongoing(es[..j])| && Ongoing(es[..j])[es[j].i] == op
  }

  predicate Numbered(es: seq<Event>, t: State) {
    && t.nextOp == Begun(es) && |t.active| == |Ongoing(es)|
    && forall i :: 0 <= i < |t.active| ==> t.active[i].op == Ongoing(es)[i]
  }

  lemma NumberedOn(c: Config, t: State, es: seq<Event>)
    requires es != [] && Numbered(es[..|es| - 1], t) && Enabled(c, t, es[|es| - 1])
    ensures Numbered(es, Do(c, t, es[|es| - 1]))
  {
    var ops, e := Ongoing(es[..|es| - 1]), es[|es| - 1];
    var u := Do(c, t, e);
    ActiveMoves(c, t, e);
    hide Do, Enabled;
    assert Ongoing(es) == match e
                          case BeginOp => ops + [t.nextOp]
                          case EndOp(i) => if i < |ops| then ops[..i] + ops[i + 1..] else ops
                          case Crash => []
                          case _ => ops;
  }

  lemma ActiveMoves(c: Config, t: State, e: Event)
    requires Enabled(c, t, e)
    ensures var u := Do(c, t, e);
      && u.nextOp == t.nextOp + (if e.BeginOp? then 1 else 0)
      && (e.BeginOp? ==> u.active == t.active + [Active(t.nextOp, 0)])
      && (e.EndOp? ==> e.i < |t.active| && u.active == t.active[..e.i] + t.active[e.i + 1..])
      && (e.Crash? ==> u.active == [])
      && (!e.BeginOp? && !e.EndOp? && !e.Crash? ==>
            |u.active| == |t.active| && forall i :: 0 <= i < |t.active| ==> u.active[i].op == t.active[i].op)
  {
    hide CommitWriteOf, View, HeadList;
  }

  lemma {:induction false} RunNumbered(c: Config, s: State, es: seq<Event>)
    requires Init(c, s) && CanRun(c, s, es)
    ensures Numbered(es, Run(c, s, es))
    decreases |es|
  {
    if es != [] {
      RunSnoc(c, s, es);
      RunNumbered(c, s, es[..|es| - 1]);
      hide Run, CanRun, Enabled, Do, Numbered;
      NumberedOn(c, Run(c, s, es[..|es| - 1]), es);
    }
  }

  lemma {:induction false} OngoingBegun(es: seq<Event>)
    ensures forall op :: op in Ongoing(es) ==> op < Begun(es)
    decreases |es|
  {
    if es != [] { OngoingBegun(es[..|es| - 1]); }
  }

  /** An operation that is over does not come back. */
  lemma {:induction false} OverForGood(es: seq<Event>, a: nat, b: nat, op: nat)
    requires a <= b <= |es| && op < Begun(es[..a]) && op !in Ongoing(es[..a])
    ensures op < Begun(es[..b]) && op !in Ongoing(es[..b])
    decreases b
  {
    if a < b {
      OverForGood(es, a, b - 1, op);
      assert es[..b][..b - 1] == es[..b - 1] && es[..b][b - 1] == es[b - 1];
    }
  }

  /** While an operation is under way there is neither a crash nor a commit point. */
  lemma NoneBetween(c: Config, s: State, es: seq<Event>, j: nat, k: nat, op: nat, x: nat)
    requires Init(c, s) && CanRun(c, s, es) && WriteOf(es, j, op) && WriteOf(es, k, op) && j < x < k
    ensures !es[x].Crash? && !CommitPoint(c, s, es, x)
  {
    OngoingBegun(es[..j]);
    assert es[..x + 1][..x] == es[..x];
    if op !in Ongoing(es[..x]) {
      StillThere(es, j, x, op);
      OverForGood(es, x, k, op);
    }
    if es[x].Crash? {
      BegunGrows(es, j, x + 1);
      OverForGood(es, x + 1, k, op);
    }
    if CommitPoint(c, s, es, x) { PointIsIdle(c, s, es, x); }
  }

  /** At a commit point no operation is under way. */
  lemma PointIsIdle(c: Config, s: State, es: seq<Event>, x: nat)
    requires Init(c, s) && CanRun(c, s, es) && CommitPoint(c, s, es, x)
    ensures Ongoing(es[..x]) == []
  {
    hide Init, CanRun, Run, Inv, Told;
    PrefixRuns(c, s, es, x + 1);
    PrefixRuns(c, s, es, x);
    RunNumbered(c, s, es[..x]);
    RunTold(c, s, es[..x]);
    var fs := es[..x + 1];
    assert fs[..x] == es[..x] && fs[..x + 1] == fs && fs[x] == es[x];
    PointsAgree(c, s, es, x + 1, x);
    hide CommitPoint;
    PointClosesGroup(c, s, fs);
  }

  lemma {:induction false} PrefixRuns(c: Config, s: State, es: seq<Event>, k: nat)
    requires CanRun(c, s, es) && k <= |es|
    ensures CanRun(c, s, es[..k])
    decreases |es| - k
  {
    if k < |es| {
      PrefixRuns(c, s, es, k + 1);
      RunSnoc(c, s, es[..k + 1]);
      assert es[..k + 1][..k] == es[..k];
    } else {
      assert es[..k] == es;
    }
  }

  lemma {:induction false} BegunGrows(es: seq<Event>, a: nat, b: nat)
    requires a <= b <= |es|
    ensures Begun(es[..a]) <= Begun(es[..b])
    decreases b
  {
    if a < b {
      BegunGrows(es, a, b - 1);
      assert es[..b][..b - 1] == es[..b - 1];
    }
  }

  lemma StillThere(es: seq<Event>, a: nat, b: nat, op: nat)
    requires a <= b <= |es| && op in Ongoing(es[..a])
    ensures op < Begun(es[..b])
  {
    OngoingBegun(es[..a]);
    BegunGrows(es, a, b);
  }

  /** All or nothing, by the events alone: of the log_writes of one operation, either all are
      committed or none is. */
  lemma AllOrNothing(c: Config, s: State, es: seq<Event>, op: nat, j: nat, k: nat)
    requires Init(c, s) && CanRun(c, s, es) && WriteOf(es, j, op) && WriteOf(es, k, op)
    ensures CommittedWrite(c, s, es, j) <==> CommittedWrite(c, s, es, k)
  {
    if j < k { Together(c, s, es, op, j, k); }
    if k < j { Together(c, s, es, op, k, j); }
  }

  lemma Together(c: Config, s: State, es: seq<Event>, op: nat, j: nat, k: nat)
    requires Init(c, s) && CanRun(c, s, es) && WriteOf(es, j, op) && WriteOf(es, k, op) && j < k
    ensures CommittedWrite(c, s, es, j) <==> CommittedWrite(c, s, es, k)
  {
    forall x: nat | j < x < k ensures !es[x].Crash? && !CommitPoint(c, s, es, x) { NoneBetween(c, s, es, j, k, op, x); }
    assert !CommitPoint(c, s, es, k);
    hide Init, CanRun, CommitPoint, Ongoing;
    SameFate(c, s, es, j, k);
  }

  lemma SameFate(c: Config, s: State, es: seq<Event>, j: nat, k: nat)
    requires j < k < |es| && es[j].LogWrite? && es[k].LogWrite? && !CommitPoint(c, s, es, k)
    requires forall x: nat :: j < x < k ==> !es[x].Crash? && !CommitPoint(c, s, es, x)
    ensures CommittedWrite(c, s, es, j) <==> CommittedWrite(c, s, es, k)
  {
    Past(c, s, es, |es|);
    hide CommitPoint;
    if CommittedWrite(c, s, es, j) {
      var m: nat :| CommittedBy(c, s, es, j, m);
      assert CommittedBy(c, s, es, k, m);
    }
    if CommittedWrite(c, s, es, k) {
      var m: nat :| CommittedBy(c, s, es, k, m);
      assert CommittedBy(c, s, es, j, m);
    }
  }

  /** The machine's record of an operation is its log_writes, in order and with their data. */
  function WritesOf(es: seq<Event>, op: nat): seq<Rec> {
    if es == [] then []
    else
      var n := |es| - 1;
      WritesOf(es[..n], op) + if WriteOf(es, n, op) then [Rec(op, es[n].b, es[n].data)] else []
  }

  /** What the machine has recorded for an operation is what its log_writes say; a last one that was
      refused, with "too big a transaction", is missing. */
  ghost predicate Recorded(es: seq<Event>, t: State, op: nat) {
    if op !in t.issued || op !in t.fate then WritesOf(es, op) == []
    else t.issued[op] == WritesOf(es, op) || (t.issued[op] == Front(WritesOf(es, op)) && Refused(t, op))
  }

  predicate Refused(t: State, op: nat)
    requires op in t.fate
  {
    t.fate[op].Lost? || (t.phase.TooBig? && t.fate[op].InFlight?)
  }

  function Front(g: seq<Rec>): seq<Rec> {
    if g == [] then [] else g[..|g| - 1]
  }

  lemma RecordedOn(c: Config, t: State, es: seq<Event>, op: nat)
    requires es != [] && Numbered(es[..|es| - 1], t) && Accounted(t) && Enabled(c, t, es[|es| - 1])
    requires Recorded(es[..|es| - 1], t, op)
    ensures Recorded(es, Do(c, t, es[|es| - 1]), op)
  {
    var n := |es| - 1;
    var e, u := es[n], Do(c, t, es[n]);
    FatesMove(c, t, e, op);
    hide Do, Enabled, FateOk, Numbered;
    if e.LogWrite? {
      assert WriteOf(es, n, op) <==> t.active[e.i].op == op by { NumbersAgree(es, t); }
    }
    hide Accounted;
    assert WritesOf(es, op) ==
      WritesOf(es[..n], op) + if WriteOf(es, n, op) then [Rec(op, e.b, e.data)] else [];
  }

  lemma NumbersAgree(es: seq<Event>, t: State)
    requires es != [] && Numbered(es[..|es| - 1], t) && es[|es| - 1].LogWrite? && es[|es| - 1].i < |t.active|
    ensures var n := |es| - 1; forall op :: WriteOf(es, n, op) <==> t.active[es[n].i].op == op
  {
  }

  /** What an event does to the record and the fate of one operation. */
  lemma FatesMove(c: Config, t: State, e: Event, op: nat)
    requires Enabled(c, t, e) && Accounted(t)
    ensures var u := Do(c, t, e);
      && (t.phase.TooBig? ==> e.Crash?) && (op in u.issued <==> op in t.issued || (e.BeginOp? && op == t.nextOp))
      && (op in u.fate <==> op in u.issued)
      && (op in u.issued && op !in t.issued ==> u.issued[op] == [])
      && (e.LogWrite? ==> e.i < |t.active|)
      && (op in t.issued ==> op in t.fate)
      && (op in t.issued ==>
            u.issued[op] == if e.LogWrite? && t.active[e.i].op == op && !u.phase.TooBig?
                            then t.issued[op] + [Rec(op, e.b, e.data)] else t.issued[op])
      && (op in t.issued && t.fate[op].Lost? ==> u.fate[op].Lost?)
      && (op in t.issued && t.fate[op].InFlight? && e.Crash? ==> u.fate[op].Lost?)
      && (e.LogWrite? && t.active[e.i].op == op ==> op in t.issued && t.fate[op].InFlight? && u.fate == t.fate)
      && (!e.BeginOp? || op != t.nextOp || op !in t.issued)
  {
    hide CommitWriteOf, View, HeadList, FateOk;
  }

  lemma {:induction false} RunRecords(c: Config, s: State, es: seq<Event>, op: nat)
    requires Init(c, s) && CanRun(c, s, es)
    ensures Recorded(es, Run(c, s, es), op)
    decreases |es|
  {
    if es != [] {
      RunSnoc(c, s, es);
      var fs := es[..|es| - 1];
      RunRecords(c, s, fs, op);
      RunNumbered(c, s, fs);
      InitHolds(c, s);
      RunAccounts(c, s, fs);
      hide Init, Run, CanRun, Enabled, Do, Numbered, Recorded, Accounted;
      RecordedOn(c, Run(c, s, fs), es, op);
    }
  }

  /** So an operation that is committed or under way has recorded exactly its log_writes. */
  lemma IssuedIsLogged(c: Config, s: State, es: seq<Event>, op: nat)
    requires Init(c, s) && CanRun(c, s, es)
    requires var t := Run(c, s, es); op in t.issued && op in t.fate && !t.fate[op].Lost? && !t.phase.TooBig?
    ensures Run(c, s, es).issued[op] == WritesOf(es, op)
  {
    hide Init, Run, CanRun;
    RunRecords(c, s, es, op);
  }
}
