/** The logging layer as an interleaving machine: any number of file-system operations, the commit
    of the last one to leave, buffer-cache loads and evictions at any moment, and power failures
    between any two block writes. Every event below is one atomic step of log.c or bio.c. */
module LogProtocol {
  import opened Basics
  import opened Blocks
  import opened Wal
  import opened Log

  /** A cached block. */
  datatype Line = Line(data: Block, dirty: bool)

  /** One log_write: operation `op` gave block `b` the contents `data`. */
  datatype Rec = Rec(op: nat, b: nat, data: Block)

  /** An operation between begin_op and end_op, and how many blocks it has added to the log list. */
  datatype Active = Active(op: nat, added: nat)

  datatype Phase =
    | Booting                                            // before read_head
    | Recovering(k: nat, base: Disk)                     // k block writes of recovery done
    | Running
    | Committing(k: nat, base: Disk, vals: seq<Block>)   // log.committing, k block writes done
    | TooBig                                             // panic "too big a transaction"
    | AlreadyCommitting                                  // panic "log.committing"

  /** What became of an operation's writes. */
  datatype Fate = InFlight | Durable(group: nat) | Lost

  /** `disk` survives a crash; `cache`, `bl`, `active` and `phase` are memory. The last five fields
      are history: the contents written by each committed group, those of the open group, and
      each operation's writes and fate. `base` and `vals` above are history too. */
  datatype State = State(
    disk: Disk, cache: map<nat, Line>, bl: seq<nat>, active: seq<Active>, phase: Phase,
    groups: seq<seq<Rec>>, cur: seq<Rec>, nextOp: nat, issued: map<nat, seq<Rec>>, fate: map<nat, Fate>)

  /** Where the log is, the disk the system first ran on, and how many blocks one operation may add. */
  datatype Config = Config(l: Layout, d0: Disk, budget: nat)

  datatype Event =
    | ReadHead | RecoverWrite | RecoverDone
    | BeginOp
    | LogWrite(i: nat, b: nat, data: Block)  // by active[i]
    | EndOp(i: nat)
    | CommitWrite | CommitDone
    | Load(b: nat) | Evict(b: nat)
    | Crash

  function View(s: State, b: nat): Block
    requires b < |s.disk|
  {
    if b in s.cache then s.cache[b].data else s.disk[b]
  }

  /** bread, memmove, bwrite, brelse of one block. */
  function WriteThrough(s: State, w: Write): State
    requires w.at < |s.disk|
  {
    s.(disk := s.disk[w.at := w.data], cache := s.cache[w.at := Line(w.data, false)])
  }

  /** The block write that commit makes after `k` others, from what it reads through the cache. */
  function CommitWriteOf(l: Layout, s: State, k: nat): (w: Write)
    requires l.start + l.size <= |s.disk| && |s.bl| < l.size && k < 2 * |s.bl| + 2
    requires |s.bl| <= LOGSIZE && forall i :: 0 <= i < |s.bl| ==> s.bl[i] < |s.disk| <= UINT
    ensures w.at < |s.disk|
  {
    var n := |s.bl|;
    if k < n then Write(l.start + k + 1, View(s, s.bl[k]))
    else if k == n then Write(l.start, EncodeHead(View(s, l.start), s.bl))
    else if k <= 2 * n then Write(s.bl[k - n - 1], View(s, l.start + (k - n - 1) + 1))
    else Write(l.start, EncodeHead(View(s, l.start), []))
  }

  predicate CanWrite(l: Layout, s: State) {
    && l.start + l.size <= |s.disk| <= UINT && |s.bl| < l.size && |s.bl| <= LOGSIZE
    && forall i :: 0 <= i < |s.bl| ==> s.bl[i] < |s.disk|
  }

  /** After a panic only a power cycle gets the machine going again. */
  predicate Enabled(c: Config, s: State, e: Event) {
    if s.phase.TooBig? || s.phase.AlreadyCommitting? then e.Crash?
    else
    match e
    case ReadHead => s.phase.Booting? && c.l.start < |s.disk| && Word(View(s, c.l.start), 0) <= LOGSIZE
    case RecoverWrite => s.phase.Recovering? && s.phase.k <= |s.bl| && CanWrite(c.l, s)
    case RecoverDone => s.phase.Recovering? && s.phase.k > |s.bl|
    case BeginOp => s.phase.Running? && |s.bl| + (|s.active| + 1) * MAXOPBLOCKS <= LOGSIZE
    case LogWrite(i, b, data) =>
      // the caller respects its budget and writes only home blocks
      && i < |s.active| && Home(c.l, s.disk, b) && s.active[i].op in s.issued
      && (b in s.bl || s.active[i].added < c.budget)
    case EndOp(i) => i < |s.active|
    case CommitWrite =>
      s.phase.Committing? && s.bl != [] && s.phase.k < 2 * |s.bl| + 2 && CanWrite(c.l, s)
    case CommitDone => s.phase.Committing? && (s.bl == [] || s.phase.k >= 2 * |s.bl| + 2)
    case Load(b) => b < |s.disk| && b !in s.cache
    case Evict(b) => b in s.cache && !s.cache[b].dirty  // bget recycles no dirty buffer
    case Crash => true
  }

  function Do(c: Config, s: State, e: Event): State
    requires Enabled(c, s, e)
  {
    match e
    case ReadHead => s.(bl := HeadList(View(s, c.l.start)), phase := Recovering(0, s.disk))
    case RecoverWrite =>
      var n := |s.bl|;
      WriteThrough(s, CommitWriteOf(c.l, s, n + 1 + s.phase.k)).(phase := Recovering(s.phase.k + 1, s.phase.base))
    case RecoverDone => s.(bl := [], phase := Running)
    case BeginOp =>
      s.(active := s.active + [Active(s.nextOp, 0)], nextOp := s.nextOp + 1,
         issued := s.issued[s.nextOp := []], fate := s.fate[s.nextOp := InFlight])
    case LogWrite(i, b, data) =>
      if |s.bl| >= LOGSIZE || |s.bl| >= c.l.size - 1 then s.(phase := TooBig)
      else
        var a := s.active[i];
        s.(bl := Absorb(s.bl, b),
           active := s.active[i := Active(a.op, if b in s.bl then a.added else a.added + 1)],
           cache := s.cache[b := Line(data, true)],
           cur := s.cur + [Rec(a.op, b, data)],
           issued := s.issued[a.op := s.issued[a.op] + [Rec(a.op, b, data)]])
    case EndOp(i) =>
      var rest := s.active[..i] + s.active[i + 1..];
      if s.phase.Committing? then s.(phase := AlreadyCommitting, active := rest)
      else if rest != [] then s.(active := rest)
      else s.(active := rest,
              phase := Committing(0, s.disk, seq(|s.bl|, j requires 0 <= j < |s.bl| =>
                                    if s.bl[j] < |s.disk| then View(s, s.bl[j]) else Zeros())))
    case CommitWrite =>
      var t := WriteThrough(s, CommitWriteOf(c.l, s, s.phase.k))
          .(phase := Committing(s.phase.k + 1, s.phase.base, s.phase.vals));
      if s.phase.k == |s.bl| then Committed(t) else t
    case CommitDone => s.(bl := [], phase := Running)
    case Load(b) => s.(cache := s.cache[b := Line(s.disk[b], false)])
    case Evict(b) => s.(cache := s.cache - {b})
    case Crash =>
      s.(cache := map[], bl := [], active := [], phase := Booting, cur := [],
         fate := map op | op in s.fate :: if s.fate[op].InFlight? then Lost else s.fate[op])
  }

  /** History of the header write: the open group becomes a committed one. */
  function Committed(s: State): State {
    s.(groups := s.groups + [s.cur], cur := [],
       fate := map op | op in s.fate :: if s.fate[op].InFlight? then Durable(|s.groups|) else s.fate[op])
  }

  /** The machine just after power-on, on a disk with an empty log. */
  predicate Init(c: Config, s: State) {
    && Quiet(c.l, c.d0)
    && s == State(c.d0, map[], [], [], Booting, [], [], 0, map[], map[])
  }

  /** Performing the events one after the other, each of them enabled in its turn. */
  predicate CanRun(c: Config, s: State, es: seq<Event>)
    decreases |es|
  {
    es != [] ==> Enabled(c, s, es[0]) && CanRun(c, Do(c, s, es[0]), es[1..])
  }

  function Run(c: Config, s: State, es: seq<Event>): State
    requires CanRun(c, s, es)
    decreases |es|
  {
    if es == [] then s else Run(c, Do(c, s, es[0]), es[1..])
  }

  // ---- what committed groups amount to ----

  /** A disk after some log_writes, in order. */
  function Play(d: Disk, g: seq<Rec>): (e: Disk)
    ensures |e| == |d|
  {
    if g == [] then d
    else
      var e, r := Play(d, g[..|g| - 1]), g[|g| - 1];
      if r.b < |d| then e[r.b := r.data] else e
  }

  function Replay(d: Disk, groups: seq<seq<Rec>>): (e: Disk)
    ensures |e| == |d|
  {
    if groups == [] then d else Play(Replay(d, groups[..|groups| - 1]), groups[|groups| - 1])
  }

  lemma PlaySnoc(d: Disk, g: seq<Rec>, r: Rec)
    requires r.b < |d|
    ensures Play(d, g + [r]) == Play(d, g)[r.b := r.data]
  {
  }

  lemma ReplaySnoc(d: Disk, groups: seq<seq<Rec>>, g: seq<Rec>)
    ensures Replay(d, groups + [g]) == Play(Replay(d, groups), g)
  {
  }

  // ---- the invariant ----

  ghost predicate Coherent(c: Config, s: State) {
    && |s.disk| == |c.d0| && WellFormed(c.l, s.disk)
    && forall b :: b in s.cache ==> b < |s.disk| && LineOk(c, s, b)
  }

  /** A clean line is a copy of the disk; only logged home blocks are dirty. */
  ghost predicate LineOk(c: Config, s: State, b: nat)
    requires b in s.cache && b < |s.disk|
  {
    && (!s.cache[b].dirty ==> s.cache[b].data == s.disk[b])
    && (s.cache[b].dirty ==> Home(c.l, s.disk, b) && b in s.bl)
  }

  predicate DirtyIn(s: State, b: nat) {
    b in s.cache && s.cache[b].dirty
  }

  ghost predicate AllClean(s: State) {
    forall b :: b in s.cache ==> !s.cache[b].dirty
  }

  /** Recovering the disk as it is now would give the effect of the committed groups, all of them
      and nothing else. */
  ghost predicate Survives(c: Config, s: State)
    requires |s.disk| == |c.d0| && WellFormed(c.l, s.disk)
  {
    forall b: nat :: Home(c.l, s.disk, b) ==> Logical(c.l, s.disk, b) == Replay(c.d0, s.groups)[b]
  }

  ghost predicate Quiescent(s: State) {
    s.active == [] && s.cur == [] && AllClean(s)
  }

  ghost predicate RecoveringOk(c: Config, s: State, k: nat, base: Disk) {
    && Quiescent(s)
    && WellFormed(c.l, base) && s.bl == HeadList(base[c.l.start]) && k <= |RecoverWrites(c.l, base)|
    && s.disk == Apply(base, RecoverWrites(c.l, base)[..k])
  }

  ghost predicate RunningOk(c: Config, s: State)
    requires |s.disk| == |c.d0|
  {
    && Quiet(c.l, s.disk) && LogList(c.l, s.disk, s.bl)
    && (forall b :: b in s.bl ==> DirtyIn(s, b))
    && (forall b: nat :: Home(c.l, s.disk, b) ==> View(s, b) == Play(Replay(c.d0, s.groups), s.cur)[b])
    && (s.bl == [] ==> s.cur == []) && (s.active == [] ==> s.bl == [])
  }

  /** `disk` is `base` after the first k writes of the commit of bl with contents vals. */
  ghost predicate CommitImage(l: Layout, base: Disk, bl: seq<nat>, vals: seq<Block>, k: nat, disk: Disk) {
    && Quiet(l, base) && |base| == |disk| && LogList(l, base, bl) && |vals| == |bl|
    && k <= |Wal.CommitWrites(l, base, bl, vals)|
    && disk == Apply(base, Wal.CommitWrites(l, base, bl, vals)[..k])
  }

  ghost predicate CommittingOk(c: Config, s: State, k: nat, base: Disk, vals: seq<Block>)
    requires |s.disk| == |c.d0|
  {
    && s.active == [] && (s.bl == [] ==> s.cur == [])
    && CanWrite(c.l, s) && CommitImage(c.l, base, s.bl, vals, k, s.disk)
    && |vals| == |s.bl| && |base| == |s.disk|
    && (forall i :: 0 <= i < |s.bl| ==> View(s, s.bl[i]) == vals[i])
    && (forall i :: 0 <= i < |s.bl| ==> (DirtyIn(s, s.bl[i]) <==> k <= |s.bl| + 1 + i))
    && (if k <= |s.bl| then
          forall b: nat :: Home(c.l, base, b) ==>
            Play(Replay(c.d0, s.groups), s.cur)[b] == Updated(base, s.bl, vals, b)
        else s.cur == [])
  }

  ghost predicate PhaseOk(c: Config, s: State)
    requires |s.disk| == |c.d0|
  {
    match s.phase
    case Booting => Quiescent(s)
    case Recovering(k, base) => RecoveringOk(c, s, k, base)
    case Running => RunningOk(c, s)
    case Committing(k, base, vals) => CommittingOk(c, s, k, base, vals)
    case TooBig => true
    case AlreadyCommitting => false
  }

  ghost predicate Inv(c: Config, s: State) {
    Coherent(c, s) && Survives(c, s) && PhaseOk(c, s)
  }

  lemma ReadHeadKeeps(c: Config, s: State)
    requires Inv(c, s) && Enabled(c, s, ReadHead)
    ensures Inv(c, Do(c, s, ReadHead))
  {
  }

  lemma LoadKeeps(c: Config, s: State, b: nat)
    requires Inv(c, s) && Enabled(c, s, Load(b))
    ensures Inv(c, Do(c, s, Load(b)))
  {
    hide WellFormed, Quiet, LogList, Logical, Replay, Play, HeadList, CommitImage, RecoverWrites, Apply, Updated;
    var t := Do(c, s, Load(b));
    assert forall x: nat :: x < |s.disk| ==> View(t, x) == View(s, x) && DirtyIn(t, x) == DirtyIn(s, x);
  }

  lemma EvictKeeps(c: Config, s: State, b: nat)
    requires Inv(c, s) && Enabled(c, s, Evict(b))
    ensures Inv(c, Do(c, s, Evict(b)))
  {
    hide WellFormed, Quiet, LogList, Logical, Replay, Play, HeadList, CommitImage, RecoverWrites, Apply, Updated;
    var t := Do(c, s, Evict(b));
    assert LineOk(c, s, b);
    assert forall x: nat :: x < |s.disk| ==> View(t, x) == View(s, x) && DirtyIn(t, x) == DirtyIn(s, x);
  }

  lemma CrashKeeps(c: Config, s: State)
    requires Inv(c, s)
    ensures Inv(c, Do(c, s, Crash))
  {
  }

  lemma BeginOpKeeps(c: Config, s: State)
    requires Inv(c, s) && Enabled(c, s, BeginOp)
    ensures Inv(c, Do(c, s, BeginOp))
  {
  }

  lemma LogWriteKeeps(c: Config, s: State, i: nat, b: nat, data: Block)
    requires Inv(c, s) && Enabled(c, s, LogWrite(i, b, data))
    ensures Inv(c, Do(c, s, LogWrite(i, b, data)))
  {
    hide WellFormed, Quiet, Logical, Replay, Play;
    var t := Do(c, s, LogWrite(i, b, data));
    assert s.phase.Running?;
    if !t.phase.TooBig? {
      var r := Rec(s.active[i].op, b, data);
      PlaySnoc(Replay(c.d0, s.groups), s.cur, r);
      assert forall x: nat :: x < |s.disk| ==> View(t, x) == if x == b then data else View(s, x);
      assert forall x :: x in t.bl ==> DirtyIn(t, x);
      assert forall x :: x in t.cache && x != b ==> x in s.cache && LineOk(c, s, x);
    }
  }

  lemma NoWritesYet(l: Layout, d: Disk, bl: seq<nat>, vals: seq<Block>)
    requires Quiet(l, d) && LogList(l, d, bl) && |vals| == |bl|
    ensures CommitImage(l, d, bl, vals, 0, d)
  {
  }

  lemma PlayIsUpdated(c: Config, s: State, vals: seq<Block>)
    requires Coherent(c, s) && RunningOk(c, s) && |vals| == |s.bl|
    requires forall i :: 0 <= i < |s.bl| ==> vals[i] == View(s, s.bl[i])
    ensures forall b: nat :: Home(c.l, s.disk, b) ==>
              Play(Replay(c.d0, s.groups), s.cur)[b] == Updated(s.disk, s.bl, vals, b)
  {
  }

  /** The last operation leaves: the committer takes what the cache holds of the logged blocks. */
  lemma CommitStarts(c: Config, s: State, t: State)
    requires Coherent(c, s) && RunningOk(c, s) && t.active == []
    requires t.disk == s.disk && t.cache == s.cache && t.bl == s.bl && t.groups == s.groups && t.cur == s.cur
    requires t.phase.Committing? && t.phase.k == 0 && t.phase.base == s.disk && |t.phase.vals| == |s.bl|
    requires forall i :: 0 <= i < |s.bl| ==> t.phase.vals[i] == View(s, s.bl[i])
    ensures CommittingOk(c, t, 0, s.disk, t.phase.vals)
  {
    hide Logical, Replay, Play, Updated, CommitImage, Quiet, HeadList, Word, Distinct;
    NoWritesYet(c.l, s.disk, s.bl, t.phase.vals);
    PlayIsUpdated(c, s, t.phase.vals);
    assert CanWrite(c.l, t);
    forall i | 0 <= i < |s.bl| ensures View(t, s.bl[i]) == View(s, s.bl[i]) && DirtyIn(t, s.bl[i]) {
      assert s.bl[i] in s.bl;
    }
  }

  lemma EndOpKeeps(c: Config, s: State, i: nat)
    requires Inv(c, s) && Enabled(c, s, EndOp(i))
    ensures Inv(c, Do(c, s, EndOp(i)))
  {
    hide WellFormed, Quiet, Logical, Replay, Play, CommittingOk;
    var t := Do(c, s, EndOp(i));
    if s.phase.Committing? { assert CommittingOk(c, s, s.phase.k, s.phase.base, s.phase.vals); CommitterAlone(c, s); }
    assert s.phase.Running?;
    assert forall x: nat :: x < |s.disk| ==> View(t, x) == View(s, x) && DirtyIn(t, x) == DirtyIn(s, x);
    if t.phase.Committing? { CommitStarts(c, s, t); }
  }

  /** While a commit runs no operation is in progress, so no end_op can find log.committing set. */
  lemma CommitterAlone(c: Config, s: State)
    requires |s.disk| == |c.d0| && s.phase.Committing? && PhaseOk(c, s)
    ensures s.active == []
  {
  }

  lemma LoggingWriteAt(l: Layout, base: Disk, bl: seq<nat>, vals: seq<Block>, k: nat)
    requires WellFormed(l, base) && LogList(l, base, bl) && |vals| == |bl| > 0 && k <= |bl|
    ensures var ws := Wal.CommitWrites(l, base, bl, vals);
      && |ws| == 2 * |bl| + 2
      && Apply(base, ws[..k])[l.start] == base[l.start]
      && ws[k] == if k < |bl| then Write(l.start + k + 1, vals[k])
                  else Write(l.start, EncodeHead(base[l.start], bl))
  {
    hide Apply, Word, HeadList, EncodeHead;
    assert Wal.CommitWrites(l, base, bl, vals)[..k] == LogWrites(l, vals)[..k];
    LogPrefix(l, base, vals, k, l.start);
  }

  lemma RecoverWriteAt(l: Layout, d: Disk, k: nat)
    requires WellFormed(l, d) && k < |RecoverWrites(l, d)|
    ensures var ws, bl := RecoverWrites(l, d), HeadList(d[l.start]);
      var e := Apply(d, ws[..k]);
      && e[l.start] == d[l.start]
      && ws[k] == (if k < |bl| then Write(bl[k], d[l.start + k + 1])
                   else Write(l.start, EncodeHead(d[l.start], [])))
      && (k < |bl| ==> e[l.start + k + 1] == d[l.start + k + 1])
  {
    hide Apply, Word, EncodeHead, Logical;
    InstallsAreInstalling(l, d, k);
  }

  lemma InstallingWriteAt(l: Layout, base: Disk, bl: seq<nat>, vals: seq<Block>, m: nat)
    requires WellFormed(l, base) && LogList(l, base, bl) && |vals| == |bl| > 0 && m <= |bl|
    ensures var ws, n := Wal.CommitWrites(l, base, bl, vals), |bl|;
      && |ws| == 2 * n + 2
      && var e := Apply(base, ws[..n + 1 + m]);
      && ws[n + 1 + m] == (if m < n then Write(bl[m], vals[m]) else Write(l.start, EncodeHead(e[l.start], [])))
      && (m < n ==> e[l.start + m + 1] == vals[m])
  {
    hide Apply, Word, EncodeHead, Logical, WellFormed, RecoverWrites;
    Prepared(l, base, bl, vals);
    var pre := PrepareWrites(l, base, bl, vals);
    var d := Apply(base, pre);
    var ws := Wal.CommitWrites(l, base, bl, vals);
    assert ws[..|bl| + 1 + m] == pre + RecoverWrites(l, d)[..m];
    ApplyConcat(base, pre, RecoverWrites(l, d)[..m]);
    RecoverWriteAt(l, d, m);
    assert ws[|bl| + 1 + m] == RecoverWrites(l, d)[m];
    if m < |bl| { assert Slots(l, d)[m] == vals[m]; }
  }

  lemma LogBlocksAreClean(c: Config, s: State, b: nat)
    requires Coherent(c, s) && InLog(c.l, b) && b < |s.disk|
    ensures View(s, b) == s.disk[b]
  {
  }

  /** The machine's next write is the next one of CommitWrites. */
  lemma CommitWriteMatches(c: Config, s: State, k: nat, base: Disk, vals: seq<Block>)
    requires Coherent(c, s) && CommittingOk(c, s, k, base, vals) && s.bl != [] && k < 2 * |s.bl| + 2
    ensures var ws := Wal.CommitWrites(c.l, base, s.bl, vals);
            |ws| == 2 * |s.bl| + 2 && CommitWriteOf(c.l, s, k) == ws[k]
  {
    hide Apply, Word, HeadList, EncodeHead, Wal.CommitWrites, Play, Replay, Updated, WellFormed;
    var n := |s.bl|;
    LogBlocksAreClean(c, s, c.l.start);
    if k <= n {
      LoggingWriteAt(c.l, base, s.bl, vals, k);
    } else {
      InstallingWriteAt(c.l, base, s.bl, vals, k - n - 1);
      if k <= 2 * n { LogBlocksAreClean(c, s, c.l.start + (k - n - 1) + 1); }
    }
  }

  lemma CommitImageNext(l: Layout, base: Disk, bl: seq<nat>, vals: seq<Block>, k: nat, disk: Disk)
    requires CommitImage(l, base, bl, vals, k, disk) && k < |Wal.CommitWrites(l, base, bl, vals)|
    ensures var w := Wal.CommitWrites(l, base, bl, vals)[k];
            w.at < |disk| && CommitImage(l, base, bl, vals, k + 1, disk[w.at := w.data])
  {
    hide Wal.CommitWrites, LogList, HeadList, Word;
    var ws := Wal.CommitWrites(l, base, bl, vals);
    assert ws[..k + 1] == ws[..k] + [ws[k]];
    ApplySnoc(base, ws[..k], ws[k]);
  }

  /** What the disk means all through commit; the header write is where it changes. */
  lemma CommitMeaning(c: Config, base: Disk, bl: seq<nat>, vals: seq<Block>, k: nat, disk: Disk)
    requires CommitImage(c.l, base, bl, vals, k, disk)
    ensures WellFormed(c.l, disk) && |disk| == |base|
    ensures forall b: nat :: Home(c.l, disk, b) ==>
              Logical(c.l, disk, b) == if k <= |bl| then base[b] else Updated(base, bl, vals, b)
  {
    hide Wal.CommitWrites, Logical, Apply, Updated;
    CommitPrefix(c.l, base, bl, vals, k);
  }

  lemma CommitSurvives(c: Config, s: State, t: State, k: nat, base: Disk, vals: seq<Block>)
    requires Coherent(c, s) && Survives(c, s) && CommittingOk(c, s, k, base, vals)
    requires t.bl == s.bl && |t.disk| == |s.disk| && CommitImage(c.l, base, s.bl, vals, k + 1, t.disk)
    requires t.groups == if k == |s.bl| then s.groups + [s.cur] else s.groups
    ensures WellFormed(c.l, t.disk) && Survives(c, t)
  {
    hide CommitImage, WellFormed, Logical, Play, Replay, Updated;
    CommitMeaning(c, base, s.bl, vals, k, s.disk);
    CommitMeaning(c, base, s.bl, vals, k + 1, t.disk);
    ReplaySnoc(c.d0, s.groups, s.cur);
    forall b: nat | Home(c.l, t.disk, b) ensures Logical(c.l, t.disk, b) == Replay(c.d0, t.groups)[b] {
      assert Home(c.l, s.disk, b) && Home(c.l, base, b);
      assert Logical(c.l, s.disk, b) == Replay(c.d0, s.groups)[b];
    }
  }

  lemma WriteThroughFrame(c: Config, s: State, w: Write)
    requires Coherent(c, s) && w.at < |s.disk|
    ensures var t := WriteThrough(s, w);
      && (forall x: nat :: x < |s.disk| ==> View(t, x) == if x == w.at then w.data else View(s, x))
      && (forall x: nat :: DirtyIn(t, x) == (x != w.at && DirtyIn(s, x)))
      && (forall b :: b in t.cache ==> b < |t.disk| && LineOk(c, t, b))
  {
  }

  /** A block write of commit leaves the logged blocks' cached contents alone, and takes the dirty
      mark off the block it installs. */
  lemma CommitLines(c: Config, s: State, t: State, k: nat, base: Disk, vals: seq<Block>)
    requires Coherent(c, s) && CommittingOk(c, s, k, base, vals) && s.bl != [] && k < 2 * |s.bl| + 2
    requires CommitWriteOf(c.l, s, k) == Wal.CommitWrites(c.l, base, s.bl, vals)[k]
    requires var v := WriteThrough(s, CommitWriteOf(c.l, s, k)); t.bl == v.bl && t.cache == v.cache && t.disk == v.disk
    ensures forall i :: 0 <= i < |s.bl| ==> View(t, s.bl[i]) == vals[i]
    ensures forall i :: 0 <= i < |s.bl| ==> (DirtyIn(t, s.bl[i]) <==> k + 1 <= |s.bl| + 1 + i)
  {
    hide WellFormed, Play, Replay, Updated, Apply, EncodeHead, Wal.CommitWrites, LineOk, HeadList;
    var n, w := |s.bl|, CommitWriteOf(c.l, s, k);
    WriteThroughFrame(c, s, w);
    if n < k <= 2 * n {
      InstallingWriteAt(c.l, base, s.bl, vals, k - n - 1);
    }
    forall i | 0 <= i < n
      ensures View(t, s.bl[i]) == vals[i] && (DirtyIn(t, s.bl[i]) <==> k + 1 <= n + 1 + i)
    {
      assert Home(c.l, base, s.bl[i]);
      assert w.at == s.bl[i] <==> k == n + 1 + i;
    }
  }

  lemma CommitWritePhase(c: Config, s: State, t: State, k: nat, base: Disk, vals: seq<Block>)
    requires |s.disk| == |t.disk| == |c.d0| && t.bl == s.bl && t.active == s.active
    requires CommittingOk(c, s, k, base, vals) && CommitImage(c.l, base, s.bl, vals, k + 1, t.disk)
    requires if k == |s.bl| then t.cur == [] else t.cur == s.cur && t.groups == s.groups
    requires forall i :: 0 <= i < |s.bl| ==> View(t, s.bl[i]) == vals[i]
    requires forall i :: 0 <= i < |s.bl| ==> (DirtyIn(t, s.bl[i]) <==> k + 1 <= |s.bl| + 1 + i)
    ensures CommittingOk(c, t, k + 1, base, vals)
  {
    hide CommitImage, Play, Replay, Updated, DirtyIn, View;
  }

  lemma CommitWriteKeeps(c: Config, s: State)
    requires Inv(c, s) && Enabled(c, s, CommitWrite)
    ensures Inv(c, Do(c, s, CommitWrite))
  {
    hide WellFormed, Survives, Apply, EncodeHead, DirtyIn, View, CommittingOk, LineOk;
    var k, base, vals := s.phase.k, s.phase.base, s.phase.vals;
    var w, t := CommitWriteOf(c.l, s, k), Do(c, s, CommitWrite);
    CommitWriteStep(c, s, k, base, vals);
    CommitSurvives(c, s, t, k, base, vals);
    CommitLines(c, s, t, k, base, vals);
    CommitWritePhase(c, s, t, k, base, vals);
    WriteThroughFrame(c, s, w);
    forall b | b in t.cache ensures LineOk(c, t, b) { SameLine(c, WriteThrough(s, w), t, b); }
  }

  lemma SameLine(c: Config, s: State, t: State, b: nat)
    requires t.disk == s.disk && t.cache == s.cache && t.bl == s.bl
    requires b in s.cache && b < |s.disk| && LineOk(c, s, b)
    ensures LineOk(c, t, b)
  {
  }

  lemma CommitWriteStep(c: Config, s: State, k: nat, base: Disk, vals: seq<Block>)
    requires Coherent(c, s) && CommittingOk(c, s, k, base, vals) && s.bl != [] && k < 2 * |s.bl| + 2
    ensures CanWrite(c.l, s) && |vals| == |s.bl| && CommitImage(c.l, base, s.bl, vals, k, s.disk)
    ensures var w := CommitWriteOf(c.l, s, k);
            && k < |Wal.CommitWrites(c.l, base, s.bl, vals)|
            && w == Wal.CommitWrites(c.l, base, s.bl, vals)[k]
            && CommitImage(c.l, base, s.bl, vals, k + 1, s.disk[w.at := w.data])
  {
    hide Apply, Wal.CommitWrites, Play, Replay, Updated, WellFormed, CommitWriteOf;
    CommitWriteMatches(c, s, k, base, vals);
    CommitImageNext(c.l, base, s.bl, vals, k, s.disk);
  }

  /** A machine with an empty log, a clean cache and no operations is ready to run. */
  lemma ReadyToRun(c: Config, s: State)
    requires Coherent(c, s) && Survives(c, s) && Quiescent(s) && Quiet(c.l, s.disk)
    ensures Inv(c, s.(bl := [], phase := Running))
  {
  }

  lemma FullCommitIsQuiet(l: Layout, base: Disk, bl: seq<nat>, vals: seq<Block>, k: nat, disk: Disk)
    requires CommitImage(l, base, bl, vals, k, disk) && (bl == [] || k >= 2 * |bl| + 2)
    ensures Quiet(l, disk)
  {
    hide Wal.CommitWrites, Apply, Updated, Logical;
    CommitPrefix(l, base, bl, vals, k);
  }

  lemma CommittedLinesClean(c: Config, s: State, k: nat, base: Disk, vals: seq<Block>)
    requires Coherent(c, s) && CommittingOk(c, s, k, base, vals) && (s.bl == [] || k >= 2 * |s.bl| + 2)
    ensures AllClean(s) && s.cur == []
  {
  }

  lemma CommitDoneKeeps(c: Config, s: State)
    requires Inv(c, s) && Enabled(c, s, CommitDone)
    ensures Inv(c, Do(c, s, CommitDone))
  {
    hide Survives, CommitImage, Quiet;
    var k, base, vals := s.phase.k, s.phase.base, s.phase.vals;
    FullCommitIsQuiet(c.l, base, s.bl, vals, k, s.disk);
    CommittedLinesClean(c, s, k, base, vals);
    hide CommittingOk, RunningOk, LineOk, WellFormed;
    ReadyToRun(c, s);
  }

  lemma RecoverWriteMatches(c: Config, s: State, k: nat, base: Disk)
    requires Coherent(c, s) && RecoveringOk(c, s, k, base) && k <= |s.bl|
    requires CanWrite(c.l, s)
    ensures CommitWriteOf(c.l, s, |s.bl| + 1 + k) == RecoverWrites(c.l, base)[k]
  {
    hide Apply, Word, HeadList, EncodeHead, RecoverWrites;
    RecoverWriteAt(c.l, base, k);
    LogBlocksAreClean(c, s, c.l.start);
    if k < |s.bl| { LogBlocksAreClean(c, s, c.l.start + k + 1); }
  }

  lemma RecoverSurvives(c: Config, s: State, t: State, k: nat, base: Disk)
    requires Coherent(c, s) && Survives(c, s) && RecoveringOk(c, s, k, base) && k <= |s.bl|
    requires t.disk == Apply(base, RecoverWrites(c.l, base)[..k + 1]) && t.groups == s.groups
    ensures WellFormed(c.l, t.disk) && Survives(c, t)
  {
    hide Apply, Word, HeadList, WellFormed, Logical, RecoverWrites, Replay;
    RecoverPrefix(c.l, base, k);
    RecoverPrefix(c.l, base, k + 1);
    forall b: nat | Home(c.l, t.disk, b) ensures Logical(c.l, t.disk, b) == Replay(c.d0, t.groups)[b] {
      assert Home(c.l, base, b) && Home(c.l, s.disk, b);
      assert Logical(c.l, s.disk, b) == Replay(c.d0, s.groups)[b];
    }
  }

  lemma RecoverWriteKeeps(c: Config, s: State)
    requires Inv(c, s) && Enabled(c, s, RecoverWrite)
    ensures Inv(c, Do(c, s, RecoverWrite))
  {
    hide Apply, Word, HeadList, EncodeHead, WellFormed, Survives, RecoverWrites, CommitWriteOf;
    var k, base := s.phase.k, s.phase.base;
    var w, t := CommitWriteOf(c.l, s, |s.bl| + 1 + k), Do(c, s, RecoverWrite);
    RecoverWriteMatches(c, s, k, base);
    var ws := RecoverWrites(c.l, base);
    assert ws[..k + 1] == ws[..k] + [ws[k]];
    ApplySnoc(base, ws[..k], ws[k]);
    RecoverSurvives(c, s, t, k, base);
    WriteThroughFrame(c, s, w);
    forall b | b in t.cache ensures !t.cache[b].dirty { assert b != w.at ==> b in s.cache; }
  }

  lemma RecoverDoneKeeps(c: Config, s: State)
    requires Inv(c, s) && Enabled(c, s, RecoverDone)
    ensures Inv(c, Do(c, s, RecoverDone))
  {
  }

  lemma StepKeeps(c: Config, s: State, e: Event)
    requires Inv(c, s) && Enabled(c, s, e)
    ensures Inv(c, Do(c, s, e))
  {
    hide Inv, Enabled, Do;
    match e
    case ReadHead => ReadHeadKeeps(c, s);
    case RecoverWrite => RecoverWriteKeeps(c, s);
    case RecoverDone => RecoverDoneKeeps(c, s);
    case BeginOp => BeginOpKeeps(c, s);
    case LogWrite(i, b, data) => LogWriteKeeps(c, s, i, b, data);
    case EndOp(i) => EndOpKeeps(c, s, i);
    case CommitWrite => CommitWriteKeeps(c, s);
    case CommitDone => CommitDoneKeeps(c, s);
    case Load(b) => LoadKeeps(c, s, b);
    case Evict(b) => EvictKeeps(c, s, b);
    case Crash => CrashKeeps(c, s);
  }

  // ---- every run ----

  lemma {:induction false} RunKeeps(c: Config, s: State, es: seq<Event>)
    requires Inv(c, s) && CanRun(c, s, es)
    ensures Inv(c, Run(c, s, es))
    decreases |es|
  {
    hide Inv, Enabled, Do;
    if es != [] {
      StepKeeps(c, s, es[0]);
      RunKeeps(c, Do(c, s, es[0]), es[1..]);
    }
  }

  lemma InitHolds(c: Config, s: State)
    requires Init(c, s)
    ensures Inv(c, s)
  {
  }

  /** Durability: cut the power at any moment of any run, and crash recovery any number of times;
      every home block then holds exactly what the groups committed so far make of it. */
  lemma Durability(c: Config, s: State, es: seq<Event>, crashes: seq<nat>)
    requires Init(c, s) && CanRun(c, s, es)
    ensures var t := Run(c, s, es);
      && WellFormed(c.l, t.disk)
      && var e := CrashingRecovery(c.l, t.disk, crashes);
      && Quiet(c.l, e) && |e| == |c.d0|
      && forall b: nat :: Home(c.l, c.d0, b) ==> e[b] == Replay(c.d0, t.groups)[b]
  {
    hide RunningOk, CommittingOk, RecoveringOk, LineOk, Run, CanRun, Quiet, Replay, Logical;
    InitHolds(c, s);
    RunKeeps(c, s, es);
    var t := Run(c, s, es);
    RecoveryConverges(c.l, t.disk, crashes);
    forall b: nat | Home(c.l, c.d0, b)
      ensures CrashingRecovery(c.l, t.disk, crashes)[b] == Replay(c.d0, t.groups)[b]
    {
      assert Home(c.l, t.disk, b);
    }
  }

  /** While operations run, the home blocks on disk hold the committed groups and nothing of the
      open one; what readers see is the committed groups and all of the open one. */
  lemma NothingEarly(c: Config, s: State, es: seq<Event>)
    requires Init(c, s) && CanRun(c, s, es) && Run(c, s, es).phase.Running?
    ensures var t := Run(c, s, es);
      && |t.disk| == |c.d0|
      && forall b: nat :: Home(c.l, c.d0, b) ==>
           && t.disk[b] == Replay(c.d0, t.groups)[b]
           && View(t, b) == Play(Replay(c.d0, t.groups), t.cur)[b]
  {
    hide Run, CanRun, Replay, Play;
    InitHolds(c, s);
    RunKeeps(c, s, es);
    var t := Run(c, s, es);
    forall b: nat | Home(c.l, c.d0, b)
      ensures t.disk[b] == Replay(c.d0, t.groups)[b] && View(t, b) == Play(Replay(c.d0, t.groups), t.cur)[b]
    {
      assert Home(c.l, t.disk, b) && Logical(c.l, t.disk, b) == t.disk[b];
    }
  }

  /** Committed groups are never taken back. */
  lemma {:induction false} GroupsGrow(c: Config, s: State, es: seq<Event>)
    requires CanRun(c, s, es)
    ensures s.groups <= Run(c, s, es).groups
    decreases |es|
  {
    hide Enabled, CommitWriteOf, View, HeadList;
    if es != [] {
      assert s.groups <= Do(c, s, es[0]).groups;
      hide Do;
      GroupsGrow(c, Do(c, s, es[0]), es[1..]);
    }
  }

  /** A boot, recovery or commit that has begun can always make its next step. */
  predicate CanProceed(c: Config, s: State) {
    match s.phase
    case Booting => Enabled(c, s, ReadHead)
    case Recovering(_, _) => Enabled(c, s, RecoverWrite) || Enabled(c, s, RecoverDone)
    case Committing(_, _, _) => Enabled(c, s, CommitWrite) || Enabled(c, s, CommitDone)
    case AlreadyCommitting => false
    case _ => true
  }

  lemma BootProceeds(c: Config, s: State)
    requires Inv(c, s) && s.phase.Booting?
    ensures CanProceed(c, s)
  {
  }

  lemma RecoveryProceeds(c: Config, s: State)
    requires Inv(c, s) && s.phase.Recovering?
    ensures CanProceed(c, s)
  {
    hide Survives, LineOk, Apply;
  }

  lemma CommitProceeds(c: Config, s: State)
    requires Inv(c, s) && s.phase.Committing?
    ensures CanProceed(c, s)
  {
    hide Survives, Word, HeadList, AllClean, LineOk, CommitImage, WellFormed, Play, Replay, Updated;
    assert CommittingOk(c, s, s.phase.k, s.phase.base, s.phase.vals);
  }

  /** end_op never finds log.committing set, and boot, recovery and commit never get stuck. */
  lemma NeverStuck(c: Config, s: State, es: seq<Event>)
    requires Init(c, s) && CanRun(c, s, es)
    ensures CanProceed(c, Run(c, s, es))
  {
    InitHolds(c, s);
    RunKeeps(c, s, es);
    var t := Run(c, s, es);
    hide Run, CanRun, Survives, CommittingOk, RunningOk, RecoveringOk, Coherent, Enabled;
    match t.phase
    case Booting => BootProceeds(c, t);
    case Recovering(_, _) => RecoveryProceeds(c, t);
    case Committing(_, _, _) => CommitProceeds(c, t);
    case _ =>
  }

  // ---- log space ----

  /** How many more blocks the operations in progress may add, at nine each. */
  function Slack(ops: seq<Active>): int {
    if ops == [] then 0 else Slack(ops[..|ops| - 1]) + 9 - ops[|ops| - 1].added
  }

  lemma {:induction false} SlackUpdate(ops: seq<Active>, i: nat, a: Active)
    requires i < |ops|
    ensures Slack(ops[i := a]) == Slack(ops) + ops[i].added - a.added
  {
    var n := |ops| - 1;
    if i < n {
      SlackUpdate(ops[..n], i, a);
      assert ops[i := a][..n] == ops[..n][i := a];
    } else {
      assert ops[i := a][..n] == ops[..n];
    }
  }

  lemma {:induction false} SlackRemove(ops: seq<Active>, i: nat)
    requires i < |ops|
    ensures Slack(ops[..i] + ops[i + 1..]) == Slack(ops) - 9 + ops[i].added
  {
    var n := |ops| - 1;
    if i < n {
      SlackRemove(ops[..n], i);
      assert (ops[..i] + ops[i + 1..])[..n - 1] == ops[..n][..i] + ops[..n][i + 1..];
    } else {
      assert ops[..i] + ops[i + 1..] == ops[..n];
    }
  }

  lemma {:induction false} SlackBounds(ops: seq<Active>)
    requires forall i :: 0 <= i < |ops| ==> ops[i].added <= 9
    ensures 0 <= Slack(ops) <= 9 * |ops|
  {
    if ops != [] { SlackBounds(ops[..|ops| - 1]); }
  }

  /** The reservation: logged blocks and blocks still allowed never exceed 28. */
  ghost predicate Reserved(c: Config, s: State) {
    && !s.phase.TooBig?
    && (forall i :: 0 <= i < |s.active| ==> s.active[i].added <= c.budget)
    && (s.phase.Running? ==> |s.bl| + Slack(s.active) <= 28)
  }

  /** Operations exist only while the machine runs, and a group opens only with an operation. */
  lemma OpsOnlyWhenRunning(c: Config, s: State)
    requires Inv(c, s) && !s.phase.TooBig?
    ensures s.active != [] ==> s.phase.Running?
    ensures s.phase.Running? && s.active == [] ==> s.bl == []
  {
  }

  lemma BeginOpReserves(c: Config, s: State)
    requires Reserved(c, s) && Enabled(c, s, BeginOp) && c.budget <= 9 && (s.active == [] ==> s.bl == [])
    ensures Reserved(c, Do(c, s, BeginOp))
  {
    SlackBounds(s.active);
    assert Do(c, s, BeginOp).active[..|s.active|] == s.active;
  }

  lemma LogWriteReserves(c: Config, s: State, i: nat, b: nat, data: Block)
    requires Reserved(c, s) && s.phase.Running? && Enabled(c, s, LogWrite(i, b, data))
    requires c.budget <= 9 && LOGSIZE <= c.l.size
    ensures Reserved(c, Do(c, s, LogWrite(i, b, data)))
  {
    SlackBounds(s.active);
    var t := Do(c, s, LogWrite(i, b, data));
    SlackUpdate(s.active, i, Active(s.active[i].op, if b in s.bl then s.active[i].added else s.active[i].added + 1));
  }

  lemma EndOpReserves(c: Config, s: State, i: nat)
    requires Reserved(c, s) && Enabled(c, s, EndOp(i)) && s.phase.Running? && c.budget <= 9
    ensures Reserved(c, Do(c, s, EndOp(i)))
  {
    SlackRemove(s.active, i);
  }

  /** No other event changes the list, admits an operation or lets one add blocks. */
  lemma OtherReserves(c: Config, s: State, e: Event)
    requires Reserved(c, s) && Enabled(c, s, e) && !e.BeginOp? && !e.LogWrite? && !e.EndOp?
    requires s.active != [] ==> s.phase.Running?
    ensures Reserved(c, Do(c, s, e))
  {
  }

  lemma StepReserves(c: Config, s: State, e: Event)
    requires Inv(c, s) && Reserved(c, s) && Enabled(c, s, e) && c.budget <= 9 && LOGSIZE <= c.l.size
    ensures Reserved(c, Do(c, s, e))
  {
    OpsOnlyWhenRunning(c, s);
    hide Inv;
    match e
    case BeginOp => BeginOpReserves(c, s);
    case LogWrite(i, b, data) => LogWriteReserves(c, s, i, b, data);
    case EndOp(i) => EndOpReserves(c, s, i);
    case _ => OtherReserves(c, s, e);
  }

  lemma {:induction false} RunReserves(c: Config, s: State, es: seq<Event>)
    requires Inv(c, s) && Reserved(c, s) && CanRun(c, s, es) && c.budget <= 9 && LOGSIZE <= c.l.size
    ensures Reserved(c, Run(c, s, es))
    decreases |es|
  {
    hide Inv, Reserved, Enabled, Do;
    if es != [] {
      StepKeeps(c, s, es[0]);
      StepReserves(c, s, es[0]);
      RunReserves(c, Do(c, s, es[0]), es[1..]);
    }
  }

  /** No run reaches the "too big a transaction" panic. */
  ghost predicate NeverTooBig(c: Config) {
    forall s, es :: Init(c, s) && CanRun(c, s, es) ==> !Run(c, s, es).phase.TooBig?
  }

  /** Three operations in progress, the first k home blocks after the log already logged. */
  ghost predicate Filling(c: Config, s: State, k: nat) {
    && s.phase.Running? && |s.disk| == |c.d0|
    && s.bl == seq(k, i requires 0 <= i < k => c.l.start + c.l.size + i)
    && |s.active| == 3 && (forall i :: 0 <= i < 3 ==> s.active[i].op in s.issued)
    && forall i :: 0 <= i < 3 ==>
      s.active[i].added == if k <= 10 * i then 0 else if k < 10 * i + 10 then k - 10 * i else 10
  }

  lemma {:induction false} FillToPanic(c: Config, s: State, k: nat) returns (es: seq<Event>)
    requires Filling(c, s, k) && k <= 29 && c.budget >= 10
    requires c.l.size == LOGSIZE && c.l.start + c.l.size + LOGSIZE <= |c.d0|
    ensures CanRun(c, s, es) && Run(c, s, es).phase.TooBig?
    decreases 29 - k
  {
    var e := LogWrite(k / 10, c.l.start + c.l.size + k, Zeros());
    var t := Do(c, s, e);
    if k == 29 {
      es := [e];
      assert es[1..] == [];
    } else {
      assert t.bl == seq(k + 1, i requires 0 <= i < k + 1 => c.l.start + c.l.size + i);
      var rest := FillToPanic(c, t, k + 1);
      es := [e] + rest;
      assert es[1..] == rest;
    }
  }

  /** Starting up on a disk with an empty log. */
  lemma StartUp(c: Config, s: State) returns (es: seq<Event>)
    requires Init(c, s)
    ensures CanRun(c, s, es)
    ensures var t := Run(c, s, es);
      t.phase.Running? && t.active == [] && t.bl == [] && |t.disk| == |c.d0| && t.issued == map[]
  {
    hide LogList, Replay, Play;
    var s1 := Do(c, s, ReadHead);
    var s2 := Do(c, s1, RecoverWrite);
    InitHolds(c, s);
    ReadHeadKeeps(c, s);
    RecoverWriteKeeps(c, s1);
    es := RunCons(c, s2, RecoverDone, []);
    es := RunCons(c, s1, RecoverWrite, es);
    es := RunCons(c, s, ReadHead, es);
  }

  /** Admitting three operations. */
  lemma ThreeOperations(c: Config, s: State) returns (es: seq<Event>)
    requires Init(c, s)
    ensures CanRun(c, s, es) && Filling(c, Run(c, s, es), 0)
  {
    var start := StartUp(c, s);
    var s3 := Run(c, s, start);
    hide Run, CanRun, Init, Quiet;
    var s4 := Do(c, s3, BeginOp);
    var s5 := Do(c, s4, BeginOp);
    es := RunCons(c, s5, BeginOp, []);
    es := RunCons(c, s4, BeginOp, es);
    es := RunCons(c, s3, BeginOp, es);
    RunConcat(c, s, start, es);
    es := start + es;
  }

  lemma RunCons(c: Config, s: State, e: Event, es: seq<Event>) returns (fs: seq<Event>)
    requires Enabled(c, s, e) && CanRun(c, Do(c, s, e), es)
    ensures CanRun(c, s, fs) && Run(c, s, fs) == Run(c, Do(c, s, e), es)
  {
    hide Enabled, Do;
    fs := [e] + es;
    assert fs[1..] == es;
  }

  lemma {:induction false} RunConcat(c: Config, s: State, es: seq<Event>, fs: seq<Event>)
    requires CanRun(c, s, es) && CanRun(c, Run(c, s, es), fs)
    ensures CanRun(c, s, es + fs) && Run(c, s, es + fs) == Run(c, Run(c, s, es), fs)
    decreases |es|
  {
    hide Enabled, Do;
    if es == [] {
      assert es + fs == fs;
    } else {
      RunConcat(c, Do(c, s, es[0]), es[1..], fs);
      assert (es + fs)[1..] == es[1..] + fs;
    }
  }

  /** Log space: with mkfs's log of LOGSIZE blocks, "too big a transaction" is unreachable exactly
      when no operation adds more than nine blocks, one less than the documented MAXOPBLOCKS. */
  lemma LogSpace(c: Config)
    requires Quiet(c.l, c.d0) && c.l.size == LOGSIZE && c.l.start + c.l.size + LOGSIZE <= |c.d0|
    ensures NeverTooBig(c) <==> c.budget < MAXOPBLOCKS
  {
    hide Quiet, Inv, Reserved, Run, CanRun, Filling;
    if c.budget < MAXOPBLOCKS {
      forall s, es | Init(c, s) && CanRun(c, s, es) ensures !Run(c, s, es).phase.TooBig? {
        NoOverflow(c, s, es);
      }
    } else {
      var s := State(c.d0, map[], [], [], Booting, [], [], 0, map[], map[]);
      var es := ThreeOperations(c, s);
      var fs := FillToPanic(c, Run(c, s, es), 0);
      RunConcat(c, s, es, fs);
    }
  }

  lemma NoOverflow(c: Config, s: State, es: seq<Event>)
    requires Init(c, s) && CanRun(c, s, es) && c.budget < MAXOPBLOCKS && LOGSIZE <= c.l.size
    ensures var t := Run(c, s, es);
            !t.phase.TooBig? && (t.phase.Running? ==> |t.bl| <= 28)
  {
    hide Quiet, Inv, Run, CanRun;
    InitHolds(c, s);
    RunReserves(c, s, es);
    SlackBounds(Run(c, s, es).active);
  }

  // ---- each operation in one group ----

  /** The writes of operation `op` in a group. */
  function By(g: seq<Rec>, op: nat): seq<Rec> {
    if g == [] then []
    else By(g[..|g| - 1], op) + if g[|g| - 1].op == op then [g[|g| - 1]] else []
  }

  lemma BySnoc(g: seq<Rec>, r: Rec, op: nat)
    ensures By(g + [r], op) == By(g, op) + if r.op == op then [r] else []
  {
  }

  ghost predicate InNoGroup(s: State, op: nat) {
    forall g :: 0 <= g < |s.groups| ==> By(s.groups[g], op) == []
  }

  /** All of the operation's writes are in group g, and none anywhere else. */
  ghost predicate OnlyIn(s: State, op: nat, g: nat)
    requires op in s.issued
  {
    && g < |s.groups| && By(s.groups[g], op) == s.issued[op] && By(s.cur, op) == []
    && forall h :: 0 <= h < |s.groups| && h != g ==> By(s.groups[h], op) == []
  }

  ghost predicate FateOk(s: State, op: nat)
    requires op in s.fate && op in s.issued
  {
    match s.fate[op]
    case InFlight => By(s.cur, op) == s.issued[op] && InNoGroup(s, op)
    case Durable(g) => OnlyIn(s, op, g)
    case Lost => By(s.cur, op) == [] && InNoGroup(s, op)
  }

  ghost predicate Accounted(s: State) {
    && s.fate.Keys == s.issued.Keys
    && (forall op :: op in s.fate ==> op < s.nextOp && FateOk(s, op))
    && (forall op: nat :: op >= s.nextOp ==> By(s.cur, op) == [] && InNoGroup(s, op))
    && forall i :: 0 <= i < |s.active| ==> s.active[i].op in s.fate && s.fate[s.active[i].op].InFlight?
  }

  lemma BeginOpAccounts(c: Config, s: State)
    requires Accounted(s) && Enabled(c, s, BeginOp)
    ensures Accounted(Do(c, s, BeginOp))
  {
  }

  lemma SameGroups(s: State, t: State)
    requires t.groups == s.groups
    ensures forall op: nat :: InNoGroup(t, op) == InNoGroup(s, op)
  {
  }

  lemma LogWriteAccounts(c: Config, s: State, i: nat, b: nat, data: Block)
    requires Accounted(s) && Enabled(c, s, LogWrite(i, b, data))
    ensures Accounted(Do(c, s, LogWrite(i, b, data)))
  {
    hide By, InNoGroup;
    var t := Do(c, s, LogWrite(i, b, data));
    SameGroups(s, t);
    if !t.phase.TooBig? {
      var r := Rec(s.active[i].op, b, data);
      forall op: nat ensures By(t.cur, op) == By(s.cur, op) + if r.op == op then [r] else [] {
        BySnoc(s.cur, r, op);
      }
      forall op | op in t.fate ensures op < t.nextOp && FateOk(t, op) {
        assert FateOk(s, op);
      }
    } else {
      forall op | op in t.fate ensures op < t.nextOp && FateOk(t, op) { assert FateOk(s, op); }
    }
  }

  lemma StaysOut(s: State, op: nat)
    requires By(s.cur, op) == [] && InNoGroup(s, op)
    ensures InNoGroup(Committed(s), op) && By(Committed(s).cur, op) == []
  {
    hide By;
    var t := Committed(s);
    assert By(t.cur, op) == [] by { EmptyBy(op); }
    forall g | 0 <= g < |t.groups| ensures By(t.groups[g], op) == [] {
      assert g < |s.groups| ==> t.groups[g] == s.groups[g];
    }
  }

  lemma EmptyBy(op: nat)
    ensures By([], op) == []
  {
  }

  lemma FateAfterCommit(s: State, op: nat)
    requires op in s.fate && op in s.issued && FateOk(s, op)
    ensures FateOk(Committed(s), op)
  {
    hide By, InNoGroup;
    EmptyBy(op);
    match s.fate[op]
    case Lost => StaysOut(s, op);
    case InFlight => assert InNoGroup(s, op); IsOnlyIn(s, op);
    case Durable(g) => assert OnlyIn(Committed(s), op, g);
  }

  lemma IsOnlyIn(s: State, op: nat)
    requires op in s.issued && By(s.cur, op) == s.issued[op] && InNoGroup(s, op)
    ensures OnlyIn(Committed(s), op, |s.groups|)
  {
    hide By;
    EmptyBy(op);
    var t := Committed(s);
    assert forall h :: 0 <= h < |s.groups| ==> t.groups[h] == s.groups[h];
  }

  lemma CommittedAccounts(s: State)
    requires Accounted(s) && s.active == []
    ensures Accounted(Committed(s))
  {
    hide By, InNoGroup, FateOk;
    var t := Committed(s);
    forall op: nat | By(s.cur, op) == [] && InNoGroup(s, op) ensures By(t.cur, op) == [] && InNoGroup(t, op) {
      StaysOut(s, op);
    }
    forall op | op in t.fate ensures op < t.nextOp && FateOk(t, op) {
      FateAfterCommit(s, op);
    }
  }

  lemma CrashAccounts(c: Config, s: State)
    requires Accounted(s)
    ensures Accounted(Do(c, s, Crash))
  {
    var t := Do(c, s, Crash);
    SameGroups(s, t);
    forall op | op in t.fate ensures op < t.nextOp && FateOk(t, op) { assert FateOk(s, op); }
  }

  lemma OtherAccounts(s: State, t: State)
    requires Accounted(s) && t.groups == s.groups && t.cur == s.cur && t.nextOp == s.nextOp
    requires t.issued == s.issued && t.fate == s.fate
    requires forall i :: 0 <= i < |t.active| ==> t.active[i] in s.active
    ensures Accounted(t)
  {
  }

  lemma StepAccounts(c: Config, s: State, e: Event)
    requires Inv(c, s) && Accounted(s) && Enabled(c, s, e)
    ensures Accounted(Do(c, s, e))
  {
    hide Accounted, Coherent, Survives, CommitWriteOf, View, HeadList, RunningOk, RecoveringOk, CommitImage;
    var t := Do(c, s, e);
    match e
    case BeginOp => BeginOpAccounts(c, s);
    case LogWrite(i, b, data) => LogWriteAccounts(c, s, i, b, data);
    case Crash => CrashAccounts(c, s);
    case CommitWrite =>
      var u := WriteThrough(s, CommitWriteOf(c.l, s, s.phase.k))
          .(phase := Committing(s.phase.k + 1, s.phase.base, s.phase.vals));
      OtherAccounts(s, u);
      if s.phase.k == |s.bl| { CommittedAccounts(u); }
    case _ => OtherAccounts(s, t);
  }

  lemma {:induction false} RunAccounts(c: Config, s: State, es: seq<Event>)
    requires Inv(c, s) && Accounted(s) && CanRun(c, s, es)
    ensures Accounted(Run(c, s, es))
    decreases |es|
  {
    hide Inv, Accounted, Enabled, Do;
    if es != [] {
      StepKeeps(c, s, es[0]);
      StepAccounts(c, s, es[0]);
      RunAccounts(c, Do(c, s, es[0]), es[1..]);
    }
  }

  /** Each operation is all or nothing: its writes are in one committed group, every one of them,
      or in no committed group at all; an operation still in progress is in none. */
  lemma OperationsAreAtomic(c: Config, s: State, es: seq<Event>, op: nat)
    requires Init(c, s) && CanRun(c, s, es) && op in Run(c, s, es).issued
    ensures var t := Run(c, s, es);
      && (InNoGroup(t, op) || exists g :: 0 <= g < |t.groups| && OnlyIn(t, op, g))
      && forall i :: 0 <= i < |t.active| && t.active[i].op == op ==> InNoGroup(t, op)
  {
    hide Run, CanRun;
    InitHolds(c, s);
    RunAccounts(c, s, es);
    assert FateOk(Run(c, s, es), op);
  }

  /** A finished commit makes its operations durable: when the machine runs and no operation is
      active, all writes of every operation that no crash has cut off are in one committed group. */
  lemma FinishedIsDurable(c: Config, s: State, es: seq<Event>, op: nat)
    requires Init(c, s) && CanRun(c, s, es)
    requires var t := Run(c, s, es);
      t.phase.Running? && t.active == [] && op in t.issued && t.issued[op] != [] && op in t.fate && !t.fate[op].Lost?
    ensures exists g :: OnlyIn(Run(c, s, es), op, g)
  {
    hide Run, CanRun, OnlyIn, Coherent, Survives;
    InitHolds(c, s);
    RunKeeps(c, s, es);
    RunAccounts(c, s, es);
    var t := Run(c, s, es);
    EmptyBy(op);
    assert t.cur == [] && FateOk(t, op);
    assert t.fate[op].Durable?;
  }

  /** Only a crash loses an operation. */
  lemma {:induction false} LostByCrash(c: Config, s: State, es: seq<Event>)
    requires CanRun(c, s, es) && Crash !in es && forall op :: op in s.fate ==> !s.fate[op].Lost?
    ensures forall op :: op in Run(c, s, es).fate ==> !Run(c, s, es).fate[op].Lost?
    decreases |es|
  {
    if es != [] {
      LostAtOnce(c, s, es[0]);
      hide Do, Enabled;
      LostByCrash(c, Do(c, s, es[0]), es[1..]);
    }
  }

  lemma LostAtOnce(c: Config, s: State, e: Event)
    requires Enabled(c, s, e) && e != Crash && forall op :: op in s.fate ==> !s.fate[op].Lost?
    ensures forall op :: op in Do(c, s, e).fate ==> !Do(c, s, e).fate[op].Lost?
  {
    hide CommitWriteOf, View, HeadList;
  }
}
