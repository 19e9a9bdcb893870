/** The write-ahead log of log.c as disk writes: which blocks commit() and recover_from_log()
    write, in which order, and what a disk means if the machine stops between any two of them. */
module Wal {
  import opened Basics
  import opened Blocks

  const LOGSIZE: nat := 30

  type Disk = seq<Block>

  /** One block written to the disk by iderw. Single-block writes are atomic. */
  datatype Write = Write(at: nat, data: Block)

  /** Where the superblock puts the log: header block `start`, slots `start+1 .. start+size-1`. */
  datatype Layout = Layout(start: nat, size: nat)

  predicate InLog(l: Layout, b: nat) {
    l.start <= b < l.start + l.size
  }

  predicate Home(l: Layout, d: Disk, b: nat) {
    b < |d| && !InLog(l, b)
  }

  predicate InRange(d: Disk, ws: seq<Write>) {
    forall i :: 0 <= i < |ws| ==> ws[i].at < |d|
  }

  /** The disk after the writes `ws`, in order. */
  function Apply(d: Disk, ws: seq<Write>): (e: Disk)
    requires InRange(d, ws)
    ensures |e| == |d|
  {
    if ws == [] then d
    else
      var w := ws[|ws| - 1];
      Apply(d, ws[..|ws| - 1])[w.at := w.data]
  }

  lemma ApplySnoc(d: Disk, ws: seq<Write>, w: Write)
    requires InRange(d, ws) && w.at < |d|
    ensures InRange(d, ws + [w]) && Apply(d, ws + [w]) == Apply(d, ws)[w.at := w.data]
  {
  }

  lemma {:induction false} ApplyConcat(d: Disk, us: seq<Write>, vs: seq<Write>)
    requires InRange(d, us) && InRange(d, vs)
    ensures InRange(d, us + vs) && Apply(d, us + vs) == Apply(Apply(d, us), vs)
    decreases |vs|
  {
    if vs == [] {
      assert us + vs == us;
    } else {
      var n := |vs| - 1;
      ApplyConcat(d, us, vs[..n]);
      assert us + vs == (us + vs[..n]) + [vs[n]];
      ApplySnoc(d, us + vs[..n], vs[n]);
    }
  }

  /** The logged block numbers a header block holds: its first word counts them. */
  function HeadList(h: Block): (bl: seq<nat>)
    requires Word(h, 0) <= LOGSIZE
  {
    seq(Word(h, 0), i requires 0 <= i < Word(h, 0) => Word(h, i + 1))
  }

  predicate Distinct(s: seq<nat>) {
    forall i, j :: 0 <= i < j < |s| ==> s[i] != s[j]
  }

  /** Block lists that log_write builds: home blocks, none twice, one log slot for each. */
  predicate LogList(l: Layout, d: Disk, bl: seq<nat>) {
    && |bl| <= LOGSIZE && |bl| < l.size
    && Distinct(bl)
    && forall i :: 0 <= i < |bl| ==> Home(l, d, bl[i])
  }

  predicate WellFormed(l: Layout, d: Disk) {
    && 0 < l.size && l.start + l.size <= |d| <= UINT
    && Word(d[l.start], 0) <= LOGSIZE
    && LogList(l, d, HeadList(d[l.start]))
  }

  /** A well-formed disk whose log is empty. */
  predicate Quiet(l: Layout, d: Disk) {
    WellFormed(l, d) && HeadList(d[l.start]) == []
  }

  /** write_head: store the count and the block numbers; words past the count keep their old values. */
  function EncodeHead(h: Block, bl: seq<nat>): (r: Block)
    requires |bl| <= LOGSIZE && forall i :: 0 <= i < |bl| ==> bl[i] < UINT
    ensures Word(r, 0) <= LOGSIZE && HeadList(r) == bl
  {
    PutNumbers(PutWord(h, 0, |bl|), bl, |bl|)
  }

  /** struct logheader: the count, then the block numbers. */
  lemma HeadLayout(h: Block, bl: seq<nat>)
    requires |bl| <= LOGSIZE && forall i :: 0 <= i < |bl| ==> bl[i] < UINT
    ensures Word(EncodeHead(h, bl), 0) == |bl|
    ensures forall i :: 0 <= i < |bl| ==> Word(EncodeHead(h, bl), i + 1) == bl[i]
  {
    var r := EncodeHead(h, bl);
    assert |HeadList(r)| == Word(r, 0);
    forall i | 0 <= i < |bl| ensures Word(r, i + 1) == bl[i] { assert HeadList(r)[i] == Word(r, i + 1); }
  }

  function PutNumbers(h: Block, bl: seq<nat>, n: nat): (r: Block)
    requires n <= |bl| <= LOGSIZE && forall i :: 0 <= i < |bl| ==> bl[i] < UINT
    ensures Word(r, 0) == Word(h, 0)
    ensures forall i :: 0 <= i < n ==> Word(r, i + 1) == bl[i]
  {
    if n == 0 then h else PutWord(PutNumbers(h, bl, n - 1), n, bl[n - 1])
  }

  function IndexOf(bl: seq<nat>, b: nat): (i: nat)
    requires b in bl
    ensures i < |bl| && bl[i] == b
  {
    if bl[0] == b then 0 else 1 + IndexOf(bl[1..], b)
  }

  // ---- the writes ----

  function LogWrites(l: Layout, vals: seq<Block>): (ws: seq<Write>) {
    seq(|vals|, i requires 0 <= i < |vals| => Write(l.start + i + 1, vals[i]))
  }

  function InstallWrites(bl: seq<nat>, vals: seq<Block>): (ws: seq<Write>)
    requires |vals| == |bl|
  {
    seq(|bl|, i requires 0 <= i < |bl| => Write(bl[i], vals[i]))
  }

  /** The contents of the log slots that the header counts. */
  function Slots(l: Layout, d: Disk): (vals: seq<Block>)
    requires WellFormed(l, d)
    ensures |vals| == |HeadList(d[l.start])|
  {
    var n := |HeadList(d[l.start])|;
    seq(n, i requires 0 <= i < n => d[l.start + i + 1])
  }

  /** The writes of recover_from_log: install each logged block at home, then clear the header. */
  function RecoverWrites(l: Layout, d: Disk): (ws: seq<Write>)
    requires WellFormed(l, d)
    ensures InRange(d, ws) && |ws| == |HeadList(d[l.start])| + 1
  {
    InstallWrites(HeadList(d[l.start]), Slots(l, d)) + [Write(l.start, EncodeHead(d[l.start], []))]
  }

  /** The first part of commit: copy the modified blocks to the log, then write the header. */
  function PrepareWrites(l: Layout, d: Disk, bl: seq<nat>, vals: seq<Block>): (ws: seq<Write>)
    requires WellFormed(l, d) && LogList(l, d, bl) && |vals| == |bl|
    ensures InRange(d, ws) && |ws| == |bl| + 1
  {
    LogWrites(l, vals) + [Write(l.start, EncodeHead(d[l.start], bl))]
  }

  /** All the writes of commit for the block list `bl` with new contents `vals`. */
  function CommitWrites(l: Layout, d: Disk, bl: seq<nat>, vals: seq<Block>): (ws: seq<Write>)
    requires WellFormed(l, d) && LogList(l, d, bl) && |vals| == |bl|
    ensures InRange(d, ws)
    ensures |ws| == if bl == [] then 0 else 2 * |bl| + 2
  {
    if bl == [] then []
    else
      var pre := PrepareWrites(l, d, bl, vals);
      Prepared(l, d, bl, vals);
      pre + RecoverWrites(l, Apply(d, pre))
  }

  // ---- what a disk means ----

  /** What block `b` will hold once recovery has run: the logged copy if the header names `b`. */
  function Logical(l: Layout, d: Disk, b: nat): Block
    requires WellFormed(l, d) && Home(l, d, b)
  {
    var bl := HeadList(d[l.start]);
    if b in bl then d[l.start + IndexOf(bl, b) + 1] else d[b]
  }

  /** Two disks that recovery takes to the same home blocks. */
  ghost predicate SameMeaning(l: Layout, d: Disk, e: Disk)
    requires WellFormed(l, d) && WellFormed(l, e)
  {
    && |d| == |e|
    && forall b: nat :: Home(l, d, b) ==> Logical(l, e, b) == Logical(l, d, b)
  }

  /** Block `b` after a transaction that gives the blocks `bl` the contents `vals`. */
  function Updated(d: Disk, bl: seq<nat>, vals: seq<Block>, b: nat): Block
    requires |vals| == |bl| && b < |d|
  {
    if b in bl then vals[IndexOf(bl, b)] else d[b]
  }

  lemma {:induction false} InstallPrefix(d: Disk, bl: seq<nat>, vals: seq<Block>, k: nat, b: nat)
    requires |vals| == |bl| && Distinct(bl) && k <= |bl| && b < |d|
    requires forall i :: 0 <= i < |bl| ==> bl[i] < |d|
    ensures Apply(d, InstallWrites(bl, vals)[..k])[b]
         == if b in bl && IndexOf(bl, b) < k then vals[IndexOf(bl, b)] else d[b]
  {
    if k > 0 {
      InstallPrefix(d, bl, vals, k - 1, b);
      var ws := InstallWrites(bl, vals);
      assert ws[..k] == ws[..k - 1] + [ws[k - 1]];
      ApplySnoc(d, ws[..k - 1], ws[k - 1]);
    }
  }

  lemma {:induction false} LogPrefix(l: Layout, d: Disk, vals: seq<Block>, k: nat, b: nat)
    requires k <= |vals| < l.size && l.start + l.size <= |d| && b < |d|
    ensures InRange(d, LogWrites(l, vals)[..k])
    ensures Apply(d, LogWrites(l, vals)[..k])[b]
         == if l.start + 1 <= b < l.start + 1 + k then vals[b - l.start - 1] else d[b]
  {
    if k > 0 {
      LogPrefix(l, d, vals, k - 1, b);
      var ws := LogWrites(l, vals);
      assert ws[..k] == ws[..k - 1] + [ws[k - 1]];
      ApplySnoc(d, ws[..k - 1], ws[k - 1]);
    }
  }

  lemma PreparedAt(l: Layout, d: Disk, bl: seq<nat>, vals: seq<Block>, b: nat)
    requires WellFormed(l, d) && LogList(l, d, bl) && |vals| == |bl| && b < |d|
    ensures Apply(d, PrepareWrites(l, d, bl, vals))[b]
         == if b == l.start then EncodeHead(d[l.start], bl)
            else if l.start < b <= l.start + |bl| then vals[b - l.start - 1] else d[b]
  {
    hide Distinct, HeadList, Word, EncodeHead;
    var ws := LogWrites(l, vals);
    assert ws[..|bl|] == ws;
    ApplySnoc(d, ws, Write(l.start, EncodeHead(d[l.start], bl)));
    LogPrefix(l, d, vals, |bl|, b);
  }

  /** After the header write the disk means the whole transaction; no home block has moved yet. */
  lemma Prepared(l: Layout, d: Disk, bl: seq<nat>, vals: seq<Block>)
    requires WellFormed(l, d) && LogList(l, d, bl) && |vals| == |bl|
    ensures var e := Apply(d, PrepareWrites(l, d, bl, vals));
            && WellFormed(l, e) && HeadList(e[l.start]) == bl && Slots(l, e) == vals
            && (forall b: nat :: Home(l, d, b) ==> e[b] == d[b])
            && (forall b: nat :: Home(l, d, b) ==> Logical(l, e, b) == Updated(d, bl, vals, b))
  {
    hide Apply, PrepareWrites, EncodeHead;
    var e := Apply(d, PrepareWrites(l, d, bl, vals));
    forall b: nat | b < |d|
      ensures e[b] == if b == l.start then EncodeHead(d[l.start], bl)
                      else if l.start < b <= l.start + |bl| then vals[b - l.start - 1] else d[b]
    {
      PreparedAt(l, d, bl, vals, b);
    }
    assert HeadList(e[l.start]) == bl && Word(e[l.start], 0) == |bl|;
    hide Word, HeadList;
    assert LogList(l, e, bl);
    assert Slots(l, e) == vals;
  }

  /** Only home blocks that the header names change, and only to what the log slot holds. */
  ghost predicate Installing(l: Layout, d: Disk, e: Disk)
    requires WellFormed(l, d)
  {
    && |e| == |d|
    && (forall b: nat :: InLog(l, b) ==> e[b] == d[b])
    && (forall b: nat :: Home(l, d, b) ==> e[b] == d[b] || e[b] == Logical(l, d, b))
  }

  lemma InstallingKeepsMeaning(l: Layout, d: Disk, e: Disk)
    requires WellFormed(l, d) && Installing(l, d, e)
    ensures WellFormed(l, e) && HeadList(e[l.start]) == HeadList(d[l.start]) && SameMeaning(l, d, e)
  {
    assert e[l.start] == d[l.start];
  }

  lemma InstalledAt(l: Layout, d: Disk, k: nat, b: nat)
    requires WellFormed(l, d) && k <= |HeadList(d[l.start])| && b < |d|
    ensures var x := Apply(d, RecoverWrites(l, d)[..k])[b];
            if InLog(l, b) then x == d[b]
            else x == Logical(l, d, b) || (k < |HeadList(d[l.start])| && x == d[b])
  {
    hide Apply, Word;
    var bl, vals := HeadList(d[l.start]), Slots(l, d);
    assert RecoverWrites(l, d)[..k] == InstallWrites(bl, vals)[..k];
    InstallPrefix(d, bl, vals, k, b);
    if b in bl {
      var i := IndexOf(bl, b);
      assert Home(l, d, bl[i]) && Logical(l, d, b) == vals[i];
    }
  }

  lemma InstallsAreInstalling(l: Layout, d: Disk, k: nat)
    requires WellFormed(l, d) && k <= |HeadList(d[l.start])|
    ensures Installing(l, d, Apply(d, RecoverWrites(l, d)[..k]))
    ensures k == |HeadList(d[l.start])| ==>
              forall b: nat :: Home(l, d, b) ==> Apply(d, RecoverWrites(l, d)[..k])[b] == Logical(l, d, b)
  {
    forall b: nat | b < |d|
      ensures var x := Apply(d, RecoverWrites(l, d)[..k])[b];
              if InLog(l, b) then x == d[b]
              else x == Logical(l, d, b) || (k < |HeadList(d[l.start])| && x == d[b])
    {
      InstalledAt(l, d, k, b);
    }
  }

  lemma ClearingKeepsMeaning(l: Layout, d: Disk, h: Block)
    requires WellFormed(l, d) && Word(h, 0) == 0
    requires forall b: nat :: Home(l, d, b) ==> d[b] == Logical(l, d, b)
    ensures Quiet(l, d[l.start := h]) && SameMeaning(l, d, d[l.start := h])
  {
  }

  /** Stopping recovery after any number of its writes leaves the disk's meaning unchanged;
      finishing it leaves the log empty. */
  lemma RecoverPrefix(l: Layout, d: Disk, k: nat)
    requires WellFormed(l, d) && k <= |RecoverWrites(l, d)|
    ensures var e := Apply(d, RecoverWrites(l, d)[..k]);
            && WellFormed(l, e) && SameMeaning(l, d, e)
            && (k == |RecoverWrites(l, d)| ==> Quiet(l, e))
  {
    var n, ws := |HeadList(d[l.start])|, RecoverWrites(l, d);
    var m := if k <= n then k else n;
    InstallsAreInstalling(l, d, m);
    var e := Apply(d, ws[..m]);
    InstallingKeepsMeaning(l, d, e);
    if k > n {
      assert ws[..k] == ws[..m] + [ws[m]];
      ApplySnoc(d, ws[..m], ws[m]);
      ClearingKeepsMeaning(l, e, ws[m].data);
    }
  }

  lemma LoggingKeepsMeaning(l: Layout, d: Disk, e: Disk)
    requires Quiet(l, d) && |e| == |d| && e[l.start] == d[l.start]
    requires forall b: nat :: Home(l, d, b) ==> e[b] == d[b]
    ensures Quiet(l, e) && forall b: nat :: Home(l, d, b) ==> Logical(l, e, b) == d[b]
  {
  }

  lemma TornBeforeHeader(l: Layout, d: Disk, bl: seq<nat>, vals: seq<Block>, k: nat)
    requires Quiet(l, d) && LogList(l, d, bl) && |vals| == |bl| && k <= |bl|
    requires k <= |CommitWrites(l, d, bl, vals)|
    ensures var e := Apply(d, CommitWrites(l, d, bl, vals)[..k]);
            Quiet(l, e) && forall b: nat :: Home(l, d, b) ==> Logical(l, e, b) == d[b]
  {
    var ws := LogWrites(l, vals)[..k];
    assert CommitWrites(l, d, bl, vals)[..k] == ws;
    var e := Apply(d, ws);
    forall b: nat | b < |d| && (b == l.start || !InLog(l, b)) ensures e[b] == d[b] {
      LogPrefix(l, d, vals, k, b);
    }
    LoggingKeepsMeaning(l, d, e);
  }

  lemma TornAfterHeader(l: Layout, d: Disk, bl: seq<nat>, vals: seq<Block>, k: nat)
    requires Quiet(l, d) && LogList(l, d, bl) && |vals| == |bl|
    requires |bl| < k <= |CommitWrites(l, d, bl, vals)|
    ensures var e := Apply(d, CommitWrites(l, d, bl, vals)[..k]);
            && WellFormed(l, e)
            && (forall b: nat :: Home(l, d, b) ==> Logical(l, e, b) == Updated(d, bl, vals, b))
            && (k == |CommitWrites(l, d, bl, vals)| ==> Quiet(l, e))
  {
    hide LogList, Word, HeadList, Slots, Updated, Apply, RecoverWrites, PrepareWrites, Logical;
    Prepared(l, d, bl, vals);
    var pre := PrepareWrites(l, d, bl, vals);
    var e := Apply(d, pre);
    var rec := RecoverWrites(l, e)[..k - |bl| - 1];
    assert CommitWrites(l, d, bl, vals)[..k] == pre + rec;
    ApplyConcat(d, pre, rec);
    RecoverPrefix(l, e, k - |bl| - 1);
    var f := Apply(e, rec);
    forall b: nat | Home(l, d, b) ensures Logical(l, f, b) == Updated(d, bl, vals, b) {
      assert Home(l, e, b);
    }
  }

  /** Stopping commit after `k` of its writes leaves a disk that means the old contents
      before the header write has happened, and the whole transaction from then on. */
  lemma CommitPrefix(l: Layout, d: Disk, bl: seq<nat>, vals: seq<Block>, k: nat)
    requires Quiet(l, d) && LogList(l, d, bl) && |vals| == |bl|
    requires k <= |CommitWrites(l, d, bl, vals)|
    ensures var e := Apply(d, CommitWrites(l, d, bl, vals)[..k]);
            && WellFormed(l, e)
            && (forall b: nat :: Home(l, d, b) ==>
                  Logical(l, e, b) == if k <= |bl| then d[b] else Updated(d, bl, vals, b))
            && (k == |CommitWrites(l, d, bl, vals)| ==> Quiet(l, e))
  {
    if k <= |bl| {
      TornBeforeHeader(l, d, bl, vals, k);
    } else {
      TornAfterHeader(l, d, bl, vals, k);
    }
  }

  /** Recovery attempts that are cut off after `crashes[i]` writes each, then one that completes. */
  function CrashingRecovery(l: Layout, d: Disk, crashes: seq<nat>): (e: Disk)
    requires WellFormed(l, d)
    ensures |e| == |d|
    decreases |crashes|
  {
    var ws := RecoverWrites(l, d);
    if crashes == [] || crashes[0] > |ws| then Apply(d, ws)
    else
      RecoverPrefix(l, d, crashes[0]);
      CrashingRecovery(l, Apply(d, ws[..crashes[0]]), crashes[1..])
  }

  lemma {:induction false} RecoveryConverges(l: Layout, d: Disk, crashes: seq<nat>)
    requires WellFormed(l, d)
    ensures var e := CrashingRecovery(l, d, crashes);
            && Quiet(l, e) && |e| == |d|
            && forall b: nat :: Home(l, d, b) ==> e[b] == Logical(l, d, b)
    decreases |crashes|
  {
    var ws := RecoverWrites(l, d);
    if crashes == [] || crashes[0] > |ws| {
      RecoverPrefix(l, d, |ws|);
      assert ws[..|ws|] == ws;
      var e := Apply(d, ws);
      forall b: nat | Home(l, d, b) ensures e[b] == Logical(l, d, b) {
        assert Logical(l, e, b) == e[b];
      }
    } else {
      RecoverPrefix(l, d, crashes[0]);
      var e := Apply(d, ws[..crashes[0]]);
      RecoveryConverges(l, e, crashes[1..]);
      forall b: nat | Home(l, d, b) ensures CrashingRecovery(l, d, crashes)[b] == Logical(l, d, b) {
        assert Home(l, e, b);
      }
    }
  }

  /** Crash atomicity: cut commit off after any `k` writes, then crash recovery any number of
      times; every home block ends old, or every home block ends new. New exactly when the
      header write (number |bl| + 1) had reached the disk. */
  lemma CrashAtomicity(l: Layout, d: Disk, bl: seq<nat>, vals: seq<Block>, k: nat, crashes: seq<nat>)
    requires Quiet(l, d) && LogList(l, d, bl) && |vals| == |bl|
    requires k <= |CommitWrites(l, d, bl, vals)|
    ensures var torn := Apply(d, CommitWrites(l, d, bl, vals)[..k]);
            && WellFormed(l, torn)
            && var e := CrashingRecovery(l, torn, crashes);
            && Quiet(l, e)
            && forall b: nat :: Home(l, d, b) ==> e[b] == if k <= |bl| then d[b] else Updated(d, bl, vals, b)
  {
    CommitPrefix(l, d, bl, vals, k);
    var torn := Apply(d, CommitWrites(l, d, bl, vals)[..k]);
    RecoveryConverges(l, torn, crashes);
    forall b: nat | Home(l, d, b)
      ensures CrashingRecovery(l, torn, crashes)[b] == if k <= |bl| then d[b] else Updated(d, bl, vals, b)
    {
      assert Home(l, torn, b);
    }
  }
}
