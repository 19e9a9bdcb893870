/** The file system over its log: what is found after a power failure. A call is what writei, itrunc
    or the freeing part of iput does to the blocks; a committed group consists of whole calls, for an
    operation makes its calls between begin_op and end_op. */
module FsCrash {
  import opened Basics
  import opened Blocks
  import opened Dinodes
  import opened Wal
  import opened FsSpec
  import opened Fs
  import opened LogProtocol

  /** The image e is d after these calls, one after the other. */
  ghost predicate AllDid(sb: Super, d: Image, e: Image, calls: seq<Call>)
    decreases |calls|
  {
    if calls == [] then e == d else exists m :: Did(sb, d, m, calls[0]) && AllDid(sb, m, e, calls[1..])
  }

  // ---- files as byte strings ----

  type Files = map<nat, seq<byte>>

  /** The contents of all inodes on disk. */
  function FilesOf(sb: Super, d: Image): Files {
    map i | i in Inodes(sb, d) && Sized(Inodes(sb, d)[i]) :: Content(d, Inodes(sb, d)[i])
  }

  /** What a call means to its file: a splice, or nothing left. */
  function DoCall(files: Files, call: Call): Files {
    match call
    case WriteFile(i, off, src) =>
      if i in files && off <= |files[i]| then files[i := Splice(files[i], off, src)] else files
    case Truncate(i) => files[i := []]
  }

  function DoCalls(files: Files, calls: seq<Call>): Files
    decreases |calls|
  {
    if calls == [] then files else DoCalls(DoCall(files, calls[0]), calls[1..])
  }

  lemma CallMeans(sb: Super, d: Image, e: Image, call: Call)
    requires Consistent(sb, d) && Did(sb, d, e, call)
    ensures FilesOf(sb, e) == DoCall(FilesOf(sb, d), call)
  {
    hide Inodes, Content, Splice, Sound;
    var tab, tab' := Inodes(sb, d), Inodes(sb, e);
    forall j | j in tab ensures Sized(tab[j]) { SizeFits(sb, d, tab, j); }
    forall j | j in tab' ensures Sized(tab'[j]) { SizeFits(sb, e, tab', j); }
    hide Sized;
    match call
    case WriteFile(i, off, src) => WriteMeans(d, tab, e, tab', i, off, src);
    case Truncate(i) => assert Content(e, tab'[i]) == [];
  }

  lemma WriteMeans(d: Image, tab: Table, e: Image, tab': Table, i: nat, off: nat, src: seq<byte>)
    requires WroteFile(d, tab, e, tab', i, off, src)
    ensures tab'.Keys == tab.Keys && i in tab && Sized(tab[i]) && Sized(tab'[i]) && off <= tab[i].size
    ensures Content(e, tab'[i]) == Splice(Content(d, tab[i]), off, src)
    ensures forall j :: j in tab && j != i ==>
      Sized(tab[j]) && tab'[j] == tab[j] && Content(e, tab'[j]) == Content(d, tab[j])
  {
    hide Content, Splice;
  }

  lemma {:induction false} CallsMean(sb: Super, d: Image, e: Image, calls: seq<Call>)
    requires Consistent(sb, d) && AllDid(sb, d, e, calls)
    ensures Consistent(sb, e) && FilesOf(sb, e) == DoCalls(FilesOf(sb, d), calls)
    decreases |calls|
  {
    hide Consistent, FilesOf, DoCall;
    if calls != [] {
      var m :| Did(sb, d, m, calls[0]) && AllDid(sb, m, e, calls[1..]);
      CallMeans(sb, d, m, calls[0]);
      CallsMean(sb, m, e, calls[1..]);
    }
  }

  lemma {:induction false} CallsJoin(files: Files, calls: seq<Call>, more: seq<Call>)
    ensures DoCalls(files, calls + more) == DoCalls(DoCalls(files, calls), more)
    decreases |calls|
  {
    if calls == [] {
      assert calls + more == more;
    } else {
      CallsJoin(DoCall(files, calls[0]), calls[1..], more);
      assert (calls + more)[1..] == calls[1..] + more;
    }
  }

  // ---- committed groups ----

  /** Each group takes the home blocks from one image to the next by the calls given for it. */
  ghost predicate WholeCalls(sb: Super, d: Image, groups: seq<seq<Rec>>, calls: seq<seq<Call>>) {
    && |calls| == |groups|
    && forall k :: 0 <= k < |groups| ==>
         AllDid(sb, Replay(d, groups[..k]), Play(Replay(d, groups[..k]), groups[k]), calls[k])
  }

  function Concat(calls: seq<seq<Call>>): seq<Call> {
    if calls == [] then [] else Concat(calls[..|calls| - 1]) + calls[|calls| - 1]
  }

  lemma {:induction false} GroupsMean(sb: Super, d: Image, groups: seq<seq<Rec>>, calls: seq<seq<Call>>)
    requires Consistent(sb, d) && WholeCalls(sb, d, groups, calls)
    ensures Consistent(sb, Replay(d, groups))
    ensures FilesOf(sb, Replay(d, groups)) == DoCalls(FilesOf(sb, d), Concat(calls))
    decreases |groups|
  {
    if groups != [] {
      var n := |groups| - 1;
      assert groups == groups[..n] + [groups[n]];
      forall k | 0 <= k < n ensures groups[..n][..k] == groups[..k] {}
      hide Consistent, AllDid, FilesOf, DoCalls, Play;
      GroupsMean(sb, d, groups[..n], calls[..n]);
      ReplaySnoc(d, groups[..n], groups[n]);
      CallsMean(sb, Replay(d, groups[..n]), Replay(d, groups), calls[n]);
      CallsJoin(FilesOf(sb, d), Concat(calls[..n]), calls[n]);
    }
  }

  /** The log lies below the inodes; nothing of the file system depends on it. */
  lemma LogDoesNotMatter(sb: Super, d: Image, e: Image)
    requires Consistent(sb, d) && |e| == |d| && forall b: nat :: sb.inodestart <= b < |d| ==> e[b] == d[b]
    ensures Consistent(sb, e) && FilesOf(sb, e) == FilesOf(sb, d)
  {
    assert InodeArea(sb, e) == InodeArea(sb, d);
    hide Decode;
    MetaFrameSound(sb, d, e, Inodes(sb, d));
  }

  /** Consistency across crashes: cut the power at any moment of any run of the logging layer on a
      consistent disk, and crash recovery any number of times. The file system found is consistent,
      and every file holds exactly what the calls of the committed groups have made of it. */
  lemma CrashConsistency(sb: Super, c: Config, s: State, es: seq<Event>, crashes: seq<nat>, calls: seq<seq<Call>>)
    requires Init(c, s) && CanRun(c, s, es) && Consistent(sb, c.d0) && c.l.start + c.l.size <= sb.inodestart
    requires WholeCalls(sb, c.d0, Run(c, s, es).groups, calls)
    ensures WellFormed(c.l, Run(c, s, es).disk)
    ensures var e := CrashingRecovery(c.l, Run(c, s, es).disk, crashes);
            Consistent(sb, e) && FilesOf(sb, e) == DoCalls(FilesOf(sb, c.d0), Concat(calls))
  {
    hide Init, CanRun, Run, Consistent, WholeCalls, FilesOf, DoCalls, Concat, CrashingRecovery, WellFormed, Quiet;
    Durability(c, s, es, crashes);
    var groups := Run(c, s, es).groups;
    GroupsMean(sb, c.d0, groups, calls);
    LogDoesNotMatter(sb, Replay(c.d0, groups), CrashingRecovery(c.l, Run(c, s, es).disk, crashes));
  }
}
