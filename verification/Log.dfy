/** log.c as it runs over the buffer cache. Each method reports exactly which blocks it wrote, in
    order: on success all of them, and if the cache ran out of buffers (a kernel panic, `ok` false)
    a prefix of them. Wal says what such prefixes mean. */
module Log {
  import opened Basics
  import opened Blocks
  import opened Wal
  import opened BufferCache

  const MAXOPBLOCKS: nat := 10

  /** log_write's effect on the block list, with absorption. */
  function Absorb(bl: seq<nat>, b: nat): (r: seq<nat>)
    ensures Distinct(bl) ==> Distinct(r)
    ensures b in r && (forall c :: c in r <==> c in bl || c == b)
  {
    if b in bl then bl else bl + [b]
  }

  function Contents(d: Disk, bl: seq<nat>): (vals: seq<Block>)
    requires forall i :: 0 <= i < |bl| ==> bl[i] < |d|
    ensures |vals| == |bl|
  {
    seq(|bl|, i requires 0 <= i < |bl| => d[bl[i]])
  }

  function SlotBlocks(l: Layout, d: Disk, n: nat): (vals: seq<Block>)
    requires n < l.size && l.start + l.size <= |d|
    ensures |vals| == n
  {
    seq(n, i requires 0 <= i < n => d[l.start + i + 1])
  }

  /** The disk, what readers see of it, and every write so far. */
  datatype Io = Io(disk: Disk, view: Disk, trace: seq<Write>)

  /** `after` is `before` once the first `k` of the writes `ws` have been made through the cache. */
  ghost predicate Wrote(before: Io, after: Io, ws: seq<Write>, k: nat) {
    && k <= |ws| && |before.view| == |before.disk| && InRange(before.disk, ws)
    && after == Io(Apply(before.disk, ws[..k]), Apply(before.view, ws[..k]), before.trace + ws[..k])
  }

  function OneWrite(io: Io, w: Write): Io
    requires w.at < |io.disk| == |io.view|
  {
    Io(io.disk[w.at := w.data], io.view[w.at := w.data], io.trace + [w])
  }

  /** Every home block on disk is what readers see and what they saw before. */
  ghost predicate Installed(l: Layout, before: Io, after: Io) {
    && |after.disk| == |after.view| == |before.view|
    && forall b: nat :: Home(l, after.disk, b) ==> after.disk[b] == after.view[b] == before.view[b]
  }

  lemma WroteNone(io: Io, ws: seq<Write>)
    requires |io.view| == |io.disk| && InRange(io.disk, ws)
    ensures Wrote(io, io, ws, 0)
  {
  }

  lemma WroteOne(before: Io, after: Io, ws: seq<Write>, k: nat)
    requires Wrote(before, after, ws, k) && k < |ws|
    ensures Wrote(before, OneWrite(after, ws[k]), ws, k + 1)
  {
    assert ws[..k + 1] == ws[..k] + [ws[k]];
    ApplySnoc(before.disk, ws[..k], ws[k]);
    ApplySnoc(before.view, ws[..k], ws[k]);
  }

  lemma WroteThen(before: Io, middle: Io, after: Io, us: seq<Write>, vs: seq<Write>, k: nat)
    requires Wrote(before, middle, us, |us|) && Wrote(middle, after, vs, k)
    ensures Wrote(before, after, us + vs, |us| + k)
  {
    assert (us + vs)[..|us| + k] == us + vs[..k];
    assert us[..|us|] == us;
    ApplyConcat(before.disk, us, vs[..k]);
    ApplyConcat(before.view, us, vs[..k]);
  }

  lemma WroteAll(before: Io, after: Io, ws: seq<Write>)
    requires Wrote(before, after, ws, |ws|)
    ensures after == Io(Apply(before.disk, ws), Apply(before.view, ws), before.trace + ws)
  {
    assert ws[..|ws|] == ws;
  }

  lemma WrotePrefix(before: Io, after: Io, us: seq<Write>, vs: seq<Write>, k: nat)
    requires Wrote(before, after, us, k) && InRange(before.disk, vs)
    ensures Wrote(before, after, us + vs, k)
  {
    assert (us + vs)[..k] == us[..k];
  }

  /** After write_log the header is as before, and write_head makes it the commit record. */
  lemma AfterWriteLog(l: Layout, io0: Io, io1: Io, bl: seq<nat>, vals: seq<Block>)
    requires WellFormed(l, io0.disk) && LogList(l, io0.disk, bl) && |vals| == |bl|
    requires Wrote(io0, io1, LogWrites(l, vals), |bl|)
    ensures |io1.disk| == |io0.disk| == |io1.view| && io1.disk[l.start] == io0.disk[l.start]
    ensures var io2 := OneWrite(io1, Write(l.start, EncodeHead(io0.disk[l.start], bl)));
            && Wrote(io0, io2, PrepareWrites(l, io0.disk, bl, vals), |bl| + 1)
            && LogList(l, io2.disk, bl) && SlotBlocks(l, io2.disk, |bl|) == vals
            && WellFormed(l, io2.disk) && HeadList(io2.disk[l.start]) == bl
  {
    hide EncodeHead, HeadList, Word;
    HeadAfterLog(l, io0, io1, bl, vals);
    var pre := PrepareWrites(l, io0.disk, bl, vals);
    var io2 := OneWrite(io1, Write(l.start, EncodeHead(io0.disk[l.start], bl)));
    assert |pre| == |bl| + 1;
    hide Apply, Wrote, PrepareWrites, LogList;
    WroteAll(io0, io2, pre);
    Prepared(l, io0.disk, bl, vals);
    SameList(l, io0.disk, io2.disk, bl);
    assert SlotBlocks(l, io2.disk, |bl|) == Slots(l, io2.disk);
  }

  lemma SameList(l: Layout, d: Disk, e: Disk, bl: seq<nat>)
    requires LogList(l, d, bl) && |e| == |d|
    ensures LogList(l, e, bl)
  {
  }

  lemma HeadAfterLog(l: Layout, io0: Io, io1: Io, bl: seq<nat>, vals: seq<Block>)
    requires WellFormed(l, io0.disk) && LogList(l, io0.disk, bl) && |vals| == |bl|
    requires Wrote(io0, io1, LogWrites(l, vals), |bl|)
    ensures |io1.disk| == |io0.disk| == |io1.view| && io1.disk[l.start] == io0.disk[l.start]
    ensures Wrote(io0, OneWrite(io1, Write(l.start, EncodeHead(io0.disk[l.start], bl))),
              PrepareWrites(l, io0.disk, bl, vals), |bl| + 1)
  {
    hide EncodeHead, HeadList, Word, Apply;
    var logs, w := LogWrites(l, vals), Write(l.start, EncodeHead(io0.disk[l.start], bl));
    assert logs[..|bl|] == logs;
    LogPrefix(l, io0.disk, vals, |bl|, l.start);
    WrotePrefix(io0, io1, logs, [w], |bl|);
    WroteOne(io0, io1, logs + [w], |bl|);
  }

  /** install_trans and the clearing write_head are the writes recovery makes. */
  lemma AfterInstall(l: Layout, io2: Io, io3: Io, k: nat)
    requires WellFormed(l, io2.disk)
    requires var bl := HeadList(io2.disk[l.start]);
             Wrote(io2, io3, InstallWrites(bl, SlotBlocks(l, io2.disk, |bl|)), k)
    ensures Wrote(io2, io3, RecoverWrites(l, io2.disk), k)
    ensures |io3.disk| == |io2.disk| == |io3.view| && io3.disk[l.start] == io2.disk[l.start]
    ensures k == |HeadList(io2.disk[l.start])| ==>
              Wrote(io2, OneWrite(io3, Write(l.start, EncodeHead(io2.disk[l.start], []))),
                RecoverWrites(l, io2.disk), k + 1)
  {
    hide EncodeHead, HeadList, Word;
    var bl, w := HeadList(io2.disk[l.start]), Write(l.start, EncodeHead(io2.disk[l.start], []));
    var vals := SlotBlocks(l, io2.disk, |bl|);
    assert vals == Slots(l, io2.disk);
    InstallPrefix(io2.disk, bl, vals, k, l.start);
    WrotePrefix(io2, io3, InstallWrites(bl, vals), [w], k);
    if k == |bl| { WroteOne(io2, io3, RecoverWrites(l, io2.disk), k); }
  }

  /** The two halves of commit make up CommitWrites. */
  lemma CommitPhases(l: Layout, io0: Io, io2: Io, io3: Io, bl: seq<nat>, vals: seq<Block>, k: nat)
    requires WellFormed(l, io0.disk) && LogList(l, io0.disk, bl) && |vals| == |bl| > 0
    requires Wrote(io0, io2, PrepareWrites(l, io0.disk, bl, vals), |bl| + 1)
    requires WellFormed(l, io2.disk) && Wrote(io2, io3, RecoverWrites(l, io2.disk), k)
    ensures Wrote(io0, io3, CommitWrites(l, io0.disk, bl, vals), |bl| + 1 + k)
  {
    hide RecoverWrites, PrepareWrites, LogList, HeadList, Word, Apply;
    var pre := PrepareWrites(l, io0.disk, bl, vals);
    WroteAll(io0, io2, pre);
    WroteThen(io0, io2, io3, pre, RecoverWrites(l, io2.disk), k);
  }

  lemma PreparedIsCommitting(l: Layout, io0: Io, io2: Io, bl: seq<nat>, vals: seq<Block>)
    requires WellFormed(l, io0.disk) && LogList(l, io0.disk, bl) && |vals| == |bl| > 0
    requires Wrote(io0, io2, PrepareWrites(l, io0.disk, bl, vals), |bl| + 1)
    ensures Wrote(io0, io2, CommitWrites(l, io0.disk, bl, vals), |bl| + 1)
  {
    hide PrepareWrites, RecoverWrites, LogList, HeadList, Word, Apply;
    Prepared(l, io0.disk, bl, vals);
    var pre := PrepareWrites(l, io0.disk, bl, vals);
    assert CommitWrites(l, io0.disk, bl, vals)[..|bl| + 1] == pre[..|bl| + 1];
  }

  lemma TornLogging(l: Layout, io0: Io, io1: Io, bl: seq<nat>, vals: seq<Block>, k: nat)
    requires WellFormed(l, io0.disk) && LogList(l, io0.disk, bl) && |vals| == |bl| > 0
    requires Wrote(io0, io1, LogWrites(l, vals), k)
    ensures Wrote(io0, io1, CommitWrites(l, io0.disk, bl, vals), k)
  {
    assert CommitWrites(l, io0.disk, bl, vals)[..k] == LogWrites(l, vals)[..k];
  }

  /** Two starting points end alike wherever the writes reach, and keep their own blocks elsewhere. */
  lemma {:induction false} SameOrUntouched(d: Disk, v: Disk, ws: seq<Write>, b: nat)
    requires |d| == |v| && InRange(d, ws) && b < |d|
    ensures Apply(v, ws)[b] == Apply(d, ws)[b] || (Apply(v, ws)[b] == v[b] && Apply(d, ws)[b] == d[b])
    decreases |ws|
  {
    if ws != [] { SameOrUntouched(d, v, ws[..|ws| - 1], b); }
  }

  /** Commit moves the readers' contents to disk and changes none of them. */
  lemma CommitKeepsView(l: Layout, d: Disk, v: Disk, bl: seq<nat>)
    requires Quiet(l, d) && LogList(l, d, bl) && |v| == |d|
    requires forall b: nat :: Home(l, d, b) && b !in bl ==> v[b] == d[b]
    ensures var ws := CommitWrites(l, d, bl, Contents(v, bl));
            && Quiet(l, Apply(d, ws))
            && forall b: nat :: Home(l, d, b) ==> Apply(v, ws)[b] == v[b] && Apply(d, ws)[b] == v[b]
  {
    hide CommitWrites, Word, HeadList, Apply;
    var vals := Contents(v, bl);
    var ws := CommitWrites(l, d, bl, vals);
    assert ws[..|ws|] == ws;
    CommitPrefix(l, d, bl, vals, |ws|);
    var e := Apply(d, ws);
    forall b: nat | Home(l, d, b) ensures Apply(v, ws)[b] == v[b] && e[b] == v[b] {
      SameOrUntouched(d, v, ws, b);
      assert Home(l, e, b) && Logical(l, e, b) == e[b];
      assert Updated(d, bl, vals, b) == v[b];
    }
  }

  lemma {:induction false} ListSize(bl: seq<nat>, pinned: set<nat>)
    requires forall b :: b in pinned ==> b in bl
    ensures |pinned| <= |bl|
  {
    if bl != [] {
      var b := bl[|bl| - 1];
      ListSize(bl[..|bl| - 1], pinned - {b});
      Fewer(pinned, pinned - {b} + {b});
    } else {
      assert pinned == {};
    }
  }

  /** The pinned blocks and the buffers others hold leave a buffer, and another unless all blocks
      from tail on are pinned. */
  predicate Supplied(pinned: set<nat>, held: nat, bl: seq<nat>, tail: nat) {
    && |pinned| + held < NBUF
    && (|pinned| + held + 1 < NBUF || forall j :: tail <= j < |bl| ==> bl[j] in pinned)
  }

  lemma StillSupplied(pinned: set<nat>, held: nat, bl: seq<nat>, tail: nat)
    requires tail < |bl| && Distinct(bl) && Supplied(pinned, held, bl, tail)
    ensures Supplied(pinned - {bl[tail]}, held, bl, tail + 1)
  {
    Fewer(pinned - {bl[tail]}, pinned);
  }

  ghost predicate NoneFor(bufs: map<nat, Buf>, b: nat) {
    forall i :: i in bufs ==> !bufs[i].For(b)
  }

  /** These buffers hold no block of the log and none of the list. */
  ghost predicate Clear(bufs: map<nat, Buf>, l: Layout, bl: seq<nat>) {
    forall b: nat :: InLog(l, b) || b in bl ==> NoneFor(bufs, b)
  }

  /** What a copy loop starts from, and the writes it is to make; `ready` if it has the buffers. */
  datatype Start = Start(io: Io, bl: seq<nat>, ws: seq<Write>, pinned: set<nat>, others: map<nat, Buf>, ready: bool)

  class LogState {
    const cache: Cache
    const layout: Layout
    const block: array<nat>  // log.lh.block
    var n: nat               // log.lh.n
    var outstanding: int
    var committing: bool
    ghost var held: set<nat> // buffers that other processes, which only read, have in use

    /** What commit finds: buffers are locked only by others, and these hold no block of the log nor
        one to be installed, for which commit would have to wait. */
    ghost predicate Valid()
      reads this, block, cache, cache.buf, cache.prev, cache.next
    {
      && Shared() && block.Length == LOGSIZE && n <= LOGSIZE
      && block != cache.prev && block != cache.next
      && 0 < layout.size && layout.start + layout.size <= |cache.disk| <= UINT
      && NoneLocked() && Clear(Others(), layout, Blocks())
    }

    ghost predicate NoneLocked()
      reads `held, cache.buf
      requires cache.buf.Length == NBUF
    {
      forall i :: 0 <= i < NBUF && i !in held ==> !cache.buf[i].locked
    }

    /** The cache is sound, and the others change nothing: what they have in use is logged or on disk. */
    ghost predicate Shared()
      reads `held, cache, cache.buf, cache.prev, cache.next
    {
      && cache.Valid() && cache.buf.Length == NBUF && |cache.view| == |cache.disk|
      && forall i :: i in held ==> i < NBUF && cache.buf[i].refcnt > 0 && OnlyRead(cache.buf[i])
    }

    ghost predicate OnlyRead(x: Buf)
      reads cache
    {
      x.dirty || x.dev != 1 ||
      (x.blockno < |cache.view| == |cache.disk| && cache.view[x.blockno] == cache.disk[x.blockno])
    }

    /** Nobody else has a buffer of block b in use. */
    ghost predicate Apart(b: nat)
      reads `held, cache.buf
      requires cache.buf.Length == NBUF
    {
      NoneFor(Others(), b)
    }

    /** The buffers that others have in use. */
    ghost function Others(): map<nat, Buf>
      reads `held, cache.buf
      requires cache.buf.Length == NBUF
    {
      map i | i in held && i < NBUF :: cache.buf[i]
    }

    /** Commit need not wait for a block that it touches. */
    lemma NobodyHas(b: nat)
      requires Valid() && (InLog(layout, b) || b in Blocks())
      ensures Apart(b)
    {
    }

    lemma Available(b: nat)
      requires Valid() && Apart(b)
      ensures cache.Unlocked(b)
    {
      assert forall i :: i in held ==> i in Others();
    }

    /** Nobody but these others has a buffer in use. */
    ghost predicate OnlyOthers()
      reads `held, cache.buf
      requires cache.buf.Length == NBUF
    {
      forall i :: 0 <= i < NBUF && i !in held ==> cache.buf[i].refcnt == 0
    }

    /** Between operations and during them: nothing of the open transaction is on disk, and the
        pinned buffers are exactly the logged blocks. */
    ghost predicate Open()
      reads this, block, cache, cache.buf, cache.prev, cache.next
    {
      && cache.Valid() && cache.buf.Length == NBUF
      && block.Length == LOGSIZE && n <= LOGSIZE && block != cache.prev && block != cache.next
      && Quiet(layout, cache.disk) && LogList(layout, cache.disk, Blocks())
      && cache.Pinned() == set b | b in Blocks()
    }

    ghost function Blocks(): seq<nat>
      reads this, block
      requires n <= block.Length
    {
      block[..n]
    }

    /** Nobody's log_write, nobody's lock: what readers see is what is on disk. */
    lemma Clean(b: nat)
      requires Valid() && b < |cache.disk|
      ensures b in cache.Pinned() || cache.view[b] == cache.disk[b]
    {
    }

    constructor (cache: Cache, layout: Layout)
      ensures this.cache == cache && this.layout == layout && fresh(block)
      ensures block.Length == LOGSIZE && n == 0 && outstanding == 0 && !committing && held == {}
    {
      this.cache, this.layout := cache, layout;
      block := new nat[LOGSIZE](_ => 0);
      n, outstanding, committing, held := 0, 0, false, {};
    }

    /** The cache has buffers for reading src and dst together. */
    ghost predicate Enough(src: nat, dst: nat)
      reads `held, cache, cache.buf
      requires cache.buf.Length == NBUF
    {
      && OnlyOthers() && |cache.Pinned()| + |held| < NBUF
      && (|cache.Pinned()| + |held| + 1 < NBUF || src in cache.Pinned() || dst in cache.Pinned())
    }

    /** bread, of a block that nobody else has in use. */
    method Read(b: nat) returns (ok: bool, i: nat)
      requires Shared() && b < |cache.disk| && cache.Unlocked(b) && Apart(b)
      modifies cache.buf
      ensures Shared() && cache.Pinned() == old(cache.Pinned()) && Others() == old(Others())
      ensures ok <==> old(cache.Cached(b)) || exists j :: 0 <= j < NBUF && old(cache.buf[j].Free())
      ensures !ok ==> cache.buf[..] == old(cache.buf[..])
      ensures ok ==> i < NBUF && cache.buf[i].For(b) && cache.buf[i].valid && cache.buf[i].locked && i !in held
      ensures ok ==> !old(cache.buf[i].locked) && cache.buf[i].data == cache.view[b]
      ensures ok ==> cache.buf[i].dirty || cache.view[b] == cache.disk[b]
      ensures ok ==> cache.buf[i].refcnt == old(cache.buf[i].refcnt) + 1
      ensures ok ==> forall j :: 0 <= j < NBUF && j != i ==> cache.buf[j] == old(cache.buf[j])
    {
      hide Cache.Valid, Cache.Pinned;
      assert forall j :: j in held ==> j in Others();
      ok, i := cache.Bread(b);
    }

    /** Read two blocks; install_trans reads the source first, write_log the destination. */
    method ReadPair(src: nat, dst: nat, srcFirst: bool) returns (ok: bool, from: nat, to: nat)
      requires Valid() && src < |cache.disk| && dst < |cache.disk| && src != dst && Apart(src) && Apart(dst)
      modifies cache.buf
      ensures old(Enough(src, dst)) ==> ok && BothHeld(from, to)
      ensures Others() == old(Others())
      ensures ok ==> Shared() && cache.Pinned() == old(cache.Pinned())
      ensures ok ==> from < NBUF && to < NBUF && from != to && from !in held && to !in held
      ensures ok ==> InHand(from, src) && InHand(to, dst)
      ensures ok ==> forall i :: 0 <= i < NBUF && i != from && i != to && i !in held ==> !cache.buf[i].locked
    {
      if srcFirst {
        ok, from, to := ReadTwo(src, dst);
      } else {
        ok, to, from := ReadTwo(dst, src);
      }
    }

    /** Two reads, one after the other. */
    method ReadTwo(a: nat, b: nat) returns (ok: bool, i: nat, j: nat)
      requires Valid() && a < |cache.disk| && b < |cache.disk| && a != b && Apart(a) && Apart(b)
      modifies cache.buf
      ensures old(Enough(a, b)) ==> ok && BothHeld(i, j)
      ensures Others() == old(Others())
      ensures ok ==> Shared() && cache.Pinned() == old(cache.Pinned())
      ensures ok ==> i < NBUF && j < NBUF && i != j && i !in held && j !in held
      ensures ok ==> InHand(i, a) && InHand(j, b)
      ensures ok ==> forall k :: 0 <= k < NBUF && k != i && k != j && k !in held ==> !cache.buf[k].locked
    {
      FirstRead(a);
      Available(a);
      Available(b);
      j := 0;
      ok, i := Read(a);
      if ok {
        SecondRead(a, b, i);
        ok, j := Read(b);
      }
    }

    /** Buffer i is locked, and holds block b as readers see it. */
    ghost predicate InHand(i: nat, b: nat)
      reads cache, cache.buf
      requires cache.buf.Length == NBUF && i < NBUF
    {
      && cache.buf[i].For(b) && cache.buf[i].valid && cache.buf[i].locked
      && b < |cache.view| == |cache.disk| && cache.buf[i].data == cache.view[b]
      && (cache.buf[i].dirty || cache.view[b] == cache.disk[b])
    }

    /** With fewer than NBUF buffers pinned or in use by others, a read finds a buffer. */
    lemma FirstRead(b: nat)
      requires Valid()
      ensures OnlyOthers() && |cache.Pinned()| + |held| < NBUF ==> exists i :: 0 <= i < NBUF && cache.buf[i].Free()
    {
      if OnlyOthers() && |cache.Pinned()| + |held| < NBUF { cache.SomeFree(held); }
    }

    ghost predicate OneHeld(a: nat, b: nat, i: nat)
      reads `held, cache, cache.buf
      requires cache.buf.Length == NBUF
    {
      && (forall j :: 0 <= j < NBUF && j != i && j !in held ==> cache.buf[j].refcnt == 0)
      && |cache.Pinned()| + |held| < NBUF
      && (|cache.Pinned()| + |held| + 1 < NBUF || a in cache.Pinned() || b in cache.Pinned())
    }

    /** So does a second read, if there is one buffer more, or one of the two blocks is pinned. */
    lemma SecondRead(a: nat, b: nat, i: nat)
      requires cache.Valid() && cache.buf.Length == NBUF && i < NBUF && cache.buf[i].For(a)
      ensures OneHeld(a, b, i) ==> cache.Cached(b) || exists j :: 0 <= j < NBUF && cache.buf[j].Free()
    {
      forall j | 0 <= j < NBUF && cache.buf[j].dirty ensures cache.buf[j].For(cache.buf[j].blockno) {
        assert cache.Sound(cache.buf[j]);
      }
      if OneHeld(a, b, i) {
        if |cache.Pinned()| + |held| + 1 < NBUF { cache.SomeFree(held + {i}); }
        if a in cache.Pinned() { cache.SomeFree(held); }
      }
    }

    /** The body of both copy loops: copy src's buffer to dst's, write dst, release both. */
    method CopyBlock(src: nat, dst: nat, srcFirst: bool) returns (ok: bool)
      requires Valid() && src < |cache.disk| && dst < |cache.disk| && src != dst && Apart(src) && Apart(dst)
      modifies cache.buf, cache.prev, cache.next, cache
      ensures old(Enough(src, dst)) ==> ok && OnlyOthers()
      ensures Others() == old(Others())
      ensures ok ==> Valid() && cache.Pinned() == old(cache.Pinned()) - {dst}
      ensures Now() == if ok then OneWrite(old(Now()), Write(dst, old(cache.view[src]))) else old(Now())
    {
      hide Cache.Valid, Enough, Cache.Pinned;
      var from, to;
      ok, from, to := ReadPair(src, dst, srcFirst);
      if !ok { return; }
      hide Shared, Others;
      WriteOut(to, cache.buf[from].data);
      Release(from);
      Release(to);
    }

    /** Nothing else is referenced but these two buffers, once each. */
    ghost predicate BothHeld(from: nat, to: nat)
      reads `held, cache, cache.buf
      requires cache.buf.Length == NBUF
    {
      forall i: nat :: i < NBUF && i !in held ==> cache.buf[i].refcnt == if i == from || i == to then 1 else 0
    }

    /** New contents for a locked buffer, and bwrite. */
    method WriteOut(i: nat, data: Block)
      requires Shared() && i < NBUF && i !in held && Apart(cache.buf[i].blockno)
      requires cache.buf[i].dev == 1 && cache.buf[i].valid && cache.buf[i].locked && cache.buf[i].blockno < |cache.disk|
      modifies cache.buf, cache
      ensures Shared() && Others() == old(Others()) && cache.Pinned() == old(cache.Pinned()) - {cache.buf[i].blockno}
      ensures Now() == OneWrite(old(Now()), Write(old(cache.buf[i].blockno), data))
      ensures cache.buf[i] == old(cache.buf[i]).(data := data, dirty := false)
      ensures forall j :: 0 <= j < NBUF && j != i ==> cache.buf[j] == old(cache.buf[j])
    {
      hide Cache.Valid, Cache.Pinned;
      assert forall j :: j in held ==> j in Others();
      cache.Store(i, data);
      cache.Bwrite(i);
    }

    /** brelse of a buffer that nobody else has in use. */
    method Release(i: nat)
      requires Shared() && i < NBUF && i !in held && cache.buf[i].blockno < |cache.disk|
      requires cache.buf[i].dev == 1 && cache.buf[i].valid && cache.buf[i].locked && OnlyRead(cache.buf[i])
      modifies cache.buf, cache.prev, cache.next, cache`lru, cache`released
      ensures Shared() && Others() == old(Others()) && cache.Pinned() == old(cache.Pinned()) && Now() == old(Now())
      ensures cache.buf[i] == old(cache.buf[i]).(refcnt := cache.buf[i].refcnt, locked := false)
      ensures cache.buf[i].refcnt == old(cache.buf[i].refcnt) - 1
      ensures forall j :: 0 <= j < NBUF && j != i ==> cache.buf[j] == old(cache.buf[j])
    {
      hide Cache.Valid, Cache.Pinned;
      cache.Brelse(i);
    }

    /** The cache has buffers for copying every logged block. */
    ghost predicate Ready()
      reads this, block, cache, cache.buf
      requires cache.buf.Length == NBUF && n <= block.Length
    {
      OnlyOthers() && Supplied(cache.Pinned(), |held|, Blocks(), 0)
    }

    /** So far so good: buffers are left for the blocks from tail on. */
    ghost predicate Served(bl: seq<nat>, tail: nat)
      reads `held, cache, cache.buf
      requires cache.buf.Length == NBUF
    {
      OnlyOthers() && Supplied(cache.Pinned(), |held|, bl, tail)
    }

    /** One turn of a copy loop: the block bl[tail] from its log slot, or to it. */
    method CopyNext(ghost bl: seq<nat>, ghost tail: nat, src: nat, dst: nat, srcFirst: bool, ghost ready: bool)
        returns (ok: bool)
      requires Valid() && src < |cache.disk| && dst < |cache.disk| && src != dst && Apart(src) && Apart(dst)
      requires tail < |bl| && Distinct(bl)
      requires if srcFirst then dst == bl[tail] else src == bl[tail] && dst !in cache.Pinned()
      requires ready ==> Served(bl, tail)
      modifies cache.buf, cache.prev, cache.next, cache
      ensures ready ==> ok && Served(bl, tail + 1)
      ensures Others() == old(Others())
      ensures ok ==> Valid() && cache.Pinned() == old(cache.Pinned()) - {dst}
      ensures Now() == if ok then OneWrite(old(Now()), Write(dst, old(cache.view[src]))) else old(Now())
    {
      ghost var pinned := cache.Pinned();
      if ready && srcFirst { StillSupplied(pinned, |held|, bl, tail); }
      assert !srcFirst ==> pinned - {dst} == pinned;
      assert ready ==> Enough(src, dst);
      hide Cache.Valid, Cache.Pinned, OnlyOthers, Enough;
      ok := CopyBlock(src, dst, srcFirst);
    }

    ghost function Now(): (io: Io)
      reads cache
    {
      Io(cache.disk, cache.view, cache.trace)
    }

    /** A copy loop has made k of its writes. */
    ghost predicate Copying(c: Start, k: nat, pinned: set<nat>)
      reads this, block, cache, cache.buf, cache.prev, cache.next
    {
      && Valid() && Blocks() == c.bl && Wrote(c.io, Now(), c.ws, k) && cache.Pinned() == pinned
      && Others() == c.others && (c.ready ==> Served(c.bl, k))
    }

    ghost function Starting(ws: seq<Write>): (c: Start)
      reads this, block, cache, cache.buf, cache.prev, cache.next
      requires cache.buf.Length == NBUF && n <= block.Length
    {
      Start(Now(), Blocks(), ws, cache.Pinned(), Others(), Ready())
    }

    lemma CopyingStarts(ws: seq<Write>)
      requires Valid() && forall i :: 0 <= i < |ws| ==> ws[i].at < |cache.disk|
      ensures Copying(Starting(ws), 0, cache.Pinned())
    {
      WroteNone(Now(), ws);
    }

    lemma CopyingEnds(c: Start, k: nat, pinned: set<nat>)
      requires Copying(c, k, pinned)
      ensures Valid() && Wrote(c.io, Now(), c.ws, k) && cache.Pinned() == pinned && Others() == c.others
      ensures c.ready ==> OnlyOthers()
    {
    }

    /** What is still pinned when install_trans has come to block k. */
    ghost function StillPinned(pinned: set<nat>, bl: seq<nat>, k: nat): set<nat>
      requires k <= |bl|
    {
      pinned - set b | b in bl[..k]
    }

    lemma StillPinnedEnds(pinned: set<nat>, bl: seq<nat>)
      ensures StillPinned(pinned, bl, 0) == pinned && StillPinned(pinned, bl, |bl|) == pinned - set b | b in bl
    {
      assert bl[..|bl|] == bl;
    }

    /** install_trans: copy each log slot to its home block, through the cache. */
    method InstallTrans() returns (ok: bool, ghost k: nat)
      requires Valid() && LogList(layout, cache.disk, Blocks())
      requires forall b :: b in cache.Pinned() ==> !InLog(layout, b)
      modifies cache.buf, cache.prev, cache.next, cache
      ensures Others() == old(Others())
      ensures Wrote(old(Now()), Now(), InstallWrites(old(Blocks()), SlotBlocks(layout, old(cache.disk), n)), k)
      ensures ok ==> Valid() && k == n && cache.Pinned() == old(cache.Pinned()) - (set b | b in old(Blocks()))
      ensures old(Ready()) ==> ok && OnlyOthers()
    {
      ghost var c := Starting(InstallWrites(Blocks(), SlotBlocks(layout, cache.disk, n)));
      CopyingStarts(c.ws);
      StillPinnedEnds(c.pinned, c.bl);
      hide Valid, Copying, Wrote, StillPinned, Ready, LogList, Cache.Pinned, OnlyOthers, Others;
      ok, k := InstallAll(c);
      if ok { CopyingEnds(c, n, StillPinned(c.pinned, c.bl, n)); }
    }

    /** The loop of install_trans. */
    method InstallAll(ghost c: Start) returns (ok: bool, ghost k: nat)
      requires n <= block.Length && n == |c.bl| && layout.start + layout.size <= |c.io.disk|
      requires LogList(layout, c.io.disk, c.bl)
      requires c.ws == InstallWrites(c.bl, SlotBlocks(layout, c.io.disk, n))
      requires forall b :: b in c.pinned ==> !InLog(layout, b)
      requires Copying(c, 0, StillPinned(c.pinned, c.bl, 0))
      modifies cache.buf, cache.prev, cache.next, cache
      ensures ok ==> k == n && Copying(c, n, StillPinned(c.pinned, c.bl, n))
      ensures !ok ==> !c.ready && Wrote(c.io, Now(), c.ws, k)
      ensures cache.buf.Length == NBUF && Others() == c.others
    {
      hide Copying, Wrote, StillPinned, LogList, SlotBlocks, InstallWrites, Others;
      var tail := 0;
      while tail < n
        invariant tail <= n && Copying(c, tail, StillPinned(c.pinned, c.bl, tail))
      {
        k := tail;
        ok := InstallOne(tail, c);
        if !ok { return; }
        tail := tail + 1;
      }
      CopyingEnds(c, n, StillPinned(c.pinned, c.bl, n));
      ok, k := true, n;
    }

    /** One turn of install_trans. */
    method InstallOne(tail: nat, ghost c: Start) returns (ok: bool)
      requires tail < n <= block.Length && n == |c.bl| && layout.start + layout.size <= |c.io.disk|
      requires LogList(layout, c.io.disk, c.bl)
      requires c.ws == InstallWrites(c.bl, SlotBlocks(layout, c.io.disk, n))
      requires forall b :: b in c.pinned ==> !InLog(layout, b)
      requires Copying(c, tail, StillPinned(c.pinned, c.bl, tail))
      modifies cache.buf, cache.prev, cache.next, cache
      ensures c.ready ==> ok
      ensures cache.buf.Length == NBUF && Others() == c.others
      ensures if ok then Copying(c, tail + 1, StillPinned(c.pinned, c.bl, tail + 1)) else Wrote(c.io, Now(), c.ws, tail)
    {
      hide Cache.Valid, OnlyOthers, Served, Apply, Others, Clear, NoneLocked;
      assert block[tail] == Blocks()[tail];
      NobodyHas(layout.start + tail + 1);
      NobodyHas(block[tail]);
      InstallPrefix(c.io.disk, c.bl, SlotBlocks(layout, c.io.disk, n), tail, layout.start + tail + 1);
      Clean(layout.start + tail + 1);
      WroteOne(c.io, Now(), c.ws, tail);
      assert c.bl[..tail + 1] == c.bl[..tail] + [c.bl[tail]];
      hide Cache.Pinned;
      ok := CopyNext(c.bl, tail, layout.start + tail + 1, block[tail], true, c.ready);
    }

    /** write_log: copy each modified block from the cache to its log slot. */
    method WriteLog() returns (ok: bool, ghost k: nat)
      requires Valid() && LogList(layout, cache.disk, Blocks())
      requires forall b :: b in cache.Pinned() ==> !InLog(layout, b)
      modifies cache.buf, cache.prev, cache.next, cache
      ensures Others() == old(Others())
      ensures Wrote(old(Now()), Now(), LogWrites(layout, Contents(old(cache.view), old(Blocks()))), k)
      ensures ok ==> Valid() && k == n && cache.Pinned() == old(cache.Pinned())
      ensures old(Ready()) ==> ok && OnlyOthers()
    {
      ghost var c := Starting(LogWrites(layout, Contents(cache.view, Blocks())));
      CopyingStarts(c.ws);
      hide Valid, Copying, Wrote, Ready, LogList, Cache.Pinned, OnlyOthers, Others, Contents, LogWrites;
      ok, k := LogAll(c);
      if ok { CopyingEnds(c, n, c.pinned); }
    }

    /** The loop of write_log. */
    method LogAll(ghost c: Start) returns (ok: bool, ghost k: nat)
      requires n <= block.Length && n == |c.bl| && layout.start + layout.size <= |c.io.disk| == |c.io.view|
      requires LogList(layout, c.io.disk, c.bl)
      requires c.ws == LogWrites(layout, Contents(c.io.view, c.bl)) && forall b :: b in c.pinned ==> !InLog(layout, b)
      requires Copying(c, 0, c.pinned)
      modifies cache.buf, cache.prev, cache.next, cache
      ensures ok ==> k == n && Copying(c, n, c.pinned)
      ensures !ok ==> !c.ready && Wrote(c.io, Now(), c.ws, k)
      ensures cache.buf.Length == NBUF && Others() == c.others
    {
      hide Copying, Wrote, LogList, Contents, LogWrites, Others;
      var tail := 0;
      while tail < n
        invariant tail <= n && Copying(c, tail, c.pinned)
      {
        k := tail;
        ok := LogOne(tail, c);
        if !ok { return; }
        tail := tail + 1;
      }
      CopyingEnds(c, n, c.pinned);
      ok, k := true, n;
    }

    /** One turn of write_log. */
    method LogOne(tail: nat, ghost c: Start) returns (ok: bool)
      requires tail < n <= block.Length && n == |c.bl| && layout.start + layout.size <= |c.io.disk| == |c.io.view|
      requires LogList(layout, c.io.disk, c.bl)
      requires c.ws == LogWrites(layout, Contents(c.io.view, c.bl)) && forall b :: b in c.pinned ==> !InLog(layout, b)
      requires Copying(c, tail, c.pinned)
      modifies cache.buf, cache.prev, cache.next, cache
      ensures c.ready ==> ok
      ensures cache.buf.Length == NBUF && Others() == c.others
      ensures if ok then Copying(c, tail + 1, c.pinned) else Wrote(c.io, Now(), c.ws, tail)
    {
      hide Cache.Valid, OnlyOthers, Served, Apply, Others, Clear, NoneLocked;
      assert block[tail] == Blocks()[tail];
      NobodyHas(layout.start + tail + 1);
      NobodyHas(block[tail]);
      LogPrefix(layout, c.io.view, Contents(c.io.view, c.bl), tail, block[tail]);
      WroteOne(c.io, Now(), c.ws, tail);
      assert cache.Pinned() - {layout.start + tail + 1} == cache.Pinned();
      hide Cache.Pinned;
      ok := CopyNext(c.bl, tail, block[tail], layout.start + tail + 1, false, c.ready);
    }

    /** bread of the header block. */
    method ReadHeader() returns (ok: bool, i: nat)
      requires Valid() && layout.start !in cache.Pinned()
      modifies cache.buf
      ensures Shared() && cache.Pinned() == old(cache.Pinned()) && Others() == old(Others())
      ensures old(OnlyOthers()) && |old(cache.Pinned())| + |held| < NBUF ==> ok && forall j ::
        0 <= j < NBUF && j !in held ==> cache.buf[j].refcnt == if j == i then 1 else 0
      ensures ok ==> i < NBUF && i !in held && InHand(i, layout.start) && Apart(layout.start)
      ensures ok ==> cache.view[layout.start] == cache.disk[layout.start]
      ensures ok ==> forall j :: 0 <= j < NBUF && j != i && j !in held ==> !cache.buf[j].locked
    {
      FirstRead(layout.start);
      NobodyHas(layout.start);
      Available(layout.start);
      Clean(layout.start);
      hide Cache.Valid, Cache.Pinned, Clear;
      ok, i := Read(layout.start);
    }

    /** write_head: store the in-memory count and block numbers in the header block. */
    method WriteHead() returns (ok: bool)
      requires Valid() && layout.start !in cache.Pinned()
      requires forall i :: 0 <= i < n ==> block[i] < UINT
      modifies cache.buf, cache.prev, cache.next, cache
      ensures Others() == old(Others())
      ensures old(OnlyOthers()) && |old(cache.Pinned())| + |held| < NBUF ==> ok && OnlyOthers()
      ensures ok ==> Valid() && cache.Pinned() == old(cache.Pinned())
      ensures Now() == if ok
        then OneWrite(old(Now()), Write(layout.start, EncodeHead(old(cache.disk[layout.start]), old(Blocks()))))
        else old(Now())
    {
      hide Cache.Valid, Cache.Pinned, EncodeHead, Clear, Others, Apart, Blocks;
      var b;
      ok, b := ReadHeader();
      if !ok { return; }
      var h := HeadBlock(cache.buf[b].data);
      hide Shared, InHand;
      WriteBack(b, layout.start, h);
    }

    /** bwrite of block b in a buffer of our own, and brelse. */
    method WriteBack(i: nat, b: nat, data: Block)
      requires Shared() && i < NBUF && i !in held && InHand(i, b) && Apart(b)
      modifies cache.buf, cache.prev, cache.next, cache
      ensures Shared() && Others() == old(Others()) && cache.Pinned() == old(cache.Pinned()) - {b}
      ensures b < |old(cache.disk)| == |old(cache.view)| && Now() == OneWrite(old(Now()), Write(b, data))
      ensures cache.buf[i].refcnt == old(cache.buf[i].refcnt) - 1 && !cache.buf[i].locked
      ensures forall j :: 0 <= j < NBUF && j != i ==> cache.buf[j] == old(cache.buf[j])
    {
      hide Cache.Valid, Cache.Pinned, Others, Apart;
      WriteOut(i, data);
      Release(i);
    }

    /** The loop of write_head. */
    method HeadBlock(data: Block) returns (h: Block)
      requires n <= LOGSIZE == block.Length && forall i :: 0 <= i < n ==> block[i] < UINT
      ensures h == EncodeHead(data, Blocks())
    {
      hide Word, PutWord;
      h := PutWord(data, 0, n);
      var i := 0;
      while i < n
        invariant i <= n && h == PutNumbers(PutWord(data, 0, n), Blocks(), i)
      {
        h := PutWord(h, i + 1, block[i]);
        i := i + 1;
      }
    }

    /** read_head: load the header from disk. */
    method ReadHead() returns (ok: bool)
      requires Valid() && WellFormed(layout, cache.disk) && layout.start !in cache.Pinned() && held == {}
      modifies cache.buf, cache.prev, cache.next, cache, block, `n
      ensures Now() == old(Now())
      ensures old(OnlyOthers()) && |old(cache.Pinned())| + |held| < NBUF ==> ok && OnlyOthers()
      ensures ok ==> Valid() && cache.Pinned() == old(cache.Pinned())
                     && Blocks() == HeadList(cache.disk[layout.start])
    {
      hide Cache.Valid, Cache.Pinned, Word, PutWord;
      var b;
      ok, b := ReadHeader();
      if !ok { return; }
      n := Word(cache.buf[b].data, 0);
      var i := 0;
      while i < n
        modifies block
        invariant i <= n && block[..i] == HeadList(cache.disk[layout.start])[..i]
      {
        block[i] := Word(cache.buf[b].data, i + 1);
        i := i + 1;
      }
      Release(b);
    }

    /** Having pinned fewer than NBUF blocks, exactly those to be logged, is enough. */
    lemma CommitReady()
      requires cache.buf.Length == NBUF && n <= block.Length && cache.Pinned() == set b | b in Blocks()
      ensures OnlyOthers() && n + |held| < NBUF ==> Ready() && |cache.Pinned()| + |held| < NBUF
    {
      ListSize(Blocks(), cache.Pinned());
    }

    lemma NothingPinnedReady()
      requires cache.buf.Length == NBUF && n <= block.Length && cache.Pinned() == {}
      ensures OnlyOthers() && |held| + 1 < NBUF ==> Ready()
    {
    }

    /** commit: the disk meets exactly the block writes of CommitWrites, or a prefix of them if
        the cache runs out of buffers; afterwards the log is empty and every home block on disk
        holds what readers of the cache saw before. */
    method Commit() returns (ok: bool, ghost k: nat)
      requires Valid() && Quiet(layout, cache.disk) && LogList(layout, cache.disk, Blocks())
      requires cache.Pinned() == set b | b in Blocks()
      modifies cache.buf, cache.prev, cache.next, cache, `n
      ensures Others() == old(Others())
      ensures Wrote(old(Now()), Now(),
                CommitWrites(layout, old(cache.disk), old(Blocks()), Contents(old(cache.view), old(Blocks()))), k)
      ensures ok ==> Open() && Valid() && n == 0
      ensures ok ==> Installed(layout, old(Now()), Now())
      ensures old(OnlyOthers()) && old(n) + |held| < NBUF ==> ok && OnlyOthers()
    {
      hide Cache.Valid, Apply, Wrote, CommitWrites, LogWrites, InstallWrites,
          EncodeHead, Contents, OnlyOthers, Ready;
      ghost var io0, bl := Now(), Blocks();
      CommitReady();
      ghost var vals := Contents(io0.view, bl);
      forall b: nat | Home(layout, io0.disk, b) && b !in bl ensures io0.view[b] == io0.disk[b] {
        Clean(b);
      }
      CommitKeepsView(layout, io0.disk, io0.view, bl);
      if n == 0 {
        WroteNone(io0, CommitWrites(layout, io0.disk, bl, vals));
        ok, k := true, 0;
        return;
      }
      ok, k := Prepare();
      if !ok { return; }
      ghost var io2 := Now();
      CommitReady();
      ok, k := InstallAndClear();
      CommitPhases(layout, io0, io2, Now(), bl, vals, k);
      k := k + |bl| + 1;
      if !ok { return; }
      WroteAll(io0, Now(), CommitWrites(layout, io0.disk, bl, vals));
    }

    /** `log.lh.n = 0` */
    method Forget()
      requires Valid()
      modifies `n
      ensures Valid() && n == 0
    {
      n := 0;
    }

    lemma RoomForHead()
      requires cache.buf.Length == NBUF && n <= block.Length
      ensures Ready() ==> |held| < NBUF
    {
    }

    /** The first half of commit: write_log(); write_head(). */
    method Prepare() returns (ok: bool, ghost k: nat)
      requires Valid() && WellFormed(layout, cache.disk) && LogList(layout, cache.disk, Blocks()) && n > 0
      requires cache.Pinned() == set b | b in Blocks()
      modifies cache.buf, cache.prev, cache.next, cache
      ensures Others() == old(Others())
      ensures Wrote(old(Now()), Now(),
                CommitWrites(layout, old(cache.disk), old(Blocks()), Contents(old(cache.view), old(Blocks()))), k)
      ensures ok ==> Valid() && cache.Pinned() == old(cache.Pinned()) && WellFormed(layout, cache.disk)
      ensures ok ==> HeadList(cache.disk[layout.start]) == Blocks() && k == n + 1
      ensures ok ==> Wrote(old(Now()), Now(),
                PrepareWrites(layout, old(cache.disk), Blocks(), Contents(old(cache.view), Blocks())), k)
      ensures old(OnlyOthers()) && n + |held| < NBUF ==> ok && OnlyOthers()
    {
      hide Cache.Valid, Apply, Wrote, CommitWrites, LogWrites, PrepareWrites,
          EncodeHead, Contents, OnlyOthers, Ready;
      ghost var io0, bl := Now(), Blocks();
      ghost var vals := Contents(io0.view, bl);
      CommitReady();
      ok, k := WriteLog();
      TornLogging(layout, io0, Now(), bl, vals, k);
      if !ok { return; }
      AfterWriteLog(layout, io0, Now(), bl, vals);
      ok := WriteHead();
      if !ok { return; }
      k := k + 1;
      PreparedIsCommitting(layout, io0, Now(), bl, vals);
    }

    /** How commit and recover_from_log both end: install_trans(); log.lh.n = 0; write_head(). */
    method InstallAndClear() returns (ok: bool, ghost k: nat)
      requires Valid() && WellFormed(layout, cache.disk) && HeadList(cache.disk[layout.start]) == Blocks()
      requires forall b :: b in cache.Pinned() ==> b in Blocks()
      modifies cache.buf, cache.prev, cache.next, cache, `n
      ensures Others() == old(Others())
      ensures Wrote(old(Now()), Now(), RecoverWrites(layout, old(cache.disk)), k)
      ensures ok ==> Valid() && n == 0 && cache.Pinned() == {} && k == old(n) + 1
      ensures old(Ready()) ==> ok && OnlyOthers()
    {
      hide Cache.Valid, Apply, Wrote, InstallWrites, RecoverWrites, EncodeHead, OnlyOthers, Ready, Others, Clear;
      ghost var io0 := Now();
      RoomForHead();
      ok, k := InstallTrans();
      AfterInstall(layout, io0, Now(), k);
      if !ok { return; }
      assert cache.Pinned() == {};
      Forget();
      ok := WriteHead();
      if !ok { return; }
      k := k + 1;
    }

    /** recover_from_log, at boot: exactly the writes of RecoverWrites, or a prefix of them. */
    method RecoverFromLog() returns (ok: bool, ghost k: nat)
      requires Valid() && WellFormed(layout, cache.disk) && cache.Pinned() == {} && held == {}
      modifies cache.buf, cache.prev, cache.next, cache, block, `n
      ensures Wrote(old(Now()), Now(), RecoverWrites(layout, old(cache.disk)), k)
      ensures ok ==> Open() && Valid() && n == 0
      ensures ok ==> forall b: nat :: Home(layout, old(cache.disk), b) ==>
                       cache.disk[b] == Logical(layout, old(cache.disk), b)
      ensures old(OnlyOthers()) ==> ok && OnlyOthers()
    {
      hide Cache.Valid, Apply, Wrote, InstallWrites, EncodeHead, RecoverWrites, OnlyOthers, Ready;
      ghost var io0 := Now();
      ghost var ws := RecoverWrites(layout, io0.disk);
      WroteNone(io0, ws);
      k := 0;
      ok := ReadHead();
      if !ok { return; }
      NothingPinnedReady();
      ok, k := InstallAndClear();
      if !ok { return; }
      WroteAll(io0, Now(), ws);
      RecoveryConverges(layout, io0.disk, []);
    }

    /** One turn of begin_op's loop under the lock: admit the operation, or (false) sleep and retry. */
    method BeginOpOnce() returns (admitted: bool)
      modifies `outstanding
      ensures admitted <==> !committing && n + (old(outstanding) + 1) * MAXOPBLOCKS <= LOGSIZE
      ensures outstanding == if admitted then old(outstanding) + 1 else old(outstanding)
    {
      if committing {
        return false;
      } else if n + (outstanding + 1) * MAXOPBLOCKS > LOGSIZE {
        return false;
      }
      outstanding := outstanding + 1;
      return true;
    }

    /** log_write. `panic` stands for both of its panics; otherwise the block joins the
        transaction (once) and its buffer is pinned. */
    method LogWrite(b: nat) returns (panic: bool)
      requires Open() && b < NBUF && cache.buf[b].dev == 1 && cache.buf[b].valid
      requires Home(layout, cache.disk, cache.buf[b].blockno)
      modifies cache.buf, block, `n
      ensures panic <==> old(n) >= LOGSIZE || old(n) >= layout.size - 1 || outstanding < 1
      ensures panic ==> n == old(n) && block[..] == old(block[..]) && cache.buf[..] == old(cache.buf[..])
      ensures !panic ==> Open() && Blocks() == Absorb(old(Blocks()), old(cache.buf[b].blockno))
      ensures !panic ==> cache.buf[b] == old(cache.buf[b]).(dirty := true)
      ensures forall j :: 0 <= j < NBUF && j != b ==> cache.buf[j] == old(cache.buf[j])
    {
      if n >= LOGSIZE || n >= layout.size - 1 { return true; }
      if outstanding < 1 { return true; }
      hide Cache.Valid, HeadList, Word;
      Join(cache.buf[b].blockno);
      cache.Pin(b);
      return false;
    }

    /** log absorption */
    method Join(b: nat)
      requires n < block.Length
      modifies block, `n
      ensures n <= block.Length && Blocks() == Absorb(old(Blocks()), b)
    {
      ghost var bl := Blocks();
      var i := 0;
      while i < n
        invariant i <= n && b !in bl[..i]
      {
        if block[i] == b { break; }
        i := i + 1;
      }
      block[i] := b;
      if i == n {
        assert bl[..i] == bl;
        n := n + 1;
      }
    }

    /** The holder of a buffer changes it. */
    method Change(i: nat, data: Block)
      requires Shared() && i < NBUF && i !in held && Apart(cache.buf[i].blockno)
      requires cache.buf[i].dev == 1 && cache.buf[i].valid && cache.buf[i].locked && cache.buf[i].blockno < |cache.disk|
      modifies cache.buf, cache`view
      ensures Shared() && Others() == old(Others()) && cache.Pinned() == old(cache.Pinned())
      ensures cache.view == old(cache.view)[old(cache.buf[i].blockno) := data]
      ensures cache.buf[i] == old(cache.buf[i]).(data := data)
      ensures forall j :: 0 <= j < NBUF && j != i ==> cache.buf[j] == old(cache.buf[j])
    {
      hide Cache.Valid, Cache.Pinned;
      assert forall j :: j in held ==> j in Others();
      cache.Store(i, data);
    }

    /** One block changed within an operation: bread, the change, log_write, brelse. */
    method WriteBlock(w: Write)
      requires Open() && Valid() && OnlyOthers() && outstanding >= 1 && n + |held| < NBUF && n < layout.size - 1
      requires Home(layout, cache.disk, w.at) && Apart(w.at)
      modifies cache.buf, cache.prev, cache.next, cache, block, `n
      ensures Open() && Valid() && OnlyOthers() && Others() == old(Others())
      ensures Blocks() == Absorb(old(Blocks()), w.at) && n <= old(n) + 1
      ensures cache.disk == old(cache.disk) && cache.view == old(cache.view)[w.at := w.data]
    {
      hide Cache.Valid, Cache.Pinned, Quiet, LogList, Clear, Others;
      var i := ReadAndChange(w);
      LogOwn(i);
      StillClear(old(Others()), old(Blocks()), w.at);
      Release(i);
    }

    /** log_write of a buffer that nobody else has in use, with room in the log. */
    method LogOwn(i: nat)
      requires Open() && Shared() && i < NBUF && i !in held && cache.buf[i].dev == 1 && cache.buf[i].valid
      requires Home(layout, cache.disk, cache.buf[i].blockno)
      requires n < LOGSIZE && n < layout.size - 1 && outstanding >= 1
      modifies cache.buf, block, `n
      ensures Open() && Shared() && Others() == old(Others())
      ensures Blocks() == Absorb(old(Blocks()), old(cache.buf[i].blockno)) && n <= old(n) + 1
      ensures cache.buf[i] == old(cache.buf[i]).(dirty := true)
      ensures forall j :: 0 <= j < NBUF && j != i ==> cache.buf[j] == old(cache.buf[j])
    {
      hide Cache.Valid, Cache.Pinned, Quiet, LogList;
      assert |Absorb(Blocks(), cache.buf[i].blockno)| <= |Blocks()| + 1;
      var panic := LogWrite(i);
      assert |Blocks()| == n;
    }

    lemma StillClear(others: map<nat, Buf>, bl: seq<nat>, b: nat)
      requires Clear(others, layout, bl) && NoneFor(others, b)
      ensures Clear(others, layout, Absorb(bl, b))
    {
    }

    /** Its first half, up to log_write. */
    method ReadAndChange(w: Write) returns (i: nat)
      requires Open() && Valid() && OnlyOthers() && n + |held| < NBUF
      requires Home(layout, cache.disk, w.at) && Apart(w.at)
      modifies cache.buf, cache`view
      ensures Open() && Shared() && Others() == old(Others())
      ensures i < NBUF && i !in held && cache.buf[i].For(w.at) && cache.buf[i].valid && cache.buf[i].locked
      ensures cache.buf[i].refcnt == 1
      ensures forall j :: 0 <= j < NBUF && j != i && j !in held ==> cache.buf[j].refcnt == 0 && !cache.buf[j].locked
      ensures cache.view == old(cache.view)[w.at := w.data]
    {
      CommitReady();
      FirstRead(w.at);
      Available(w.at);
      hide Cache.Valid, Cache.Pinned, Quiet, LogList, Clear;
      var ok;
      ok, i := Read(w.at);
      Change(i, w.data);
    }

    /** An operation has made i of its writes. */
    ghost predicate OperationAt(v0: Disk, d0: Disk, others: map<nat, Buf>, ws: seq<Write>, i: nat)
      reads this, block, cache, cache.buf, cache.prev, cache.next
      requires i <= |ws|
    {
      && Open() && Valid() && OnlyOthers() && Others() == others
      && cache.disk == d0 && |cache.view| == |d0| == |v0| && InRange(v0, ws) && cache.view == Apply(v0, ws[..i])
    }

    /** A whole operation that writes these blocks. */
    method Operation(ws: seq<Write>) returns (panicked: bool)
      requires Open() && Valid() && OnlyOthers() && outstanding >= 0 && !committing
      requires n + (outstanding + 1) * MAXOPBLOCKS <= LOGSIZE && |ws| <= MAXOPBLOCKS
      requires n + |ws| < layout.size && n + |ws| + |held| < NBUF
      requires forall w :: w in ws ==> Home(layout, cache.disk, w.at) && Apart(w.at)
      modifies this, cache.buf, cache.prev, cache.next, cache, block
      ensures !panicked && Open() && Valid() && OnlyOthers()
      ensures held == old(held) && Others() == old(Others()) && outstanding == old(outstanding) && !committing
      ensures |cache.view| == |old(cache.view)| && InRange(old(cache.view), ws)
      ensures forall b: nat :: Home(layout, cache.disk, b) ==> cache.view[b] == Apply(old(cache.view), ws)[b]
      ensures if outstanding > 0 then cache.disk == old(cache.disk)
              else n == 0 && forall b: nat :: Home(layout, cache.disk, b) ==> cache.disk[b] == cache.view[b]
    {
      hide Cache.Valid, Cache.Pinned, Quiet, LogList, Clear, Others, Apply, Shared, NoneLocked;
      hide Wrote, CommitWrites, Contents;
      var admitted := BeginOpOnce();
      WriteBlocks(ws);
      assert ws[..|ws|] == ws;
      ghost var k;
      panicked, k := EndOp();
    }

    /** What happens between begin_op and end_op. */
    method WriteBlocks(ws: seq<Write>)
      requires Open() && Valid() && OnlyOthers() && outstanding >= 1
      requires n + |ws| <= LOGSIZE && n + |ws| < layout.size && n + |ws| + |held| <= NBUF
      requires forall w :: w in ws ==> Home(layout, cache.disk, w.at) && Apart(w.at)
      modifies cache.buf, cache.prev, cache.next, cache, block, `n
      ensures OperationAt(old(cache.view), old(cache.disk), old(Others()), ws, |ws|) && n <= old(n) + |ws|
    {
      ghost var v0, d0, others := cache.view, cache.disk, Others();
      var i := 0;
      assert forall w :: w in ws ==> NoneFor(others, w.at);
      assert OperationAt(v0, d0, others, ws, 0);
      hide OperationAt, Open, Valid, Others, OnlyOthers, Apply, NoneFor;
      while i < |ws|
        invariant i <= |ws| && OperationAt(v0, d0, others, ws, i) && n <= old(n) + i
      {
        WriteNext(ws, i, v0, d0, others);
        i := i + 1;
      }
    }

    /** One of these writes. */
    method WriteNext(ws: seq<Write>, i: nat, ghost v0: Disk, ghost d0: Disk, ghost others: map<nat, Buf>)
      requires i < |ws| && OperationAt(v0, d0, others, ws, i) && outstanding >= 1
      requires n < LOGSIZE && n + 1 < layout.size && n + |held| < NBUF
      requires Home(layout, d0, ws[i].at) && NoneFor(others, ws[i].at)
      modifies cache.buf, cache.prev, cache.next, cache, block, `n
      ensures OperationAt(v0, d0, others, ws, i + 1) && n <= old(n) + 1
    {
      ApplySnoc(v0, ws[..i], ws[i]);
      assert ws[..i + 1] == ws[..i] + [ws[i]];
      hide Open, Valid, Others, OnlyOthers, Apply, NoneFor;
      WriteBlock(ws[i]);
    }

    /** end_op. The last operation out commits; `panicked` is commit running out of buffers or
        the "log.committing" panic. */
    method EndOp() returns (panicked: bool, ghost k: nat)
      requires Open() && outstanding >= 1 && (outstanding == 1 ==> Valid())
      modifies cache.buf, cache.prev, cache.next, cache, `n, `outstanding, `committing
      ensures cache.buf.Length == NBUF && Others() == old(Others())
      ensures outstanding == old(outstanding) - 1
      ensures outstanding > 0 ==> Now() == old(Now()) && n == old(n) && (panicked <==> old(committing))
      ensures outstanding == 0 && !old(committing) ==>
                Wrote(old(Now()), Now(), CommitWrites(layout, old(cache.disk), old(Blocks()),
                                                      Contents(old(cache.view), old(Blocks()))), k)
      ensures !panicked ==> Open() && !committing && (old(Valid()) ==> Valid())
      ensures !panicked && outstanding == 0 ==> n == 0
      ensures !panicked && outstanding == 0 ==> Installed(layout, old(Now()), Now())
      ensures old(OnlyOthers()) && old(n) + |held| < NBUF ==> (panicked <==> old(committing)) && OnlyOthers()
    {
      hide Cache.Valid, Wrote, CommitWrites, Contents, Apply, Quiet, LogList, Installed;
      outstanding, k := outstanding - 1, 0;
      if committing { return true, 0; }
      if outstanding > 0 { return false, 0; }
      committing := true;
      var ok;
      ok, k := Commit();
      panicked := !ok;
      if ok { committing := false; }
    }
  }
}
