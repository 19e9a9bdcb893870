/** The buffer cache of bio.c over the synchronous memory disk of memide.c.
    One disk device, number 1, as iderw insists. */
module BufferCache {
  import opened Basics
  import opened Blocks
  import opened Wal

  const NBUF: nat := 30
  const HEAD: nat := 30  // index of bcache.head in prev and next

  /** struct buf without its ring links. `locked` is the buffer's sleep-lock. */
  datatype Buf = Buf(dev: nat, blockno: nat, valid: bool, dirty: bool, refcnt: nat, locked: bool, data: Block) {
    predicate For(b: nat) { dev == 1 && blockno == b }
    predicate Free() { refcnt == 0 && !dirty }
  }

  /** `next` and `prev` are the two directions of one ring: HEAD, lru[0], lru[1], .., and back. */
  ghost predicate Ring(prev: seq<nat>, next: seq<nat>, lru: seq<nat>) {
    && |prev| == |next| == NBUF + 1 && |lru| == NBUF
    && Distinct(lru)
    && (forall i :: 0 <= i < |lru| ==> lru[i] < NBUF)
    && (forall b: nat :: b < NBUF ==> b in lru)
    && (forall b :: 0 <= b <= NBUF ==> prev[b] <= NBUF && next[b] <= NBUF)
    && next[HEAD] == lru[0] && prev[HEAD] == lru[NBUF - 1]
    && next[lru[NBUF - 1]] == HEAD && prev[lru[0]] == HEAD
    && (forall i, j :: 0 <= i < j < NBUF && j == i + 1 ==> next[lru[i]] == lru[j] && prev[lru[j]] == lru[i])
  }

  /** A list without its element at position p, and that element put first. */
  function ToFront(lru: seq<nat>, p: nat): (r: seq<nat>)
    requires p < |lru|
  {
    [lru[p]] + lru[..p] + lru[p + 1..]
  }

  /** The ring that binit makes: the last buffer first. */
  function FirstOrder(): seq<nat> {
    seq(NBUF, i requires 0 <= i < NBUF => NBUF - 1 - i)
  }

  lemma InitialRing(prev: seq<nat>, next: seq<nat>, lru: seq<nat>)
    requires |prev| == |next| == NBUF + 1 && |lru| == NBUF
    requires forall i :: 0 <= i < NBUF ==> lru[i] == NBUF - 1 - i
    requires next[HEAD] == NBUF - 1 && prev[HEAD] == 0
    requires forall i :: 0 <= i < NBUF ==> next[i] == if i > 0 then i - 1 else HEAD
    requires forall i :: 0 <= i < NBUF ==> prev[i] == if i + 1 < NBUF then i + 1 else HEAD
    ensures Ring(prev, next, lru)
  {
    forall b: nat | b < NBUF ensures b in lru {
      assert lru[NBUF - 1 - b] == b;
    }
  }

  class Cache {
    const buf: array<Buf>
    const prev: array<nat>
    const next: array<nat>
    var disk: Disk
    ghost var trace: seq<Write>  // every block write, oldest first
    ghost var lru: seq<nat>      // ring order, most recently released first
    ghost var released: seq<nat> // the buffers whose last references have been dropped, oldest first
    ghost var view: Disk         // what a reader of each block sees

    ghost predicate Linked()
      reads this, prev, next
    {
      && buf.Length == NBUF && prev.Length == NBUF + 1 && next.Length == NBUF + 1 && prev != next
      && Ring(prev[..], next[..], lru)
      && (forall b :: b in released ==> b < NBUF) && lru == Released(FirstOrder(), released)
    }

    ghost predicate Cached(b: nat)
      reads buf
      requires buf.Length == NBUF
    {
      exists i :: 0 <= i < NBUF && buf[i].For(b)
    }

    ghost predicate Coherent()
      reads `disk, `view, buf
      requires buf.Length == NBUF
    {
      && |view| == |disk|
      && (forall i, j ::
            (0 <= i < NBUF && 0 <= j < NBUF && buf[i].dev == 1 && buf[j].For(buf[i].blockno)) ==> i == j)
      && (forall i :: 0 <= i < NBUF ==> Sound(buf[i]))
      && (forall b: nat :: b < |disk| && view[b] != disk[b] ==> Cached(b))
    }

    /** A cached copy is what readers see; one that differs from the disk is dirty or locked. */
    ghost predicate Sound(x: Buf)
      reads `disk, `view
    {
      && (x.dev == 1 ==> x.blockno < |disk| && x.blockno < |view|)
      && (x.dirty ==> x.dev == 1 && x.valid)
      && (x.locked ==> x.refcnt > 0)
      && (x.dev == 1 && x.valid ==> x.data == view[x.blockno])
      && (x.dev == 1 && !(x.valid && (x.dirty || x.locked)) ==> view[x.blockno] == disk[x.blockno])
    }

    ghost predicate Valid()
      reads this, buf, prev, next
    {
      Linked() && Coherent()
    }

    /** The blocks whose buffers are B_DIRTY. */
    ghost function Pinned(): set<nat>
      reads buf
      requires buf.Length == NBUF
    {
      set i | 0 <= i < NBUF && buf[i].dirty :: buf[i].blockno
    }

    ghost predicate Unlocked(b: nat)
      reads buf
      requires buf.Length == NBUF
    {
      forall i :: 0 <= i < NBUF && buf[i].For(b) ==> !buf[i].locked
    }

    /** A buffer is free if the pinned blocks and the buffers in `held` are fewer than NBUF. */
    lemma SomeFree(held: set<nat>)
      requires buf.Length == NBUF && Coherent() && |Pinned()| + |held| < NBUF
      requires forall i: nat :: i < NBUF ==> buf[i].refcnt == 0 || buf[i].dirty || i in held
      ensures exists j :: 0 <= j < NBUF && buf[j].Free()
    {
      var dirty := set i: nat | i < NBUF && buf[i].dirty;
      forall i | i in dirty ensures Sound(buf[i]) {}
      Injected(buf[..], dirty, Pinned());
      assert dirty + held == dirty + (held - dirty);
      Fewer(held - dirty, held);
      SpanSize(0, NBUF);
      var j := Outside(Span(0, NBUF), dirty + held);
      assert buf[j].Free();
    }

    /** binit: the ring is built by inserting each buffer after the head. */
    constructor (image: Disk)
      ensures Valid() && fresh(buf) && fresh(prev) && fresh(next)
      ensures disk == view == image && trace == [] && Pinned() == {}
      ensures forall i :: 0 <= i < NBUF ==> !buf[i].locked && buf[i].refcnt == 0
      ensures lru == FirstOrder() && released == []
    {
      buf := new Buf[NBUF](_ => Buf(0, 0, false, false, 0, false, Zeros()));
      prev := new nat[NBUF + 1](_ => HEAD);
      next := new nat[NBUF + 1](_ => HEAD);
      disk := image;
      view := image;
      trace := [];
      lru := [];
      released := [];
      new;
      LinkAll();
    }

    /** binit's loop. */
    method LinkAll()
      requires prev.Length == next.Length == NBUF + 1 && prev != next && prev[HEAD] == next[HEAD] == HEAD && lru == []
      modifies prev, next, `lru
      ensures Ring(prev[..], next[..], lru) && lru == FirstOrder()
    {
      var b := 0;
      while b < NBUF
        modifies prev, next, `lru
        invariant b <= NBUF && |lru| == b
        invariant forall i :: 0 <= i < b ==> lru[i] == b - 1 - i
        invariant next[HEAD] == (if b > 0 then b - 1 else HEAD) && prev[HEAD] == (if b > 0 then 0 else HEAD)
        invariant forall i :: 0 <= i < b ==> next[i] == if i > 0 then i - 1 else HEAD
        invariant forall i :: 0 <= i < b ==> prev[i] == if i + 1 < b then i + 1 else HEAD
      {
        next[b] := next[HEAD];
        prev[b] := HEAD;
        prev[next[HEAD]] := b;
        next[HEAD] := b;
        lru := [b] + lru;
        b := b + 1;
      }
      InitialRing(prev[..], next[..], lru);
      assert lru == FirstOrder();
    }

    /** The buffer bget recycles: unreferenced, clean, and released longest ago of all such. */
    ghost predicate IsVictim(i: nat)
      reads this, buf
      requires buf.Length == NBUF && |lru| == NBUF && i < NBUF
      requires forall p :: 0 <= p < NBUF ==> lru[p] < NBUF
    {
      && buf[i].Free()
      && exists p :: 0 <= p < NBUF && lru[p] == i && forall q :: p < q < NBUF ==> !buf[lru[q]].Free()
    }

    /** The victim was released longest ago of all free buffers. */
    lemma OldestVictim(i: nat)
      requires Linked() && i < NBUF && IsVictim(i)
      ensures forall j: nat :: j < NBUF && buf[j].Free() ==> LastRelease(released, i) <= LastRelease(released, j)
    {
      var p :| 0 <= p < NBUF && lru[p] == i && forall q :: p < q < NBUF ==> !buf[lru[q]].Free();
      FirstOrderWhole();
      VictimReleasedLongestAgo(FirstOrder(), released, (set j: nat | j < NBUF && buf[j].Free()), p);
    }

    /** bget's first loop: from the head towards older buffers, HEAD if block b is not cached. */
    method Lookup(b: nat) returns (i: nat)
      requires Valid()
      ensures if Cached(b) then i < NBUF && buf[i].For(b) else i == HEAD
    {
      ghost var p := 0;
      i := next[HEAD];
      while i != HEAD
        invariant 0 <= p <= NBUF && i == if p < NBUF then lru[p] else HEAD
        invariant forall q :: 0 <= q < p ==> !buf[lru[q]].For(b)
        decreases NBUF - p
      {
        if buf[i].dev == 1 && buf[i].blockno == b { return; }
        i := next[i];
        p := p + 1;
      }
      forall j: nat | j < NBUF ensures !buf[j].For(b) { assert j in lru; }
    }

    /** bget's second loop: from the tail towards newer buffers, HEAD if none can be recycled. */
    method Victim() returns (i: nat)
      requires Valid()
      ensures if exists j :: 0 <= j < NBUF && buf[j].Free() then i < NBUF && IsVictim(i) else i == HEAD
    {
      ghost var p := NBUF - 1;
      i := prev[HEAD];
      while i != HEAD
        invariant -1 <= p < NBUF && i == if p >= 0 then lru[p] else HEAD
        invariant forall q :: p < q < NBUF ==> !buf[lru[q]].Free()
        decreases p
      {
        if buf[i].refcnt == 0 && !buf[i].dirty {
          assert IsVictim(i);
          return;
        }
        i := prev[i];
        p := p - 1;
      }
      forall j: nat | j < NBUF ensures !buf[j].Free() { assert j in lru; }
    }

    /** bget. `ok` is false for the panic "bget: no buffers". */
    method Bget(b: nat) returns (ok: bool, i: nat)
      requires Valid() && b < |disk| && Unlocked(b)
      modifies buf
      ensures Valid() && Pinned() == old(Pinned())
      ensures ok <==> old(Cached(b)) || exists j :: 0 <= j < NBUF && old(buf[j].Free())
      ensures if ok then i < NBUF else buf[..] == old(buf[..])
      ensures ok && old(Cached(b)) ==>
                old(buf[i].For(b)) && buf[i] == old(buf[i].(refcnt := buf[i].refcnt + 1, locked := true))
      ensures ok && !old(Cached(b)) ==>
                forall j: nat :: j < NBUF && old(buf[j].Free()) ==> LastRelease(released, i) <= LastRelease(released, j)
      ensures ok && !old(Cached(b)) ==>
                old(IsVictim(i)) && buf[i] == Buf(1, b, false, false, 1, true, old(buf[i].data))
      ensures ok ==> buf[i].For(b) && buf[i].locked && !old(buf[i].locked) && (buf[i].dirty || view[b] == disk[b])
      ensures ok ==> forall j :: 0 <= j < NBUF && j != i ==> buf[j] == old(buf[j])
    {
      i := Lookup(b);
      if i != HEAD {
        hide Coherent, Linked, Pinned;
        TakeReference(i, b);
        return true, i;
      }
      i := Victim();
      if i == HEAD { return false, i; }
      OldestVictim(i);
      hide Coherent, Linked, Pinned, IsVictim, Cached, LastRelease;
      Recycle(i, b);
      return true, i;
    }

    /** `b->refcnt++`, and the buffer's lock. */
    method TakeReference(i: nat, b: nat)
      requires Valid() && i < NBUF && buf[i].For(b) && !buf[i].locked && b < |disk|
      modifies buf
      ensures Valid() && Pinned() == old(Pinned()) && (buf[i].dirty || view[b] == disk[b])
      ensures buf[i] == old(buf[i].(refcnt := buf[i].refcnt + 1, locked := true))
      ensures forall j :: 0 <= j < NBUF && j != i ==> buf[j] == old(buf[j])
    {
      ghost var was := buf[..];
      assert Sound(buf[i]);
      hide Linked;
      buf[i] := buf[i].(refcnt := buf[i].refcnt + 1, locked := true);
      assert forall j, c :: 0 <= j < NBUF ==> buf[j].For(c) == was[j].For(c);
      PinnedFrame(was, i, old(Pinned()));
    }

    /** The assignments of bget to the buffer it recycles. */
    method Recycle(i: nat, b: nat)
      requires Valid() && i < NBUF && buf[i].Free() && b < |disk| && !Cached(b)
      modifies buf
      ensures Valid() && Pinned() == old(Pinned()) && view[b] == disk[b] && !old(buf[i].locked)
      ensures buf[i] == Buf(1, b, false, false, 1, true, old(buf[i].data))
      ensures forall j :: 0 <= j < NBUF && j != i ==> buf[j] == old(buf[j])
    {
      assert buf.Length == NBUF;
      hide Linked, Ring;
      ghost var was := buf[..];
      assert Sound(buf[i]);
      buf[i] := Buf(1, b, false, false, 1, true, buf[i].data);
      forall c: nat | c < |disk| && view[c] != disk[c] ensures Cached(c) {
        var j :| 0 <= j < NBUF && was[j].For(c);
        assert j != i && buf[j] == was[j];
      }
      PinnedFrame(was, i, old(Pinned()));
    }

    /** Changing one buffer other than by recycling keeps every block's cached-ness. */
    lemma PinnedFrame(was: seq<Buf>, i: nat, pinned: set<nat>)
      requires buf.Length == NBUF == |was| && i < NBUF
      requires forall j :: 0 <= j < NBUF && j != i ==> buf[j] == was[j]
      requires pinned == set j | 0 <= j < NBUF && was[j].dirty :: was[j].blockno
      requires forall j :: 0 <= j < NBUF && j != i && was[j].dirty ==> was[j].blockno != buf[i].blockno
      requires was[i].dirty ==> buf[i].blockno == was[i].blockno
      ensures Pinned() == if buf[i].dirty then pinned + {buf[i].blockno} else pinned - {buf[i].blockno}
    {
    }

    /** bread: bget, then a disk read if the buffer is not valid. */
    method Bread(b: nat) returns (ok: bool, i: nat)
      requires Valid() && b < |disk| && Unlocked(b)
      modifies buf
      ensures Valid() && Pinned() == old(Pinned())
      ensures ok <==> old(Cached(b)) || exists j :: 0 <= j < NBUF && old(buf[j].Free())
      ensures !ok ==> buf[..] == old(buf[..])
      ensures ok ==> i < NBUF && buf[i].For(b) && buf[i].valid && buf[i].locked && buf[i].data == view[b]
      ensures ok ==> !old(buf[i].locked) && (buf[i].dirty || view[b] == disk[b])
      ensures ok ==> buf[i].refcnt == old(buf[i].refcnt) + 1 && (old(buf[i].For(b)) || old(buf[i].Free()))
      ensures ok ==> forall j :: 0 <= j < NBUF && j != i ==> buf[j] == old(buf[j])
    {
      hide Linked, Coherent, Pinned, LastRelease;
      ok, i := Bget(b);
      if ok { Fill(b, i); }
    }

    /** The read side of iderw. */
    method Fill(b: nat, i: nat)
      requires Valid() && i < NBUF && b < |disk| && buf[i].For(b) && buf[i].locked
      requires view[b] == disk[b] || buf[i].dirty
      modifies buf
      ensures Valid() && Pinned() == old(Pinned())
      ensures buf[i] == old(buf[i]).(valid := true, data := view[b])
      ensures forall j :: 0 <= j < NBUF && j != i ==> buf[j] == old(buf[j])
    {
      assert Sound(buf[i]);
      if !buf[i].valid {
        ghost var was := buf[..];
        buf[i] := buf[i].(data := disk[b], valid := true);
        hide Linked;
        assert forall c, j :: 0 <= j < NBUF ==> buf[j].For(c) == was[j].For(c);
        PinnedFrame(was, i, old(Pinned()));
      }
    }

    /** The holder of a locked buffer overwrites its contents. */
    method Store(i: nat, data: Block)
      requires Valid() && i < NBUF && buf[i].dev == 1 && buf[i].valid && buf[i].locked
      modifies buf, `view
      ensures Valid() && Pinned() == old(Pinned())
      ensures buf[i].blockno < |old(view)| && view == old(view)[buf[i].blockno := data]
      ensures buf[i] == old(buf[i]).(data := data)
      ensures forall j :: 0 <= j < NBUF && j != i ==> buf[j] == old(buf[j])
    {
      ghost var was := buf[..];
      assert Sound(buf[i]);
      buf[i] := buf[i].(data := data);
      view := view[buf[i].blockno := data];
      forall j: nat | j < NBUF ensures Sound(buf[j]) {
        assert old(Sound(was[j]));
      }
      assert forall c: nat :: c < |disk| && old(Cached(c)) ==> Cached(c) by {
        assert forall c, j :: 0 <= j < NBUF ==> buf[j].For(c) == was[j].For(c);
      }
      assert Cached(buf[i].blockno);
      PinnedFrame(was, i, old(Pinned()));
    }

    /** log_write's part: set B_DIRTY, which keeps bget from recycling the buffer. */
    method Pin(i: nat)
      requires Valid() && i < NBUF && buf[i].dev == 1 && buf[i].valid
      modifies buf
      ensures Valid() && Pinned() == old(Pinned()) + {buf[i].blockno}
      ensures buf[i] == old(buf[i]).(dirty := true)
      ensures forall j :: 0 <= j < NBUF && j != i ==> buf[j] == old(buf[j])
    {
      ghost var was := buf[..];
      assert Sound(buf[i]);
      buf[i] := buf[i].(dirty := true);
      assert forall c, j :: 0 <= j < NBUF ==> buf[j].For(c) == was[j].For(c);
      PinnedFrame(was, i, old(Pinned()));
    }

    /** bwrite: B_DIRTY is set and iderw copies the buffer out, clearing it again. */
    method Bwrite(i: nat)
      requires Valid() && i < NBUF && buf[i].dev == 1 && buf[i].valid && buf[i].locked
      modifies buf, `disk, `trace
      ensures Valid() && Pinned() == old(Pinned()) - {buf[i].blockno}
      ensures buf[i].blockno < |old(disk)| && disk == old(disk)[buf[i].blockno := buf[i].data]
      ensures trace == old(trace) + [Write(buf[i].blockno, buf[i].data)]
      ensures buf[i] == old(buf[i]).(dirty := false)
      ensures forall j :: 0 <= j < NBUF && j != i ==> buf[j] == old(buf[j])
    {
      ghost var was := buf[..];
      assert Sound(buf[i]);
      buf[i] := buf[i].(dirty := true);
      // iderw, write side
      buf[i] := buf[i].(dirty := false, valid := true);
      disk := disk[buf[i].blockno := buf[i].data];
      trace := trace + [Write(buf[i].blockno, buf[i].data)];
      forall j: nat | j < NBUF ensures Sound(buf[j]) {
        assert old(Sound(was[j]));
      }
      assert forall c, j :: 0 <= j < NBUF ==> buf[j].For(c) == was[j].For(c);
      PinnedFrame(was, i, old(Pinned()));
    }

    /** brelse: the last reference moves the buffer to the head of the ring. */
    method Brelse(i: nat)
      requires Valid() && i < NBUF && buf[i].dev == 1 && buf[i].valid && buf[i].locked
      requires buf[i].dirty || view[buf[i].blockno] == disk[buf[i].blockno]
      modifies buf, prev, next, `lru, `released
      ensures Valid() && Pinned() == old(Pinned())
      ensures buf[i] == old(buf[i].(refcnt := buf[i].refcnt - 1, locked := false))
      ensures released == if buf[i].refcnt > 0 then old(released) else old(released) + [i]
      ensures if buf[i].refcnt > 0 then lru == old(lru)
              else exists p :: 0 <= p < NBUF && old(lru)[p] == i && lru == ToFront(old(lru), p)
      ensures forall j :: 0 <= j < NBUF && j != i ==> buf[j] == old(buf[j])
    {
      assert buf.Length == NBUF;
      hide Coherent, Linked, Pinned;
      DropReference(i);
      if buf[i].refcnt == 0 {
        ghost var p := WhereIs(i);
        Relink(i, p);
      }
    }

    /** `b->refcnt--`, and the lock released. */
    method DropReference(i: nat)
      requires Valid() && i < NBUF && buf[i].dev == 1 && buf[i].valid && buf[i].locked
      requires buf[i].blockno < |view| == |disk| ==> buf[i].dirty || view[buf[i].blockno] == disk[buf[i].blockno]
      modifies buf
      ensures Valid() && Pinned() == old(Pinned())
      ensures buf[i] == old(buf[i].(refcnt := buf[i].refcnt - 1, locked := false))
      ensures forall j :: 0 <= j < NBUF && j != i ==> buf[j] == old(buf[j])
    {
      ghost var was := buf[..];
      assert Sound(buf[i]);
      hide Linked, Ring;
      buf[i] := buf[i].(refcnt := buf[i].refcnt - 1, locked := false);
      assert forall c, j :: 0 <= j < NBUF ==> buf[j].For(c) == was[j].For(c);
      PinnedFrame(was, i, old(Pinned()));
    }

    lemma WhereIs(i: nat) returns (p: nat)
      requires Linked() && i < NBUF
      ensures p < NBUF == |lru| && lru[p] == i
    {
      assert i in lru;
      p :| 0 <= p < NBUF && lru[p] == i;
    }

    /** Unlink buffer i, found at ring position p, and insert it after the head. */
    method Relink(i: nat, ghost p: nat)
      requires Linked() && p < NBUF && lru[p] == i
      modifies prev, next, `lru, `released
      ensures Linked() && lru == ToFront(old(lru), p) && released == old(released) + [i]
    {
      prev[next[i]] := prev[i];
      next[prev[i]] := next[i];
      next[i] := next[HEAD];
      prev[i] := HEAD;
      prev[next[HEAD]] := i;
      next[HEAD] := i;
      ReleasedMore(FirstOrder(), released, i, lru, p);
      hide Released, FirstOrder, ToFront;
      lru := ToFront(lru, p);
      released := released + [i];
      RingMoved(old(prev[..]), old(next[..]), old(lru), p, prev[..], next[..]);
    }
  }

  /** Buffers of different blocks are no more than the blocks. */
  lemma {:induction false} Injected(buf: seq<Buf>, s: set<nat>, blocks: set<nat>)
    requires forall i :: i in s ==> i < |buf| && buf[i].blockno in blocks
    requires forall i, j :: i in s && j in s && buf[i].blockno == buf[j].blockno ==> i == j
    ensures |s| <= |blocks|
    decreases s
  {
    if i :| i in s {
      Injected(buf, s - {i}, blocks - {buf[i].blockno});
    }
  }

  lemma FrontPermutes(lru: seq<nat>, p: nat)
    requires |lru| == NBUF && Distinct(lru) && p < NBUF
    requires forall i :: 0 <= i < |lru| ==> lru[i] < NBUF
    requires forall b: nat :: b < NBUF ==> b in lru
    ensures var r := ToFront(lru, p);
            && |r| == NBUF && Distinct(r)
            && (forall i :: 0 <= i < |r| ==> r[i] < NBUF)
            && (forall b: nat :: b < NBUF ==> b in r)
            && r[0] == lru[p] && (forall k {:trigger r[k]} :: 0 < k <= p ==> r[k] == lru[k - 1])
            && (forall k {:trigger r[k]} :: p < k < NBUF ==> r[k] == lru[k])
  {
    var r := ToFront(lru, p);
    forall b: nat | b < NBUF ensures b in r {
      assert b in lru;
      var k :| 0 <= k < NBUF && lru[k] == b;
      assert r[if k == p then 0 else if k < p then k + 1 else k] == b;
    }
  }

  /** The six pointer writes of brelse, on the ring as a whole. */
  lemma RingMoved(prev: seq<nat>, next: seq<nat>, lru: seq<nat>, p: nat, prev': seq<nat>, next': seq<nat>)
    requires Ring(prev, next, lru) && p < NBUF && |prev'| == |next'| == NBUF + 1
    requires lru[p] <= NBUF && next[lru[p]] <= NBUF && prev[lru[p]] <= NBUF
    requires var i := lru[p];
      var next1 := next[prev[i] := next[i]][i := next[prev[i] := next[i]][HEAD]];
      && next1[HEAD] <= NBUF
      && prev' == prev[next[i] := prev[i]][i := HEAD][next1[HEAD] := i]
      && next' == next1[HEAD := i]
    ensures Ring(prev', next', ToFront(lru, p))
  {
    var i := lru[p];
    if p == 0 {
      assert i != next[i];
      assert prev' == prev && next' == next && ToFront(lru, p) == lru;
    } else {
      var a, c := lru[p - 1], if p + 1 < NBUF then lru[p + 1] else HEAD;
      assert prev[i] == a && next[i] == c && a != HEAD;
      InnerMoved(prev, next, lru, p, prev', next');
    }
  }

  lemma InnerMoved(prev: seq<nat>, next: seq<nat>, lru: seq<nat>, p: nat, prev': seq<nat>, next': seq<nat>)
    requires Ring(prev, next, lru) && 0 < p < NBUF
    requires var c := if p + 1 < NBUF then lru[p + 1] else HEAD;
      && lru[p] <= NBUF && lru[0] <= NBUF && lru[p - 1] <= NBUF && c <= NBUF
      && next' == next[lru[p - 1] := c][lru[p] := lru[0]][HEAD := lru[p]]
      && prev' == prev[c := lru[p - 1]][lru[p] := HEAD][lru[0] := lru[p]]
    ensures Ring(prev', next', ToFront(lru, p))
  {
    hide ToFront;
    FrontPermutes(lru, p);
    var r := ToFront(lru, p);
    InnerLinks(prev, next, lru, p, prev', next');
    InnerEnds(prev, next, lru, p);
    assert r[0] == lru[p] && next'[HEAD] == lru[p];
  }

  lemma InnerLinks(prev: seq<nat>, next: seq<nat>, lru: seq<nat>, p: nat, prev': seq<nat>, next': seq<nat>)
    requires Ring(prev, next, lru) && 0 < p < NBUF
    requires var c := if p + 1 < NBUF then lru[p + 1] else HEAD;
      && lru[p] <= NBUF && lru[0] <= NBUF && lru[p - 1] <= NBUF && c <= NBUF
      && next' == next[lru[p - 1] := c][lru[p] := lru[0]][HEAD := lru[p]]
      && prev' == prev[c := lru[p - 1]][lru[p] := HEAD][lru[0] := lru[p]]
    ensures var r := ToFront(lru, p);
      && |r| == NBUF && |next'| == |prev'| == NBUF + 1 && (forall k :: 0 <= k < NBUF ==> r[k] < NBUF)
      && forall k, j :: 0 <= k < j < NBUF && j == k + 1 ==> next'[r[k]] == r[j] && prev'[r[j]] == r[k]
  {
    FrontPermutes(lru, p);
    hide ToFront;
    var r := ToFront(lru, p);
    forall k, j | 0 <= k < j < NBUF && j == k + 1
      ensures next'[r[k]] == r[j] && prev'[r[j]] == r[k]
    {
      RingMovedAt(prev, next, lru, p, k);
    }
  }

  lemma InnerEnds(prev: seq<nat>, next: seq<nat>, lru: seq<nat>, p: nat)
    requires Ring(prev, next, lru) && 0 < p < NBUF
    ensures var c := if p + 1 < NBUF then lru[p + 1] else HEAD;
      var r := ToFront(lru, p);
      && |r| == NBUF && lru[p] <= NBUF && lru[0] <= NBUF && lru[p - 1] <= NBUF && c <= NBUF
      && r[NBUF - 1] < NBUF
      && next[lru[p - 1] := c][lru[p] := lru[0]][HEAD := lru[p]][r[NBUF - 1]] == HEAD
      && prev[c := lru[p - 1]][lru[p] := HEAD][lru[0] := lru[p]][HEAD] == r[NBUF - 1]
  {
  }

  lemma RingMovedAt(prev: seq<nat>, next: seq<nat>, lru: seq<nat>, p: nat, k: nat)
    requires Ring(prev, next, lru) && 0 < p < NBUF && k + 1 < NBUF
    ensures var c := if p + 1 < NBUF then lru[p + 1] else HEAD;
      var r := ToFront(lru, p);
      && |r| == NBUF && lru[p] <= NBUF && lru[0] <= NBUF && lru[p - 1] <= NBUF && c <= NBUF
      && r[k] < NBUF && r[k + 1] < NBUF
      && next[lru[p - 1] := c][lru[p] := lru[0]][HEAD := lru[p]][r[k]] == r[k + 1]
      && prev[c := lru[p - 1]][lru[p] := HEAD][lru[0] := lru[p]][r[k + 1]] == r[k]
  {
  }

  // ---- the order of the ring over many releases ----

  function {:induction false} Position(s: seq<nat>, b: nat): (p: nat)
    ensures p <= |s| && (p < |s| ==> s[p] == b) && (b in s ==> p < |s|)
  {
    if s == [] || s[0] == b then 0 else Position(s[1..], b) + 1
  }

  /** The ring once the last references to these buffers have been dropped, in this order. */
  function Released(lru: seq<nat>, rel: seq<nat>): seq<nat> {
    if rel == [] then lru
    else
      var r := Released(lru, rel[..|rel| - 1]);
      var p := Position(r, rel[|rel| - 1]);
      if p < |r| then ToFront(r, p) else r
  }

  lemma FirstOrderWhole()
    ensures Distinct(FirstOrder()) && forall b: nat :: b < NBUF ==> b in FirstOrder()
  {
    forall b: nat | b < NBUF ensures b in FirstOrder() { assert FirstOrder()[NBUF - 1 - b] == b; }
  }

  lemma ReleasedMore(first: seq<nat>, rel: seq<nat>, b: nat, lru: seq<nat>, p: nat)
    requires lru == Released(first, rel) && Distinct(lru) && p < |lru| && lru[p] == b
    ensures Released(first, rel + [b]) == ToFront(lru, p)
  {
    assert (rel + [b])[..|rel|] == rel;
    var q := Position(lru, b);
    assert b in lru && lru[q] == b;
  }

  /** When b was last released; -1 for never. */
  function LastRelease(rel: seq<nat>, b: nat): int {
    if rel == [] then -1 else if rel[|rel| - 1] == b then |rel| - 1 else LastRelease(rel[..|rel| - 1], b)
  }

  lemma {:induction false} LastReleaseBound(rel: seq<nat>, b: nat)
    ensures -1 <= LastRelease(rel, b) < |rel|
  {
    if rel != [] { LastReleaseBound(rel[..|rel| - 1], b); }
  }

  /** The ring is ordered by last release, the latest first, buffers never released at the end. */
  lemma {:induction false} OrderedByRelease(lru: seq<nat>, rel: seq<nat>)
    requires Distinct(lru) && forall b :: b in rel ==> b in lru
    ensures var r := Released(lru, rel);
      && Distinct(r) && (forall b: nat :: b in r <==> b in lru)
      && forall i, j :: 0 <= i < j < |r| ==>
        LastRelease(rel, r[i]) > LastRelease(rel, r[j]) || LastRelease(rel, r[i]) == LastRelease(rel, r[j]) == -1
  {
    if rel != [] {
      var before, b := rel[..|rel| - 1], rel[|rel| - 1];
      OrderedByRelease(lru, before);
      var q := Released(lru, before);
      assert b in rel;
      var p := Position(q, b);
      MovedKeeps(q, p);
      var r := ToFront(q, p);
      forall i, j | 0 <= i < j < |r|
        ensures LastRelease(rel, r[i]) > LastRelease(rel, r[j])
          || LastRelease(rel, r[i]) == LastRelease(rel, r[j]) == -1
      {
        LastReleaseBound(before, r[j]);
        if i > 0 {
          var i', j' := if i <= p then i - 1 else i, if j <= p then j - 1 else j;
          assert r[i] == q[i'] && r[j] == q[j'] && i' < j';
        }
      }
    }
  }

  lemma MovedKeeps(q: seq<nat>, p: nat)
    requires p < |q| && Distinct(q)
    ensures var r := ToFront(q, p);
      && |r| == |q| && Distinct(r) && r[0] == q[p] && (forall b: nat :: b in r <==> b in q)
      && (forall k {:trigger r[k]} :: 0 < k <= p ==> r[k] == q[k - 1])
      && forall k {:trigger r[k]} :: p < k < |q| ==> r[k] == q[k]
  {
  }

  /** So the free buffer nearest to the end of the ring is the one released longest ago. */
  lemma VictimReleasedLongestAgo(lru: seq<nat>, rel: seq<nat>, free: set<nat>, p: nat)
    requires Distinct(lru) && (forall b :: b in rel ==> b in lru)
    requires var r := Released(lru, rel); p < |r| && r[p] in free && forall q :: p < q < |r| ==> r[q] !in free
    ensures forall b :: b in lru && b in free ==> LastRelease(rel, Released(lru, rel)[p]) <= LastRelease(rel, b)
  {
    OrderedByRelease(lru, rel);
    var r := Released(lru, rel);
    forall b | b in lru && b in free ensures LastRelease(rel, r[p]) <= LastRelease(rel, b) {
      assert b in r;
      var k :| 0 <= k < |r| && r[k] == b;
      assert k <= p;
    }
  }
}
