/** umalloc.c: the K&R storage allocator. Addresses count Headers (8 bytes); `base` is address 0,
    strictly below the heap. */
module KrMalloc {
  import opened Basics

  datatype Header = Header(ptr: nat, size: nat)
  type Memory = map<nat, Header>

  const HEADER: nat := 8
  const CHUNK: nat := 4096

  /** The units malloc looks for: a header and the payload, in 32-bit arithmetic. */
  function UnitsFor(nbytes: nat): (n: nat)
    ensures n > 0
  {
    (nbytes + HEADER - 1) % UINT / HEADER + 1
  }

  /** The payload has room for the request exactly if nbytes + 7 does not wrap around. */
  lemma RoomUnlessWrapped(nbytes: nat)
    requires nbytes < UINT
    ensures HEADER * (UnitsFor(nbytes) - 1) >= nbytes <==> nbytes + HEADER <= UINT
  {
  }

  /** The largest request gets a block with a header and no payload. */
  lemma LargestRequest()
    ensures UnitsFor(UINT - 1) == 1 && HEADER * (UnitsFor(UINT - 1) - 1) == 0
  {
  }

  /** What morecore passes to sbrk: nu * sizeof(Header), in 32 bits, taken as an int. */
  function SbrkArgument(nu: nat): int {
    var bytes := nu * HEADER % UINT;
    if bytes < UINT / 2 then bytes else bytes - UINT
  }

  /** sbrk is asked for as many bytes as morecore then uses exactly for requests below 2^31 - 15 bytes,
      or so large that nbytes + 7 has wrapped around to such a number. */
  lemma SbrkAskedRight(nbytes: nat)
    requires nbytes < UINT
    ensures var nu := Max(UnitsFor(nbytes), CHUNK);
      SbrkArgument(nu) == nu * HEADER <==> (nbytes + HEADER - 1) % UINT < UINT / 2 - HEADER
  {
  }

  /** For 2^31 bytes sbrk is asked to shrink the process. */
  lemma SbrkAskedWrong()
    ensures SbrkArgument(Max(UnitsFor(UINT / 2), CHUNK)) == 8 - UINT / 2 < 0
  {
  }

  // ---- the free list ----

  /** The blocks (free or not, with their sizes) tile the space got from sbrk. */
  ghost predicate Tiles(blocks: map<nat, nat>, space: set<nat>) {
    && (forall p :: p in blocks ==> p > 0 && blocks[p] > 0)
    && (forall p, q :: p in blocks && q in blocks && p < q ==> p + blocks[p] <= q)
    && forall u: nat :: u in space <==> Covered(blocks, u)
  }

  ghost predicate Covered(blocks: map<nat, nat>, u: nat) {
    exists p :: Inside(blocks, p, u)
  }

  lemma InSpace(blocks: map<nat, nat>, space: set<nat>, p: nat, u: nat)
    requires Tiles(blocks, space)
    ensures Inside(blocks, p, u) ==> u in space
  {
  }

  predicate Inside(blocks: map<nat, nat>, p: nat, u: nat) {
    p in blocks && p <= u < p + blocks[p]
  }

  /** The elements of the free list: base and every block that is not live. */
  function FreeSet(blocks: map<nat, nat>, live: set<nat>): (f: set<nat>)
    ensures 0 in f
  {
    blocks.Keys - live + {0}
  }

  /** q comes after p in the circular order by address. */
  ghost predicate Next(f: set<nat>, p: nat, q: nat) {
    q in f && if q > p then forall x :: x in f && x > p ==> q <= x else q == 0 && forall x :: x in f ==> x <= p
  }

  ghost predicate Linked(mem: Memory, f: set<nat>) {
    forall p {:trigger LinkAt(mem, f, p)} :: p in f ==> LinkAt(mem, f, p)
  }

  ghost predicate LinkAt(mem: Memory, f: set<nat>, p: nat) {
    p in mem && Next(f, p, mem[p].ptr)
  }

  /** No free block ends where another begins. */
  ghost predicate Separate(blocks: map<nat, nat>, f: set<nat>) {
    forall p, q :: p in f && q in f && p in blocks ==> p + blocks[p] != q
  }

  ghost predicate Headers(mem: Memory, blocks: map<nat, nat>, space: set<nat>) {
    && 0 in mem && mem[0].size == 0
    && (forall u :: u in space ==> u in mem)
    && forall p :: p in blocks ==> p in mem && mem[p].size == blocks[p]
  }

  ghost predicate Sound(mem: Memory, blocks: map<nat, nat>, live: set<nat>, space: set<nat>) {
    && live <= blocks.Keys && Tiles(blocks, space) && Headers(mem, blocks, space)
    && Linked(mem, FreeSet(blocks, live)) && Separate(blocks, FreeSet(blocks, live))
  }

  /** What is met on the way from p to t around the ring, t included. */
  ghost function Ahead(f: set<nat>, p: nat, t: nat): set<nat> {
    set x | x in f && (if p <= t then p < x <= t else x > p || x <= t)
  }

  lemma StepAhead(f: set<nat>, p: nat, q: nat, t: nat)
    requires p in f && t in f && p != t && Next(f, p, q)
    ensures q in Ahead(f, p, t) && Ahead(f, q, t) == Ahead(f, p, t) - {q}
    ensures |Ahead(f, q, t)| < |Ahead(f, p, t)|
  {
  }

  /** Following the links k times. */
  function Walk(mem: Memory, p: nat, k: nat): nat
    decreases k
  {
    if k == 0 || p !in mem then p else Walk(mem, mem[p].ptr, k - 1)
  }

  /** The links form one ring: from any element each element is reached. */
  lemma {:induction false} OneRing(mem: Memory, f: set<nat>, p: nat, t: nat)
    requires Linked(mem, f) && p in f && t in f
    ensures exists k: nat :: k < |f| && Walk(mem, p, k) == t
  {
    var k := WalkAhead(mem, f, p, t);
    assert k < |f| by {
      if p == t {
        assert Ahead(f, p, t) == {};
        assert p in f && f != {};
      } else {
        assert Ahead(f, p, t) <= f - {p};
        Fewer(Ahead(f, p, t), f - {p});
      }
    }
  }

  lemma {:induction false} WalkAhead(mem: Memory, f: set<nat>, p: nat, t: nat) returns (k: nat)
    requires Linked(mem, f) && p in f && t in f
    ensures k <= |Ahead(f, p, t)| && Walk(mem, p, k) == t
    decreases |Ahead(f, p, t)|
  {
    if p == t { return 0; }
    assert LinkAt(mem, f, p);
    StepAhead(f, p, mem[p].ptr, t);
    var j := WalkAhead(mem, f, mem[p].ptr, t);
    k := j + 1;
  }

  // ---- freeing ----

  /** Where a block that is not in the list belongs: p is the last element below it. */
  ghost predicate Precedes(f: set<nat>, p: nat, bp: nat) {
    p in f && p < bp && forall x :: x in f && x < bp ==> x <= p
  }

  lemma {:induction false} SomePrecedes(f: set<nat>, bp: nat) returns (p: nat)
    requires 0 in f && bp > 0
    ensures Precedes(f, p, bp)
    decreases f
  {
    p := 0;
    if x :| x in f && 0 < x < bp {
      p := SomePrecedes(f - {x}, bp);
      assert forall y :: y in f && y != x ==> y in f - {x};
      if p < x { p := x; }
    }
  }

  function Join(blocks: map<nat, nat>, a: nat, b: nat): map<nat, nat>
    requires a in blocks && b in blocks
  {
    (blocks - {b})[a := blocks[a] + blocks[b]]
  }

  lemma JoinTiles(blocks: map<nat, nat>, space: set<nat>, a: nat, b: nat)
    requires Tiles(blocks, space) && a in blocks && b in blocks && a + blocks[a] == b
    ensures Tiles(Join(blocks, a, b), space)
  {
    hide Covered;
    forall u: nat ensures u in space <==> Covered(Join(blocks, a, b), u) {
      JoinCovers(blocks, a, b, u);
    }
  }

  lemma JoinCovers(blocks: map<nat, nat>, a: nat, b: nat, u: nat)
    requires a in blocks && b in blocks && a != b && a + blocks[a] == b
    ensures Covered(Join(blocks, a, b), u) <==> Covered(blocks, u)
  {
    var joined := Join(blocks, a, b);
    if x: nat :| Inside(blocks, x, u) { assert Inside(joined, if x == b then a else x, u); }
    if x: nat :| Inside(joined, x, u) { assert Inside(blocks, x, u) || Inside(blocks, b, u); }
  }

  /** Every block of `live` keeps its size and its contents. */
  ghost predicate Undisturbed(mem: Memory, blocks: map<nat, nat>, mem': Memory, blocks': map<nat, nat>,
      live: set<nat>) {
    && (forall h :: h in live ==> h in blocks && h in blocks' && blocks'[h] == blocks[h])
    && forall h, u: nat :: h in live && Inside(blocks, h, u) && u in mem ==> u in mem' && mem'[u] == mem[u]
  }

  lemma Spared(mem: Memory, blocks: map<nat, nat>, mem': Memory, blocks': map<nat, nat>, live: set<nat>)
    requires Undisturbed(mem, blocks, mem', blocks', live)
    ensures forall h :: h in live ==> h in blocks && h in blocks' && blocks'[h] == blocks[h]
    ensures forall h, u: nat :: h in live && h <= u < h + blocks[h] && u in mem ==> u in mem' && mem'[u] == mem[u]
  {
    assert forall h, u: nat :: h in live && h <= u < h + blocks[h] ==> Inside(blocks, h, u);
  }

  lemma NoneTouch(mem: Memory, blocks: map<nat, nat>, live: set<nat>, space: set<nat>)
    requires Sound(mem, blocks, live, space)
    ensures forall x, y ::
      x in FreeSet(blocks, live) && y in FreeSet(blocks, live) && x in blocks ==> x + blocks[x] != y
  {
  }

  lemma UndisturbedRefl(mem: Memory, blocks: map<nat, nat>, live: set<nat>)
    requires live <= blocks.Keys
    ensures Undisturbed(mem, blocks, mem, blocks, live)
  {
  }

  lemma UndisturbedTrans(mem: Memory, blocks: map<nat, nat>, mem1: Memory, blocks1: map<nat, nat>, mem2: Memory,
      blocks2: map<nat, nat>, live: set<nat>, live': set<nat>)
    requires Undisturbed(mem, blocks, mem1, blocks1, live) && Undisturbed(mem1, blocks1, mem2, blocks2, live')
    requires live <= live'
    ensures Undisturbed(mem, blocks, mem2, blocks2, live)
  {
  }

  ghost predicate SamePtr(mem: Memory, mem': Memory, f: set<nat>) {
    forall x :: x in f && x in mem ==> x in mem' && mem'[x].ptr == mem[x].ptr
  }

  lemma SameLinks(mem: Memory, mem': Memory, f: set<nat>)
    requires Linked(mem, f) && SamePtr(mem, mem', f)
    ensures Linked(mem', f)
  {
    forall x | x in f ensures LinkAt(mem', f, x) {
      assert LinkAt(mem, f, x);
    }
  }

  lemma InsertLink(mem: Memory, mem': Memory, f: set<nat>, p: nat, bp: nat)
    requires Linked(mem, f) && Precedes(f, p, bp) && bp !in f && SamePtr(mem, mem', f - {p})
    requires p in mem && p in mem' && mem'[p].ptr == bp && bp in mem' && mem'[bp].ptr == mem[p].ptr
    ensures Linked(mem', f + {bp})
  {
    assert LinkAt(mem, f, p);
    forall x | x in f && x != p ensures LinkAt(mem', f + {bp}, x) {
      assert LinkAt(mem, f, x);
      assert x < bp ==> x < p;
    }
  }

  lemma RemoveLink(mem: Memory, mem': Memory, f: set<nat>, p: nat, b: nat)
    requires Linked(mem, f) && p in f && p in mem && mem[p].ptr == b && 0 in f && b != 0 && SamePtr(mem, mem', f - {p})
    requires b in mem && p in mem' && mem'[p].ptr == mem[b].ptr
    ensures Linked(mem', f - {b})
  {
    assert LinkAt(mem, f, p) && LinkAt(mem, f, b);
    forall x | x in f && x != b ensures LinkAt(mem', f - {b}, x) {
      assert LinkAt(mem, f, x);
    }
  }

  /** The middle of free: bp is in the list once p points to it, and only p may touch it. */
  ghost predicate HalfFreed(mem: Memory, blocks: map<nat, nat>, live: set<nat>, space: set<nat>, p: nat, bp: nat) {
    var f := FreeSet(blocks, live);
    && bp in blocks && bp !in live && live <= blocks.Keys && Precedes(f, p, bp)
    && Tiles(blocks, space) && Headers(mem, blocks, space) && p in mem
    && Linked(mem[p := Header(bp, mem[p].size)], f)
    && forall x, y :: x in f && y in f && x in blocks && x + blocks[x] == y ==> x == p && y == bp
  }

  /** free's first `if`, taken: the next free block begins where bp ends. */
  lemma JoinedRight(mem: Memory, blocks: map<nat, nat>, live: set<nat>, space: set<nat>, p: nat, bp: nat, q: nat)
    requires Sound(mem, blocks, live, space) && bp in live && Precedes(FreeSet(blocks, live), p, bp)
    requires p in mem && q == mem[p].ptr && bp in mem && bp + mem[bp].size == q
    ensures q in blocks && q in mem && q !in live && bp in blocks
    ensures HalfFreed(mem[bp := Header(mem[q].ptr, mem[bp].size + mem[q].size)],
        Join(blocks, bp, q), live - {bp}, space, p, bp)
  {
    var f := FreeSet(blocks, live);
    assert LinkAt(mem, f, p);
    assert bp != p && bp !in f && q in f && q in mem && q in blocks;
    JoinTiles(blocks, space, bp, q);
    JoinedList(blocks, live, bp, q);
    RightLinks(mem, f, p, bp, q);
    RightSeparate(blocks, f, p, bp, q);
    hide Linked, Tiles, Next, LinkAt, Separate;
  }

  /** The links of p and bp as free leaves them, the right neighbour q gone from the list. */
  lemma RightLinks(mem: Memory, f: set<nat>, p: nat, bp: nat, q: nat)
    requires Linked(mem, f) && 0 in f && Precedes(f, p, bp) && bp !in f && bp in mem && q in f && q in mem && q > bp
    requires p in mem && mem[p].ptr == q
    ensures var mem' := mem[bp := Header(mem[q].ptr, mem[bp].size + mem[q].size)];
            Linked(mem'[p := Header(bp, mem[p].size)], f + {bp} - {q})
  {
    var linked := mem[bp := Header(q, mem[bp].size)][p := Header(bp, mem[p].size)];
    InsertLink(mem, linked, f, p, bp);
    var mem' := mem[bp := Header(mem[q].ptr, mem[bp].size + mem[q].size)];
    RemoveLink(linked, mem'[p := Header(bp, mem[p].size)], f + {bp}, bp, q);
  }

  /** Only p may still touch the joined block. */
  lemma RightSeparate(blocks: map<nat, nat>, f: set<nat>, p: nat, bp: nat, q: nat)
    requires Separate(blocks, f) && bp in blocks && q in blocks && q in f && bp + blocks[bp] == q && blocks[q] > 0
    requires forall x, y :: x in blocks && y in blocks && x < y ==> x + blocks[x] <= y
    requires Precedes(f, p, bp) && forall x :: x in f && x != 0 ==> x in blocks
    ensures forall x, y ::
      x in f + {bp} - {q} && y in f + {bp} - {q} && x in Join(blocks, bp, q) && x + Join(blocks, bp, q)[x] == y ==>
      x == p && y == bp
  {
  }

  lemma JoinedList(blocks: map<nat, nat>, live: set<nat>, bp: nat, q: nat)
    requires bp in live && q in blocks && q !in live && live <= blocks.Keys && q > bp
    ensures FreeSet(Join(blocks, bp, q), live - {bp}) == FreeSet(blocks, live) + {bp} - {q}
  {
  }

  /** free's first `if`, not taken. */
  lemma NotJoinedRight(mem: Memory, blocks: map<nat, nat>, live: set<nat>, space: set<nat>, p: nat, bp: nat, q: nat)
    requires Sound(mem, blocks, live, space) && bp in live && Precedes(FreeSet(blocks, live), p, bp)
    requires p in mem && q == mem[p].ptr && bp in mem && bp + mem[bp].size != q
    ensures HalfFreed(mem[bp := Header(q, mem[bp].size)], blocks, live - {bp}, space, p, bp)
  {
    var f := FreeSet(blocks, live);
    assert LinkAt(mem, f, p);
    var mem' := mem[bp := Header(q, mem[bp].size)];
    InsertLink(mem, mem'[p := Header(bp, mem[p].size)], f, p, bp);
    assert FreeSet(blocks, live - {bp}) == f + {bp};
    hide Linked, LinkAt, SamePtr, Covered;
  }

  /** free's second `if`. */
  lemma JoinedLeft(mem: Memory, blocks: map<nat, nat>, live: set<nat>, space: set<nat>, p: nat, bp: nat)
    requires HalfFreed(mem, blocks, live, space, p, bp)
    ensures p in mem && bp in mem
    ensures if p + mem[p].size == bp then
        && p in blocks && bp in blocks
        && Sound(mem[p := Header(mem[bp].ptr, mem[p].size + mem[bp].size)], Join(blocks, p, bp), live, space)
      else Sound(mem[p := Header(bp, mem[p].size)], blocks, live, space)
  {
    var f := FreeSet(blocks, live);
    if p + mem[p].size == bp {
      JoinTiles(blocks, space, p, bp);
      RemoveLink(mem[p := Header(bp, mem[p].size)],
          mem[p := Header(mem[bp].ptr, mem[p].size + mem[bp].size)], f, p, bp);
      assert FreeSet(Join(blocks, p, bp), live) == f - {bp};
    }
    hide Linked, Covered;
  }

  // ---- allocating ----

  function SetSize(mem: Memory, p: nat, n: nat): Memory
    requires p in mem
  {
    mem[p := Header(mem[p].ptr, n)]
  }

  /** malloc takes a block that fits exactly out of the list. */
  lemma TakenWhole(mem: Memory, blocks: map<nat, nat>, live: set<nat>, space: set<nat>, prevp: nat, p: nat)
    requires Sound(mem, blocks, live, space) && prevp in FreeSet(blocks, live) && prevp in mem
    requires mem[prevp].ptr == p != 0
    ensures p in blocks && p in mem && p !in live
    ensures var mem' := mem[prevp := Header(mem[p].ptr, mem[prevp].size)];
            Sound(mem', blocks, live + {p}, space) && Undisturbed(mem, blocks, mem', blocks, live)
  {
    var f := FreeSet(blocks, live);
    assert LinkAt(mem, f, prevp);
    var mem' := mem[prevp := Header(mem[p].ptr, mem[prevp].size)];
    RemoveLink(mem, mem', f, prevp, p);
    assert FreeSet(blocks, live + {p}) == f - {p};
    hide Linked, LinkAt, Next, Covered;
  }

  /** malloc takes n units off the end of a larger block. */
  lemma TakenEnd(mem: Memory, blocks: map<nat, nat>, live: set<nat>, space: set<nat>, p: nat, n: nat)
    requires Sound(mem, blocks, live, space) && p in FreeSet(blocks, live) && p in mem && 0 < n < mem[p].size
    ensures var q := p + mem[p].size - n;
      && p in blocks && q in mem && q !in live && q !in blocks
      && var mem' := SetSize(SetSize(mem, p, mem[p].size - n), q, n);
      && var blocks' := blocks[p := mem[p].size - n][q := n];
      && Sound(mem', blocks', live + {q}, space) && Undisturbed(mem, blocks, mem', blocks', live)
      && FreeSet(blocks', live + {q}) == FreeSet(blocks, live)
  {
    var q := p + mem[p].size - n;
    EndIsInner(blocks, space, p, q);
    assert p != 0 && live <= blocks.Keys && q in mem;
    var mem' := SetSize(SetSize(mem, p, mem[p].size - n), q, n);
    var blocks' := blocks[p := mem[p].size - n][q := n];
    var f := FreeSet(blocks, live);
    SplitTiles(blocks, space, p, q);
    TakenEndList(blocks, live, p, q);
    hide FreeSet, Tiles, Headers, Linked, Separate, Undisturbed;
    TakenEndKeeps(mem, blocks, live, space, p, q);
    TakenEndHeaders(mem, blocks, space, p, q);
    SameLinks(mem, mem', f);
  }

  lemma TakenEndList(blocks: map<nat, nat>, live: set<nat>, p: nat, q: nat)
    requires p in blocks && p < q < p + blocks[p] && q !in blocks && live <= blocks.Keys && p !in live
    requires Separate(blocks, FreeSet(blocks, live))
    ensures var blocks' := blocks[p := q - p][q := p + blocks[p] - q];
            FreeSet(blocks', live + {q}) == FreeSet(blocks, live) && Separate(blocks', FreeSet(blocks, live))
  {
  }

  lemma TakenEndHeaders(mem: Memory, blocks: map<nat, nat>, space: set<nat>, p: nat, q: nat)
    requires Headers(mem, blocks, space) && p in blocks && p < q < p + blocks[p] && q in mem && p != 0
    ensures Headers(SetSize(SetSize(mem, p, q - p), q, p + mem[p].size - q),
      blocks[p := q - p][q := p + mem[p].size - q], space)
  {
  }

  lemma TakenEndKeeps(mem: Memory, blocks: map<nat, nat>, live: set<nat>, space: set<nat>, p: nat, q: nat)
    requires Headers(mem, blocks, space) && Tiles(blocks, space) && p in blocks && p < q < p + blocks[p]
    requires p !in live && q in mem
    requires live <= blocks.Keys
    ensures Undisturbed(mem, blocks, SetSize(SetSize(mem, p, q - p), q, p + mem[p].size - q),
                        blocks[p := q - p][q := p + mem[p].size - q], live)
  {
  }

  lemma EndIsInner(blocks: map<nat, nat>, space: set<nat>, p: nat, q: nat)
    requires Tiles(blocks, space) && p in blocks && p < q < p + blocks[p]
    ensures q in space && q !in blocks && Inside(blocks, p, q) && Inside(blocks, p, p)
  {
    InSpace(blocks, space, p, q);
  }

  lemma SplitTiles(blocks: map<nat, nat>, space: set<nat>, p: nat, q: nat)
    requires Tiles(blocks, space) && p in blocks && p < q < p + blocks[p]
    ensures Tiles(blocks[p := q - p][q := p + blocks[p] - q], space)
  {
    var split := blocks[p := q - p][q := p + blocks[p] - q];
    assert q !in blocks;
    hide Covered;
    forall u: nat ensures u in space <==> Covered(split, u) {
      SplitCovers(blocks, p, q, u);
    }
  }

  lemma SplitCovers(blocks: map<nat, nat>, p: nat, q: nat, u: nat)
    requires p in blocks && p < q < p + blocks[p] && q !in blocks
    ensures Covered(blocks[p := q - p][q := p + blocks[p] - q], u) <==> Covered(blocks, u)
  {
    var split := blocks[p := q - p][q := p + blocks[p] - q];
    if x: nat :| Inside(blocks, x, u) { assert Inside(split, if x == p && u >= q then q else x, u); }
    if x: nat :| Inside(split, x, u) { assert Inside(blocks, if x == q then p else x, u); }
  }

  /** The n units from a on. */
  function Units(a: nat, n: nat): set<nat> {
    set u: nat | a <= u < a + n && Within(a, n, u)
  }

  predicate Within(a: nat, n: nat, u: nat) {
    a <= u < a + n
  }

  /** sbrk's answer: new memory, zero-filled, above base. */
  predicate Granted(space: set<nat>, grant: Option<nat>, n: nat) {
    grant.Some? ==> grant.value > 0 && Units(grant.value, n) !! space
  }

  lemma GrownTiles(blocks: map<nat, nat>, space: set<nat>, a: nat, n: nat)
    requires Tiles(blocks, space) && Granted(space, Some(a), n) && n > 0
    ensures a !in blocks && Tiles(blocks[a := n], space + Units(a, n))
  {
    var blocks', space' := blocks[a := n], space + Units(a, n);
    assert Within(a, n, a);
    hide Covered;
    forall p | p in blocks ensures p != a && (p < a ==> p + blocks[p] <= a) && (p > a ==> a + n <= p) {
      InSpace(blocks, space, p, p);
      InSpace(blocks, space, p, a);
      assert p in space && a !in space && (p > a ==> !Within(a, n, p));
    }
    forall u: nat ensures u in space' <==> Covered(blocks', u) {
      GrownCovers(blocks, a, n, u);
      assert u in Units(a, n) <==> Within(a, n, u);
    }
  }

  lemma GrownCovers(blocks: map<nat, nat>, a: nat, n: nat, u: nat)
    requires a !in blocks
    ensures Covered(blocks[a := n], u) <==> Covered(blocks, u) || Within(a, n, u)
  {
    if p :| Inside(blocks, p, u) { assert Inside(blocks[a := n], p, u); }
    if Within(a, n, u) { assert Inside(blocks[a := n], a, u); }
    var blocks' := blocks[a := n];
    if p :| Inside(blocks', p, u) { assert p != a ==> Inside(blocks, p, u); }
  }

  lemma Grown(mem: Memory, blocks: map<nat, nat>, live: set<nat>, space: set<nat>, a: nat, n: nat)
    requires Sound(mem, blocks, live, space) && Granted(space, Some(a), n) && n > 0
    ensures a !in blocks && a in Units(a, n)
    ensures var mem' := SetSize(mem + map u | u in Units(a, n) :: Header(0, 0), a, n);
            Sound(mem', blocks[a := n], live + {a}, space + Units(a, n))
            && Undisturbed(mem, blocks, mem', blocks[a := n], live)
  {
    GrownTiles(blocks, space, a, n);
    assert Within(a, n, a);
    var f := FreeSet(blocks, live);
    assert f == FreeSet(blocks[a := n], live + {a}) && a !in f;
    hide FreeSet, Tiles, Units;
    GrownHeaders(mem, blocks, space, a, n);
    GrownKeeps(mem, blocks, live, space, a, n);
    assert forall x :: x in f && x in mem ==> x !in Units(a, n);
    SameLinks(mem, SetSize(mem + map u | u in Units(a, n) :: Header(0, 0), a, n), f);
  }

  lemma NotNew(blocks: map<nat, nat>, space: set<nat>, a: nat, n: nat)
    requires Tiles(blocks, space) && Granted(space, Some(a), n)
    ensures forall p, u :: Inside(blocks, p, u) ==> u !in Units(a, n)
    ensures forall p :: p in blocks ==> p !in Units(a, n)
  {
    forall p, u | Inside(blocks, p, u) ensures u !in Units(a, n) {
      InSpace(blocks, space, p, u);
    }
    forall p | p in blocks ensures p !in Units(a, n) {
      InSpace(blocks, space, p, p);
    }
  }

  lemma GrownHeaders(mem: Memory, blocks: map<nat, nat>, space: set<nat>, a: nat, n: nat)
    requires Headers(mem, blocks, space) && Tiles(blocks, space) && Granted(space, Some(a), n) && a in Units(a, n)
    ensures Headers(SetSize(mem + map u | u in Units(a, n) :: Header(0, 0), a, n), blocks[a := n], space + Units(a, n))
  {
    NotNew(blocks, space, a, n);
    hide Tiles;
  }

  lemma GrownKeeps(mem: Memory, blocks: map<nat, nat>, live: set<nat>, space: set<nat>, a: nat, n: nat)
    requires Tiles(blocks, space) && Granted(space, Some(a), n) && a in Units(a, n) && a !in blocks
    requires live <= blocks.Keys
    ensures Undisturbed(mem, blocks, SetSize(mem + map u | u in Units(a, n) :: Header(0, 0), a, n),
        blocks[a := n], live)
  {
  }

  lemma FreeSetWithout(blocks: map<nat, nat>, live: set<nat>, bp: nat)
    requires bp in blocks
    ensures bp in FreeSet(blocks, live - {bp})
  {
  }

  /** Changing two headers of the free list disturbs no live block. */
  lemma ListHeadersOnly(mem: Memory, blocks: map<nat, nat>, live: set<nat>, space: set<nat>, mem': Memory,
      blocks': map<nat, nat>, p: nat, bp: nat)
    requires Tiles(blocks, space) && live <= blocks.Keys && p in FreeSet(blocks, live) && bp in FreeSet(blocks, live)
    requires forall u :: u in mem && u != p && u != bp ==> u in mem' && mem'[u] == mem[u]
    requires forall h :: h in live ==> h in blocks' && blocks'[h] == blocks[h]
    ensures Undisturbed(mem, blocks, mem', blocks', live)
  {
  }

  lemma HeaderSpares(mem: Memory, blocks: map<nat, nat>, live: set<nat>, space: set<nat>, p: nat, x: Header,
      blocks': map<nat, nat>)
    requires Tiles(blocks, space) && live <= blocks.Keys && p in FreeSet(blocks, live)
    requires forall h :: h in live ==> h in blocks' && blocks'[h] == blocks[h]
    ensures Undisturbed(mem, blocks, mem[p := x], blocks', live)
  {
    ListHeadersOnly(mem, blocks, live, space, mem[p := x], blocks', p, p);
  }

  /** The free block t now holds all units of the block bp that was freed. */
  predicate Holds(blocks: map<nat, nat>, t: nat, bp: nat, n: nat) {
    t in blocks && t <= bp && bp + n <= t + blocks[t]
  }

  /** The free block of at least n units that comes first after `from` around the ring. */
  ghost predicate FirstFit(mem: Memory, f: set<nat>, from: nat, p: nat, n: nat) {
    && p in f && p in mem && mem[p].size >= n
    && forall x :: x in f && x in mem && x != p && x !in Ahead(f, p, from) ==> mem[x].size < n
  }

  lemma StoreHarmless(mem: Memory, blocks: map<nat, nat>, live: set<nat>, space: set<nat>, h: nat, u: nat, x: Header)
    requires Sound(mem, blocks, live, space) && h in live && h < u && Inside(blocks, h, u)
    ensures Sound(mem[u := x], blocks, live, space)
  {
    EndIsInner(blocks, space, h, u);
    SameLinks(mem, mem[u := x], FreeSet(blocks, live));
    hide Linked, Covered;
  }

  // ---- what a sound heap looks like from outside ----

  /** Unit u lies in a block of the list. */
  ghost predicate FreeUnit(blocks: map<nat, nat>, live: set<nat>, u: nat) {
    exists p :: p !in live && Inside(blocks, p, u)
  }

  ghost predicate LiveUnit(blocks: map<nat, nat>, live: set<nat>, u: nat) {
    exists p :: p in live && Inside(blocks, p, u)
  }

  /** Free and live blocks partition the space. */
  lemma Partition(mem: Memory, blocks: map<nat, nat>, live: set<nat>, space: set<nat>, u: nat)
    requires Sound(mem, blocks, live, space)
    ensures u in space <==> FreeUnit(blocks, live, u) || LiveUnit(blocks, live, u)
    ensures !(FreeUnit(blocks, live, u) && LiveUnit(blocks, live, u))
  {
  }

  /** The list depends on what is live alone, not on the order of the calls that led there. */
  lemma Canonical(mem1: Memory, blocks1: map<nat, nat>, mem2: Memory, blocks2: map<nat, nat>, live: set<nat>,
      space: set<nat>)
    requires Sound(mem1, blocks1, live, space) && Sound(mem2, blocks2, live, space)
    requires forall h :: h in live ==> blocks1[h] == blocks2[h]
    ensures blocks1 == blocks2
    ensures forall p :: p in FreeSet(blocks1, live) ==> p in mem1 && p in mem2 && mem1[p] == mem2[p]
  {
    forall p: nat ensures p in blocks1 <==> p in blocks2 {
      SameStart(mem1, blocks1, mem2, blocks2, live, space, p);
      SameStart(mem2, blocks2, mem1, blocks1, live, space, p);
    }
    forall p | p in blocks1 ensures blocks1[p] == blocks2[p] {
      SameEnd(mem1, blocks1, mem2, blocks2, live, space, p);
      SameEnd(mem2, blocks2, mem1, blocks1, live, space, p);
    }
    assert blocks1 == blocks2;
    forall p | p in FreeSet(blocks1, live) ensures p in mem1 && p in mem2 && mem1[p] == mem2[p] {
      assert LinkAt(mem1, FreeSet(blocks1, live), p) && LinkAt(mem2, FreeSet(blocks1, live), p);
    }
  }

  lemma SameFreeUnits(mem1: Memory, blocks1: map<nat, nat>, mem2: Memory, blocks2: map<nat, nat>, live: set<nat>,
      space: set<nat>, u: nat)
    requires Sound(mem1, blocks1, live, space) && Sound(mem2, blocks2, live, space)
    requires forall h :: h in live ==> blocks1[h] == blocks2[h]
    ensures FreeUnit(blocks1, live, u) <==> FreeUnit(blocks2, live, u)
  {
    Partition(mem1, blocks1, live, space, u);
    Partition(mem2, blocks2, live, space, u);
    hide Sound;
    assert LiveUnit(blocks1, live, u) <==> LiveUnit(blocks2, live, u) by {
      if p :| p in live && Inside(blocks1, p, u) { assert Inside(blocks2, p, u); }
      if p :| p in live && Inside(blocks2, p, u) { assert Inside(blocks1, p, u); }
    }
  }

  /** No unit next to a free block, before or behind it, is free. */
  lemma Isolated(mem: Memory, blocks: map<nat, nat>, live: set<nat>, space: set<nat>, p: nat, u: nat)
    requires Sound(mem, blocks, live, space) && p in blocks && p !in live && (u + 1 == p || u == p + blocks[p])
    ensures !FreeUnit(blocks, live, u)
  {
    hide Linked, Headers, Covered;
    assert p in FreeSet(blocks, live);
    forall r: nat ensures r !in live ==> !Inside(blocks, r, u) {
      assert r in blocks && r !in live ==> r in FreeSet(blocks, live);
    }
  }

  lemma SameStart(mem1: Memory, blocks1: map<nat, nat>, mem2: Memory, blocks2: map<nat, nat>, live: set<nat>,
      space: set<nat>, p: nat)
    requires Sound(mem1, blocks1, live, space) && Sound(mem2, blocks2, live, space)
    requires forall h :: h in live ==> blocks1[h] == blocks2[h]
    ensures p in blocks1 ==> p in blocks2
  {
    if p in blocks1 && p !in live {
      assert Inside(blocks1, p, p);
      SameFreeUnits(mem1, blocks1, mem2, blocks2, live, space, p);
      var below: nat := p - 1;
      Isolated(mem1, blocks1, live, space, p, below);
      SameFreeUnits(mem1, blocks1, mem2, blocks2, live, space, below);
      var q: nat :| q !in live && Inside(blocks2, q, p);
      hide Sound;
      assert !Inside(blocks2, q, below);
    }
  }

  lemma SameEnd(mem1: Memory, blocks1: map<nat, nat>, mem2: Memory, blocks2: map<nat, nat>, live: set<nat>,
      space: set<nat>, p: nat)
    requires Sound(mem1, blocks1, live, space) && Sound(mem2, blocks2, live, space)
    requires forall h :: h in live ==> blocks1[h] == blocks2[h]
    ensures p in blocks1 && p in blocks2 ==> blocks2[p] <= blocks1[p]
  {
    if p in blocks1 && p in blocks2 && p !in live {
      var e := p + blocks1[p];
      Isolated(mem1, blocks1, live, space, p, e);
      SameFreeUnits(mem1, blocks1, mem2, blocks2, live, space, e);
      hide Sound;
      assert !Inside(blocks2, p, e);
    }
  }

  // ---- the allocator ----

  datatype Snapshot = Snapshot(mem: Memory, freep: Option<nat>, blocks: map<nat, nat>, live: set<nat>, space: set<nat>)

  /** Some free block has n units or more. */
  ghost predicate FitsIn(s: Snapshot, n: nat) {
    exists x :: x in FreeSet(s.blocks, s.live) && x in s.mem && s.mem[x].size >= n
  }

  /** What a search for n units does to the heap s: t is the heap after it, r the answer, p the
      free block used. If one fits, the first from freep on is used and sbrk is not asked. */
  ghost predicate Allocated(s: Snapshot, t: Snapshot, n: nat, grant: Option<nat>, r: Option<nat>, p: nat) {
    && Undisturbed(s.mem, s.blocks, t.mem, t.blocks, s.live)
    && (r.None? <==> !FitsIn(s, n) && grant.None?)
    && (r.None? ==> t.live == s.live && t.space == s.space && t.blocks == s.blocks)
    && (r.Some? ==> r.value > 0 && r.value - 1 !in s.live && t.live == s.live + {r.value - 1})
    && (r.Some? ==> r.value - 1 in t.blocks && t.blocks[r.value - 1] == n)
    && (r.Some? ==> t.space == if FitsIn(s, n) then s.space else s.space + Units(grant.value, Max(n, CHUNK)))
    && (FitsIn(s, n) && s.freep.Some? ==> FirstFit(s.mem, FreeSet(s.blocks, s.live), s.freep.value, p, n))
    && (FitsIn(s, n) && s.freep.Some? && p in s.mem ==> r == Some(p + s.mem[p].size - n + 1))
  }

  lemma TookFit(s: Snapshot, t: Snapshot, n: nat, grant: Option<nat>, h: nat, p: nat, grown: bool)
    requires Undisturbed(s.mem, s.blocks, t.mem, t.blocks, s.live) && (grown <==> !FitsIn(s, n))
    requires grown ==> grant.Some?
    requires h !in s.live && t.live == s.live + {h} && h in t.blocks && t.blocks[h] == n
    requires t.space == if grown then s.space + Units(grant.value, Max(n, CHUNK)) else s.space
    requires !grown ==> s.freep.Some? && FirstFit(s.mem, FreeSet(s.blocks, s.live), s.freep.value, p, n)
    requires !grown ==> p in s.mem && h == p + s.mem[p].size - n
    ensures Allocated(s, t, n, grant, Some(h + 1), p)
  {
  }

  /** In plain terms: null only if no block has room for the request, else the fewest units that hold
      it, apart from all live blocks, which stay as they are. */
  lemma MallocMeans(s: Snapshot, t: Snapshot, nbytes: nat, grant: Option<nat>, r: Option<nat>, p: nat)
    requires Allocated(s, t, UnitsFor(nbytes), grant, r, p) && nbytes < UINT && Sound(t.mem, t.blocks, t.live, t.space)
    ensures nbytes + 7 < UINT ==>
      (r.None? <==> grant.None? &&
                    forall x :: x in FreeSet(s.blocks, s.live) && x in s.mem ==> 8 * (s.mem[x].size - 1) < nbytes)
    ensures r.None? ==> t.live == s.live && t.blocks == s.blocks && t.space == s.space
    ensures r.Some? ==> r.value > 0 && r.value - 1 !in s.live && t.live == s.live + {r.value - 1}
    ensures r.Some? ==>
      r.value - 1 in t.blocks && r.value - 1 in t.mem && t.mem[r.value - 1].size == t.blocks[r.value - 1]
    ensures r.Some? && nbytes + 7 < UINT ==>
      8 * (t.blocks[r.value - 1] - 2) < nbytes <= 8 * (t.blocks[r.value - 1] - 1)
    ensures forall h :: h in s.live ==> h in s.blocks && h in t.blocks && t.blocks[h] == s.blocks[h]
    ensures r.Some? ==> forall h :: h in s.live ==>
      h + t.blocks[h] <= r.value - 1 || r.value - 1 + t.blocks[r.value - 1] <= h
    ensures forall h, u: nat :: h in s.live && h <= u < h + s.blocks[h] && u in s.mem ==>
      u in t.mem && t.mem[u] == s.mem[u]
  {
    Spared(s.mem, s.blocks, t.mem, t.blocks, s.live);
    hide Linked, Separate, FirstFit, Undisturbed, FreeSet, Covered;
  }

  class Heap {
    var mem: Memory
    var freep: Option<nat>
    ghost var blocks: map<nat, nat>
    ghost var live: set<nat>
    ghost var space: set<nat>

    constructor ()
      ensures Valid() && live == {} && space == {}
    {
      mem, freep, blocks, live, space := map[0 := Header(0, 0)], None, map[], {}, {};
    }

    ghost predicate Valid()
      reads this
    {
      if freep.None? then blocks == map[] && live == {} && space == {} && 0 in mem && mem[0].size == 0
      else freep.value in List() && Sound(mem, blocks, live, space)
    }

    ghost function List(): set<nat>
      reads this
    {
      FreeSet(blocks, live)
    }

    /** What the program stores in a live block's payload leaves the heap sound. */
    method Store(h: nat, u: nat, x: Header)
      requires Valid() && h in live && h < u && Inside(blocks, h, u)
      modifies `mem
      ensures Valid() && mem == old(mem)[u := x]
    {
      StoreHarmless(mem, blocks, live, space, h, u, x);
      mem := mem[u := x];
    }

    /** free's loop: the element of the list after which bp belongs. */
    method Search(bp: nat) returns (p: nat)
      requires Valid() && freep.Some? && bp > 0 && bp !in List()
      ensures Precedes(List(), p, bp)
    {
      ghost var t := SomePrecedes(List(), bp);
      p := freep.value;
      assert LinkAt(mem, List(), p);
      while !(bp > p && bp < mem[p].ptr)
        invariant LinkAt(mem, List(), p) && p in List()
        decreases |Ahead(List(), p, t)|
      {
        if p >= mem[p].ptr && (bp > p || bp < mem[p].ptr) { break; }
        StepAhead(List(), p, mem[p].ptr, t);
        p := mem[p].ptr;
        assert LinkAt(mem, List(), p);
      }
    }

    /** free's first `if`: bp gets the link of p, and the block after it if they touch. */
    method JoinRight(p: nat, bp: nat)
      requires Sound(mem, blocks, live, space) && bp in live && Precedes(List(), p, bp)
      modifies `mem, `blocks, `live
      ensures HalfFreed(mem, blocks, live, space, p, bp) && live == old(live) - {bp}
      ensures Undisturbed(old(mem), old(blocks), mem, blocks, live)
      ensures bp in old(blocks) && Holds(blocks, bp, bp, old(blocks[bp]))
    {
      ghost var mem0, blocks0 := mem, blocks;
      assert LinkAt(mem, List(), p) && bp in mem && bp in blocks && live <= blocks.Keys && Tiles(blocks, space);
      FreeSetWithout(blocks, live, bp);
      hide Sound, HalfFreed, Linked, LinkAt, Headers, Separate, Precedes, Tiles, Covered, Undisturbed, FreeSet;
      var q := mem[p].ptr;
      if bp + mem[bp].size == q {
        JoinedRight(mem, blocks, live, space, p, bp, q);
        mem := mem[bp := Header(mem[q].ptr, mem[bp].size + mem[q].size)];
        blocks := Join(blocks, bp, q);
      } else {
        NotJoinedRight(mem, blocks, live, space, p, bp, q);
        mem := mem[bp := Header(q, mem[bp].size)];
      }
      live := live - {bp};
      HeaderSpares(mem0, blocks0, live, space, bp, mem[bp], blocks);
    }

    /** free's second `if`: p points to bp, or takes it in if they touch. */
    method JoinLeft(p: nat, bp: nat) returns (ghost t: nat)
      requires HalfFreed(mem, blocks, live, space, p, bp)
      modifies `mem, `blocks
      ensures Sound(mem, blocks, live, space) && p in List()
      ensures Undisturbed(old(mem), old(blocks), mem, blocks, live)
      ensures bp in old(blocks) && t in List() && Holds(blocks, t, bp, old(blocks[bp]))
    {
      ghost var mem0, blocks0 := mem, blocks;
      JoinedLeft(mem, blocks, live, space, p, bp);
      if p + mem[p].size == bp {
        mem := mem[p := Header(mem[bp].ptr, mem[p].size + mem[bp].size)];
        blocks, t := Join(blocks, p, bp), p;
      } else {
        mem := mem[p := Header(bp, mem[p].size)];
        t := bp;
      }
      hide Sound, HalfFreed, Linked, LinkAt, Undisturbed, FreeSet;
      HeaderSpares(mem0, blocks0, live, space, p, mem[p], blocks);
    }

    /** free: the block is in the list again, joined to the free neighbours it touches. */
    method Free(ap: nat) returns (ghost t: nat)
      requires Valid() && ap > 0 && ap - 1 in live
      modifies this
      ensures Valid() && freep.Some? && live == old(live) - {ap - 1} && space == old(space)
      ensures Undisturbed(old(mem), old(blocks), mem, blocks, live)
      ensures ap - 1 in old(blocks) && t in List() && Holds(blocks, t, ap - 1, old(blocks[ap - 1]))
      ensures t in blocks && t <= ap - 1 && ap - 1 + old(blocks)[ap - 1] <= t + blocks[t]
      ensures forall x, y :: x in List() && y in List() && x in blocks ==> x + blocks[x] != y
      ensures forall h :: h in live ==> h in old(blocks) && h in blocks && blocks[h] == old(blocks)[h]
      ensures forall h, u: nat :: h in live && h <= u < h + old(blocks)[h] && u in old(mem) ==>
        u in mem && mem[u] == old(mem)[u]
    {
      hide HalfFreed, Undisturbed, Linked, Headers, Separate, Precedes;
      var bp := ap - 1;
      ghost var mem0, blocks0 := mem, blocks;
      var p := Search(bp);
      JoinRight(p, bp);
      ghost var mem1, blocks1 := mem, blocks;
      t := JoinLeft(p, bp);
      UndisturbedTrans(mem0, blocks0, mem1, blocks1, mem, blocks, live, live);
      freep := Some(p);
      Spared(mem0, blocks0, mem, blocks, live);
      NoneTouch(mem, blocks, live, space);
    }

    /** sbrk: new memory, zero-filled. What it answers is up to the kernel. */
    method Sbrk(n: nat, a: nat)
      requires Valid() && freep.Some? && n > 0 && Granted(space, Some(a), n)
      modifies `mem, `blocks, `live, `space
      ensures Valid() && space == old(space) + Units(a, n) && a !in old(live) && live == old(live) + {a}
      ensures Undisturbed(old(mem), old(blocks), mem, blocks, old(live))
      ensures a in blocks && blocks[a] == n && List() == old(List())
    {
      Grown(mem, blocks, live, space, a, n);
      assert FreeSet(blocks[a := n], live + {a}) == List();
      mem := mem + map u | u in Units(a, n) :: Header(0, 0);
      mem := SetSize(mem, a, n);
      blocks, live, space := blocks[a := n], live + {a}, space + Units(a, n);
    }

    /** morecore */
    method Morecore(nu: nat, grant: Option<nat>) returns (r: Option<nat>)
      requires Valid() && freep.Some? && nu > 0 && Granted(space, grant, Max(nu, CHUNK))
      modifies this
      ensures Valid() && freep.Some? && live == old(live) && Undisturbed(old(mem), old(blocks), mem, blocks, live)
      ensures grant.None? ==> r.None? && blocks == old(blocks) && space == old(space)
      ensures grant.Some? ==> r == freep && space == old(space) + Units(grant.value, Max(nu, CHUNK)) && Fits(nu)
    {
      var n := if nu < CHUNK then CHUNK else nu;
      ghost var live0 := live;
      if grant.None? { return None; }
      ghost var mem0, blocks0 := mem, blocks;
      Sbrk(n, grant.value);
      ghost var mem1, blocks1 := mem, blocks;
      ghost var t := Free(grant.value + 1);
      UndisturbedTrans(mem0, blocks0, mem1, blocks1, mem, blocks, live0, live0);
      hide Undisturbed;
      assert t in mem && mem[t].size >= nu;
      return freep;
    }

    ghost predicate Fits(n: nat)
      reads this
    {
      FitsIn(Now(), n)
    }

    /** The `if` in malloc's loop: n units of the free block p, all of it or its end. */
    method Take(prevp: nat, p: nat, n: nat) returns (h: nat)
      requires Valid() && freep.Some? && n > 0 && prevp in List() && prevp in mem && mem[prevp].ptr == p
      requires p in mem && mem[p].size >= n
      modifies this
      ensures Valid() && freep.Some? && space == old(space)
      ensures h == p + old(mem[p].size) - n && h !in old(live) && live == old(live) + {h} && h in blocks
      ensures blocks[h] == n
      ensures Undisturbed(old(mem), old(blocks), mem, blocks, old(live))
    {
      assert LinkAt(mem, List(), prevp) && p != 0 && p != prevp && prevp !in live && p !in live;
      h := p;
      if mem[p].size == n {
        TakenWhole(mem, blocks, live, space, prevp, p);
        mem := mem[prevp := Header(mem[p].ptr, mem[prevp].size)];
        live := live + {p};
      } else {
        h := TakeEnd(p, n);
      }
      freep := Some(prevp);
    }

    method TakeEnd(p: nat, n: nat) returns (q: nat)
      requires Sound(mem, blocks, live, space) && p in List() && p in mem && 0 < n < mem[p].size
      modifies `mem, `blocks, `live
      ensures Sound(mem, blocks, live, space) && List() == old(List())
      ensures q == p + old(mem[p].size) - n && q !in old(live) && live == old(live) + {q} && q in blocks
      ensures blocks[q] == n
      ensures Undisturbed(old(mem), old(blocks), mem, blocks, old(live))
    {
      TakenEnd(mem, blocks, live, space, p, n);
      hide Sound, Undisturbed;
      ghost var size := mem[p].size;
      mem := SetSize(mem, p, mem[p].size - n);
      q := p + mem[p].size;
      mem := SetSize(mem, q, n);
      blocks := blocks[p := size - n][q := n];
      live := live + {q};
    }

    /** Where malloc's loop stands: it has found nothing before p on its way round from freep. */
    ghost predicate Searching(prevp: nat, p: nat, n: nat)
      reads this
    {
      && Valid() && freep.Some? && prevp in List() && LinkAt(mem, List(), prevp) && mem[prevp].ptr == p
      && p in List() && p in mem
      && forall x :: x in List() && x in mem && x != p && x !in Ahead(List(), p, freep.value) ==> mem[x].size < n
    }

    lemma SearchStarts(n: nat)
      requires Valid() && freep.Some?
      ensures freep.value in mem && Searching(freep.value, mem[freep.value].ptr, n)
    {
    }

    lemma SearchGoesOn(prevp: nat, p: nat, n: nat)
      requires Searching(prevp, p, n) && Some(p) != freep && mem[p].size < n
      ensures Searching(p, mem[p].ptr, n)
      ensures |Ahead(List(), mem[p].ptr, freep.value)| < |Ahead(List(), p, freep.value)|
    {
      assert LinkAt(mem, List(), p);
      assert LinkAt(mem, List(), mem[p].ptr);
      StepAhead(List(), p, mem[p].ptr, freep.value);
    }

    lemma SearchFailed(prevp: nat, p: nat, n: nat)
      requires Searching(prevp, p, n) && Some(p) == freep && mem[p].size < n
      ensures !Fits(n)
    {
    }

    ghost function Now(): Snapshot
      reads this
    {
      Snapshot(mem, freep, blocks, live, space)
    }

    /** What has become of the heap `was` while malloc searches: sbrk may have added to it. */
    ghost predicate Extended(was: Snapshot, n: nat, grant: Option<nat>, grown: bool)
      reads this
    {
      && live == was.live && Undisturbed(was.mem, was.blocks, mem, blocks, live)
      && if grown then !FitsIn(was, n) && grant.Some? && Fits(n)
        && space == was.space + Units(grant.value, Max(n, CHUNK))
         else Now() == was
    }

    /** The beginning of malloc: before its first use the list is made, holding base alone. */
    method Start(n: nat)
      requires Valid() && n > 0
      modifies `mem, `freep
      ensures Valid() && freep.Some?
      ensures old(freep).Some? ==> mem == old(mem) && freep == old(freep)
      ensures Undisturbed(old(mem), old(blocks), mem, blocks, live) && (live == {} || old(freep).Some?)
      ensures Fits(n) <==> old(Fits(n))
    {
      if freep == None {
        mem := mem[0 := Header(0, 0)];
        freep := Some(0);
      }
    }

    /** malloc: the block is new and of the size asked for; no live block is moved, resized or
        written to. */
    method Malloc(nbytes: nat, grant: Option<nat>) returns (r: Option<nat>, ghost p: nat)
      requires Valid() && nbytes < UINT && Granted(space, grant, Max(UnitsFor(nbytes), CHUNK))
      modifies this
      ensures Valid() && freep.Some?
      ensures Allocated(old(Now()), Now(), UnitsFor(nbytes), grant, r, p)
      ensures nbytes + 7 < UINT ==>
        (r.None? <==> grant.None? &&
                      forall x :: x in old(List()) && x in old(mem) ==> 8 * (old(mem)[x].size - 1) < nbytes)
      ensures r.None? ==> live == old(live) && blocks == old(blocks) && space == old(space)
      ensures r.Some? ==> r.value > 0 && r.value - 1 !in old(live) && live == old(live) + {r.value - 1}
      ensures r.Some? ==> r.value - 1 in blocks && r.value - 1 in mem && mem[r.value - 1].size == blocks[r.value - 1]
      ensures r.Some? && nbytes + 7 < UINT ==> 8 * (blocks[r.value - 1] - 2) < nbytes <= 8 * (blocks[r.value - 1] - 1)
      ensures forall h :: h in old(live) ==> h in old(blocks) && h in blocks && blocks[h] == old(blocks)[h]
      ensures r.Some? ==> forall h :: h in old(live) ==>
        h + blocks[h] <= r.value - 1 || r.value - 1 + blocks[r.value - 1] <= h
      ensures forall h, u: nat :: h in old(live) && h <= u < h + old(blocks)[h] && u in old(mem) ==>
        u in mem && mem[u] == old(mem)[u]
    {
      hide Sound, FreeSet, Undisturbed, Allocated, Granted, UnitsFor;
      ghost var s := Now();
      r, p := Allocate(UnitsFor(nbytes), grant);
      MallocMeans(s, Now(), nbytes, grant, r, p);
    }

    /** malloc, in units. */
    method Allocate(nunits: nat, grant: Option<nat>) returns (r: Option<nat>, ghost p: nat)
      requires Valid() && nunits > 0 && Granted(space, grant, Max(nunits, CHUNK))
      modifies this
      ensures Valid() && freep.Some?
      ensures Allocated(old(Now()), Now(), nunits, grant, r, p)
    {
      Start(nunits);
      r, p := FindFit(nunits, grant);
    }

    /** malloc's loop. */
    method FindFit(nunits: nat, grant: Option<nat>) returns (r: Option<nat>, ghost p: nat)
      requires Valid() && nunits > 0 && freep.Some? && Granted(space, grant, Max(nunits, CHUNK))
      modifies this
      ensures Valid() && freep.Some?
      ensures Allocated(old(Now()), Now(), nunits, grant, r, p)
    {
      ghost var was := Now();
      assert live <= blocks.Keys;
      UndisturbedRefl(mem, blocks, live);
      var prevp := freep.value;
      SearchStarts(nunits);
      hide Sound, Undisturbed, FitsIn, FirstFit, Searching, Extended, Granted, LinkAt, FreeSet, Ahead, Allocated;
      var q := mem[prevp].ptr;
      ghost var grown := false;
      while true
        invariant Searching(prevp, q, nunits) && q in mem && freep.Some?
        invariant Extended(was, nunits, grant, grown)
        invariant !grown ==> Granted(space, grant, Max(nunits, CHUNK))
        decreases if grown then 0 else 1, |Ahead(List(), q, freep.value)|
      {
        if mem[q].size >= nunits {
          r := TakeFit(prevp, q, nunits, was, grant, grown);
          return r, q;
        }
        if freep == Some(q) {
          var m := AskForMore(prevp, q, nunits, grant, was, grown);
          if m == None { return None, 0; }
          grown := true;
          prevp, q := m.value, mem[m.value].ptr;
        } else {
          SearchGoesOn(prevp, q, nunits);
          prevp, q := q, mem[q].ptr;
        }
      }
    }

    /** The branch of malloc's loop that has come full circle. */
    method AskForMore(prevp: nat, p: nat, n: nat, grant: Option<nat>, ghost was: Snapshot, ghost grown: bool)
        returns (m: Option<nat>)
      requires Searching(prevp, p, n) && freep == Some(p) && mem[p].size < n && n > 0
      requires Extended(was, n, grant, grown) && (!grown ==> Granted(space, grant, Max(n, CHUNK)))
      modifies this
      ensures !grown && Valid() && freep.Some? && (m.None? <==> grant.None?)
      ensures m.None? ==> Allocated(was, Now(), n, grant, None, 0)
      ensures m.Some? ==> m == freep && Extended(was, n, grant, true)
      ensures m.Some? ==> m.value in mem && Searching(m.value, mem[m.value].ptr, n)
    {
      SearchFailed(prevp, p, n);
      hide Sound, Undisturbed, FitsIn, LinkAt;
      assert !grown;
      m := Morecore(n, grant);
      if m == None { return; }
      SearchStarts(n);
    }

    method TakeFit(prevp: nat, p: nat, n: nat, ghost was: Snapshot, grant: Option<nat>, ghost grown: bool)
        returns (r: Option<nat>)
      requires Searching(prevp, p, n) && n > 0 && mem[p].size >= n && Extended(was, n, grant, grown)
      modifies this
      ensures Valid() && freep.Some? && r.Some?
      ensures Allocated(was, Now(), n, grant, r, p)
    {
      assert !grown ==> FitsIn(was, n);
      assert !grown ==> FirstFit(was.mem, FreeSet(was.blocks, was.live), was.freep.value, p, n);
      ghost var s := Now();
      hide Sound, Undisturbed, FitsIn, FirstFit, LinkAt, FreeSet, Units, Allocated;
      var h := Take(prevp, p, n);
      UndisturbedTrans(was.mem, was.blocks, s.mem, s.blocks, mem, blocks, was.live, was.live);
      TookFit(was, Now(), n, grant, h, p, grown);
      return Some(h + 1);
    }
  }
}
