/** Physical pages, what two-level page tables in them map, and who owns which page. */
module VmSpec {
  import opened Basics

  const WORDS: nat := 1024     // entries of a page directory or page table
  const PGSIZE: nat := 4096
  const USER: nat := 0x8_0000  // pages below KERNBASE
  const PAGES: nat := 0x10_0000
  const PTE_P: nat := 1

  type Page = p: seq<nat> | |p| == WORDS witness seq(1024, _ => 0)
  type Image = seq<Page>

  function ZeroPage(): Page {
    seq(WORDS, _ => 0)
  }

  // A page table entry: a page number and twelve flags, the lowest of which is PTE_P.
  function Addr(w: nat): nat { w / PGSIZE }
  function Flags(w: nat): nat { w % PGSIZE }
  predicate Present(w: nat) { w % 2 == 1 }

  function Entry(frame: nat, flags: nat): (w: nat)
    requires flags < PGSIZE
    ensures Addr(w) == frame && Flags(w) == flags && (Present(w) <==> flags % 2 == 1)
  {
    EntryParts(frame, flags);
    frame * PGSIZE + flags
  }

  lemma EntryParts(frame: nat, flags: nat)
    requires flags < PGSIZE
    ensures (frame * PGSIZE + flags) / PGSIZE == frame && (frame * PGSIZE + flags) % PGSIZE == flags
    ensures (frame * PGSIZE + flags) % 2 == flags % 2
  {
  }

  /** Directory entry and table entry of page number v. */
  function Pdx(v: nat): nat { v / WORDS }
  function Ptx(v: nat): (j: nat) ensures j < WORDS { v % WORDS }

  lemma PageIndex(v: nat, x: nat)
    ensures v < PAGES ==> Pdx(v) < WORDS
    ensures Pdx(v) == Pdx(x) && Ptx(v) == Ptx(x) ==> v == x
  {
  }

  predicate HasTable(m: Image, d: nat, i: nat) {
    d < |m| && i < WORDS && Present(m[d][i])
  }

  function TableOf(m: Image, d: nat, i: nat): nat
    requires HasTable(m, d, i)
  {
    Addr(m[d][i])
  }

  /** The page table entry of page number v in the page directory d; 0 if there is no table for it. */
  function Pte(m: Image, d: nat, v: nat): nat {
    if HasTable(m, d, Pdx(v)) && TableOf(m, d, Pdx(v)) < |m| then m[TableOf(m, d, Pdx(v))][Ptx(v)] else 0
  }

  // ---- how many page tables ----

  /** The directory entries of d that have a page table. */
  function Have(m: Image, d: nat): set<nat> {
    set i: nat | i < WORDS && HasTable(m, d, i)
  }

  /** The directory entries of the n pages from v on. */
  function Touched(v: nat, n: nat): set<nat> {
    set i: nat | i < WORDS && Touches(v, n, i)
  }

  predicate Touches(v: nat, n: nat, i: nat) {
    n > 0 && v < (i + 1) * WORDS && i * WORDS < v + n
  }

  lemma TouchedMore(v: nat, n: nat)
    requires v + n < PAGES
    ensures Touched(v, 0) == {} && Touched(v, n + 1) == Touched(v, n) + {Pdx(v + n)}
  {
    assert Touched(v, n + 1) == Touched(v, n) + {Pdx(v + n)};
  }

  /** The entries touched lie side by side. */
  lemma TouchedSpan(v: nat, n: nat)
    requires v + n <= PAGES
    ensures n > 0 ==> Touched(v, n) == Span(Pdx(v), (v + n + WORDS - 1) / WORDS)
    ensures Touched(0, n) == Span(0, (n + WORDS - 1) / WORDS)
  {
    forall i: nat ensures n > 0 ==> (Touches(v, n, i) <==> Pdx(v) <= i < (v + n + WORDS - 1) / WORDS) {}
    forall i: nat ensures Touches(0, n, i) <==> i < (n + WORDS - 1) / WORDS {}
  }

  lemma TouchedPart(v: nat, k: nat, n: nat)
    requires k <= n
    ensures Touched(v, k) <= Touched(v, n)
  {
    assert forall i: nat :: Touches(v, k, i) ==> Touches(v, n, i);
  }

  /** Mapping n new pages from page number `from` on takes more pages than are free, page tables included. */
  predicate Shortage(free: nat, have: set<nat>, from: nat, n: nat) {
    free + |have| < n + |have + Touched(from, n)|
  }

  /** n pages from `from` on have been mapped, at the price of that many pages and the missing tables. */
  predicate Paid(free0: nat, have0: set<nat>, free: nat, have: set<nat>, from: nat, n: nat) {
    have == have0 + Touched(from, n) && free + n + |have| == free0 + |have0|
  }

  lemma PaidNothing(free: nat, have: set<nat>, from: nat)
    requires from < PAGES
    ensures Paid(free, have, free, have, from, 0)
  {
    TouchedMore(from, 0);
  }

  lemma PaidMore(free0: nat, have0: set<nat>, free1: nat, have1: set<nat>, free: nat, have: set<nat>, from: nat, n: nat)
    requires Paid(free0, have0, free1, have1, from, n) && from + n < PAGES
    requires have == have1 + {Pdx(from + n)} && free + 1 + |have| == free1 + |have1|
    ensures Paid(free0, have0, free, have, from, n + 1)
  {
    TouchedMore(from, n);
    assert have1 + {Pdx(from + n)} == have0 + Touched(from, n + 1);
  }

  /** One page more cannot be paid for: none is left, or none for its page table. */
  lemma CannotPay(free0: nat, have0: set<nat>, free: nat, have: set<nat>, from: nat, k: nat, n: nat)
    requires Paid(free0, have0, free, have, from, k) && k < n && from + n <= PAGES
    requires free == 0 || free + |have| < 1 + |have + {Pdx(from + k)}|
    ensures Shortage(free0, have0, from, n)
  {
    TouchedMore(from, k);
    TouchedPart(from, k + 1, n);
    assert have + {Pdx(from + k)} == have0 + Touched(from, k + 1);
    Fewer(have + {Pdx(from + k)}, have0 + Touched(from, n));
    Fewer(have, have + {Pdx(from + k)});
  }

  lemma PaidAll(free0: nat, have0: set<nat>, free: nat, have: set<nat>, from: nat, n: nat)
    requires Paid(free0, have0, free, have, from, n)
    ensures !Shortage(free0, have0, from, n)
  {
  }

  // ---- ownership ----

  /** What a page directory uses a page for. Kernel mappings own nothing. */
  datatype Use = Dir | Tab(i: nat) | User(v: nat)

  predicate Holds(m: Image, dirs: set<nat>, d: nat, u: Use, f: nat) {
    d in dirs &&
    match u
    case Dir => f == d
    case Tab(i) => HasTable(m, d, i) && f == TableOf(m, d, i)
    case User(v) => v < USER && Present(Pte(m, d, v)) && f == Addr(Pte(m, d, v))
  }

  /** Each page from lo on is free, in hand, or used for one thing by one page directory. */
  ghost predicate Books(lo: nat, m: Image, dirs: set<nat>, free: seq<nat>, hand: set<nat>) {
    && (forall d: nat, u: Use, f: nat :: Holds(m, dirs, d, u, f) ==> lo <= f < |m| && f !in free && f !in hand)
    && (forall d: nat, u: Use, e: nat, w: Use, f: nat ::
      Holds(m, dirs, d, u, f) && Holds(m, dirs, e, w, f) ==> d == e && u == w)
    && (forall i, j :: 0 <= i < j < |free| ==> free[i] != free[j])
    && (forall f :: f in free ==> lo <= f < |m| && f !in hand)
    && (forall f :: f in hand ==> lo <= f < |m|)
    && (forall f: nat :: lo <= f < |m| ==> f in free || f in hand || Held(m, dirs, f))
  }

  ghost predicate Held(m: Image, dirs: set<nat>, f: nat) {
    exists d: nat, u: Use :: Holds(m, dirs, d, u, f)
  }

  /** f is used for nothing but data. */
  ghost predicate Idle(m: Image, dirs: set<nat>, f: nat) {
    forall d: nat, u: Use :: Holds(m, dirs, d, u, f) ==> u.User?
  }

  /** The directories map what they mapped before. */
  ghost predicate SameMap(m: Image, m': Image, dirs: set<nat>) {
    forall d: nat, v: nat {:trigger Pte(m', d, v)} :: d in dirs && v < PAGES ==> Pte(m', d, v) == Pte(m, d, v)
  }

  ghost predicate SameUses(m: Image, dirs: set<nat>, m': Image, dirs': set<nat>) {
    forall d: nat, u: Use, f: nat :: Holds(m', dirs', d, u, f) <==> Holds(m, dirs, d, u, f)
  }

  /** The pages of user memory hold what they held. */
  ghost predicate SameData(m: Image, m': Image, dirs: set<nat>) {
    |m'| == |m| && forall d: nat, v: nat, f: nat :: Holds(m, dirs, d, User(v), f) && f < |m| ==> m'[f] == m[f]
  }

  /** Books rest on who holds what alone. */
  lemma SameBooks(lo: nat, m: Image, dirs: set<nat>, free: seq<nat>, hand: set<nat>, m': Image)
    requires Books(lo, m, dirs, free, hand) && SameUses(m, dirs, m', dirs) && |m'| == |m|
    ensures Books(lo, m', dirs, free, hand)
  {
  }

  /** A page in hand gets its one use. */
  lemma Give(lo: nat, m: Image, dirs: set<nat>, free: seq<nat>, hand: set<nat>, m': Image, dirs': set<nat>, d: nat,
      u: Use, f: nat)
    requires Books(lo, m, dirs, free, hand) && f in hand && |m'| == |m|
    requires forall e: nat, w: Use, g: nat ::
      Holds(m', dirs', e, w, g) <==> Holds(m, dirs, e, w, g) || (e == d && w == u && g == f)
    ensures Books(lo, m', dirs', free, hand - {f})
  {
    hide Holds;
    assert Holds(m', dirs', d, u, f);
    forall g: nat | Held(m, dirs, g) ensures Held(m', dirs', g) {
      var e: nat, w: Use :| Holds(m, dirs, e, w, g);
      assert Holds(m', dirs', e, w, g);
    }
    assert Held(m', dirs', f);
  }

  /** A page loses its one use. */
  lemma Take(lo: nat, m: Image, dirs: set<nat>, free: seq<nat>, hand: set<nat>, m': Image, d: nat, u: Use, f: nat)
    requires Books(lo, m, dirs, free, hand) && Holds(m, dirs, d, u, f) && |m'| == |m|
    requires forall e: nat, w: Use, g: nat ::
      Holds(m', dirs, e, w, g) <==> Holds(m, dirs, e, w, g) && !(e == d && w == u)
    ensures Books(lo, m', dirs, free, hand + {f})
  {
  }

  predicate SameTable(m: Image, m': Image, d: nat, i: nat)
    requires HasTable(m, d, i) && HasTable(m', d, i)
  {
    var t := TableOf(m, d, i);
    TableOf(m', d, i) == t && (t < |m| <==> t < |m'|) && (t < |m| && t < |m'| ==> m'[t] == m[t])
  }

  /** Writing to a page that is no directory and no table changes no mapping. */
  lemma WriteData(lo: nat, m: Image, dirs: set<nat>, free: seq<nat>, hand: set<nat>, f: nat, p: Page)
    requires Books(lo, m, dirs, free, hand) && f < |m| && Idle(m, dirs, f)
    ensures SameUses(m, dirs, m[f := p], dirs) && SameMap(m, m[f := p], dirs)
    ensures !Held(m, dirs, f) ==> Frame(m, m[f := p], dirs)
  {
    var m' := m[f := p];
    forall d: nat, i: nat | d in dirs && i < WORDS
      ensures HasTable(m', d, i) == HasTable(m, d, i) && (HasTable(m, d, i) ==> SameTable(m, m', d, i))
    {
      assert Holds(m, dirs, d, Dir, d);
      assert HasTable(m, d, i) ==> Holds(m, dirs, d, Tab(i), TableOf(m, d, i));
    }
    assert forall d: nat, v: nat :: d in dirs && v < PAGES ==> Pte(m', d, v) == Pte(m, d, v) by {
      forall d: nat, v: nat | d in dirs && v < PAGES ensures Pte(m', d, v) == Pte(m, d, v) { PageIndex(v, v); }
    }
  }

  /** An empty page becomes a page directory. */
  lemma GiveDir(lo: nat, m: Image, dirs: set<nat>, free: seq<nat>, hand: set<nat>, f: nat)
    requires Books(lo, m, dirs, free, hand) && f in hand && m[f] == ZeroPage()
    ensures f !in dirs && Books(lo, m, dirs + {f}, free, hand - {f}) && Have(m, f) == {}
    ensures forall v: nat :: v < PAGES ==> Pte(m, f, v) == 0
  {
    assert f in dirs ==> Holds(m, dirs, f, Dir, f);
    forall v: nat | v < PAGES ensures Pte(m, f, v) == 0 { PageIndex(v, v); }
    assert forall e: nat, w: Use, g: nat ::
      Holds(m, dirs + {f}, e, w, g) <==> Holds(m, dirs, e, w, g) || (e == f && w == Dir && g == f);
    Give(lo, m, dirs, free, hand, m, dirs + {f}, f, Dir, f);
  }

  /** An empty page becomes page table i of directory d. */
  lemma GiveTab(lo: nat, m: Image, dirs: set<nat>, free: seq<nat>, hand: set<nat>, d: nat, i: nat, f: nat, w: nat)
    requires Books(lo, m, dirs, free, hand) && d in dirs && d < |m| && i < WORDS && !HasTable(m, d, i)
    requires f in hand && m[f] == ZeroPage() && Present(w) && Addr(w) == f
    ensures var m' := m[d := m[d][i := w]];
      && Books(lo, m', dirs, free, hand - {f}) && SameMap(m, m', dirs) && Grew(m, m', dirs, d)
      && HasTable(m', d, i) && TableOf(m', d, i) == f && Have(m', d) == Have(m, d) + {i}
  {
    var m' := m[d := m[d][i := w]];
    assert Holds(m, dirs, d, Dir, d);
    forall e: nat, j: nat | e in dirs && j < WORDS && (e != d || j != i)
      ensures HasTable(m', e, j) == HasTable(m, e, j) && (HasTable(m, e, j) ==> SameTable(m, m', e, j))
    {
      assert Holds(m, dirs, e, Dir, e);
      assert HasTable(m, e, j) ==> Holds(m, dirs, e, Tab(j), TableOf(m, e, j));
    }
    forall e: nat, v: nat | e in dirs && v < PAGES ensures Pte(m', e, v) == Pte(m, e, v) { PageIndex(v, v); }
    assert forall e: nat, u: Use, g: nat ::
      Holds(m', dirs, e, u, g) <==> Holds(m, dirs, e, u, g) || (e == d && u == Tab(i) && g == f);
    DataPart(m, m', dirs, dirs - {d});
    Give(lo, m, dirs, free, hand, m', dirs, d, Tab(i), f);
  }

  /** Writing one page table entry changes what one page number maps to. */
  lemma SetPte(lo: nat, m: Image, dirs: set<nat>, free: seq<nat>, hand: set<nat>, d: nat, v: nat, w: nat)
    requires Books(lo, m, dirs, free, hand) && d in dirs && v < PAGES && HasTable(m, d, Pdx(v))
    ensures TableOf(m, d, Pdx(v)) < |m|
    ensures var t := TableOf(m, d, Pdx(v)); var m' := m[t := m[t][Ptx(v) := w]];
      && (forall e: nat, x: nat {:trigger Pte(m', e, x)} :: e in dirs && x < PAGES ==>
        Pte(m', e, x) == if e == d && x == v then w else Pte(m, e, x))
      && (forall e: nat, i: nat :: e in dirs ==>
        HasTable(m', e, i) == HasTable(m, e, i) && (HasTable(m, e, i) ==> TableOf(m', e, i) == TableOf(m, e, i)))
      && Grew(m, m', dirs, d)
  {
    var t := TableOf(m, d, Pdx(v));
    assert Holds(m, dirs, d, Tab(Pdx(v)), t);
    var m' := m[t := m[t][Ptx(v) := w]];
    forall e: nat, i: nat | e in dirs
      ensures HasTable(m', e, i) == HasTable(m, e, i)
      ensures HasTable(m, e, i) ==>
        TableOf(m', e, i) == TableOf(m, e, i) && (e != d || i != Pdx(v) ==> TableOf(m, e, i) != t)
    {
      assert Holds(m, dirs, e, Dir, e);
      assert HasTable(m, e, i) ==> Holds(m, dirs, e, Tab(i), TableOf(m, e, i));
    }
    forall e: nat, x: nat | e in dirs && x < PAGES
      ensures Pte(m', e, x) == if e == d && x == v then w else Pte(m, e, x) {
      PageIndex(v, x);
      assert HasTable(m, e, Pdx(x)) ==> Holds(m, dirs, e, Tab(Pdx(x)), TableOf(m, e, Pdx(x)));
    }
    DataPart(m, m', dirs, dirs - {d});
  }

  // The four ways a page table entry is written.

  lemma MapKernel(lo: nat, m: Image, dirs: set<nat>, free: seq<nat>, hand: set<nat>, d: nat, v: nat, w: nat)
    requires Books(lo, m, dirs, free, hand) && d in dirs && USER <= v < PAGES && HasTable(m, d, Pdx(v))
    ensures TableOf(m, d, Pdx(v)) < |m|
    ensures var t := TableOf(m, d, Pdx(v)); Books(lo, m[t := m[t][Ptx(v) := w]], dirs, free, hand)
  {
    SetPte(lo, m, dirs, free, hand, d, v, w);
    var t := TableOf(m, d, Pdx(v));
    var m' := m[t := m[t][Ptx(v) := w]];
    assert forall e: nat, u: Use, f: nat :: Holds(m', dirs, e, u, f) <==> Holds(m, dirs, e, u, f);
    SameBooks(lo, m, dirs, free, hand, m');
  }

  lemma MapUser(lo: nat, m: Image, dirs: set<nat>, free: seq<nat>, hand: set<nat>, d: nat, v: nat, w: nat)
    requires Books(lo, m, dirs, free, hand) && d in dirs && v < USER && HasTable(m, d, Pdx(v))
    requires !Present(Pte(m, d, v)) && Present(w) && Addr(w) in hand
    ensures TableOf(m, d, Pdx(v)) < |m|
    ensures var t := TableOf(m, d, Pdx(v)); Books(lo, m[t := m[t][Ptx(v) := w]], dirs, free, hand - {Addr(w)})
  {
    SetPte(lo, m, dirs, free, hand, d, v, w);
    var t := TableOf(m, d, Pdx(v));
    var m' := m[t := m[t][Ptx(v) := w]];
    assert forall e: nat, u: Use, f: nat ::
      Holds(m', dirs, e, u, f) <==> Holds(m, dirs, e, u, f) || (e == d && u == User(v) && f == Addr(w));
    Give(lo, m, dirs, free, hand, m', dirs, d, User(v), Addr(w));
  }

  lemma UnmapUser(lo: nat, m: Image, dirs: set<nat>, free: seq<nat>, hand: set<nat>, d: nat, v: nat)
    requires Books(lo, m, dirs, free, hand) && d in dirs && v < USER && HasTable(m, d, Pdx(v)) && Present(Pte(m, d, v))
    ensures TableOf(m, d, Pdx(v)) < |m|
    ensures var t := TableOf(m, d, Pdx(v));
      Books(lo, m[t := m[t][Ptx(v) := 0]], dirs, free, hand + {Addr(Pte(m, d, v))})
  {
    SetPte(lo, m, dirs, free, hand, d, v, 0);
    var t := TableOf(m, d, Pdx(v));
    var m' := m[t := m[t][Ptx(v) := 0]];
    assert forall e: nat, u: Use, f: nat ::
      Holds(m', dirs, e, u, f) <==> Holds(m, dirs, e, u, f) && !(e == d && u == User(v));
    assert Holds(m, dirs, d, User(v), Addr(Pte(m, d, v)));
    Take(lo, m, dirs, free, hand, m', d, User(v), Addr(Pte(m, d, v)));
  }

  // ---- the free list ----

  lemma FromFree(lo: nat, m: Image, dirs: set<nat>, free: seq<nat>, hand: set<nat>)
    requires Books(lo, m, dirs, free, hand) && free != []
    ensures Books(lo, m, dirs, free[1..], hand + {free[0]}) && free[0] !in hand && Idle(m, dirs, free[0])
  {
    assert forall f :: f in free <==> f == free[0] || f in free[1..];
  }

  lemma ToFree(lo: nat, m: Image, dirs: set<nat>, free: seq<nat>, hand: set<nat>, f: nat)
    requires Books(lo, m, dirs, free, hand) && f in hand
    ensures Books(lo, m, dirs, [f] + free, hand - {f}) && Idle(m, dirs, f)
  {
  }

  /** A directory without user memory is given up: its page and its tables are in hand. */
  lemma GiveUpDir(lo: nat, m: Image, dirs: set<nat>, free: seq<nat>, hand: set<nat>, d: nat)
    requires Books(lo, m, dirs, free, hand) && d in dirs
    requires forall v: nat :: v < USER ==> !Present(Pte(m, d, v))
    ensures Books(lo, m, dirs - {d}, free, hand + {d} + TablesFrom(m, d, 0))
  {
    assert Holds(m, dirs, d, Dir, d);
    forall f | f in TablesFrom(m, d, 0) ensures exists i: nat :: Holds(m, dirs, d, Tab(i), f) {
      var i: nat :| 0 <= i < WORDS && HasTable(m, d, i) && TableOf(m, d, i) == f;
      assert Holds(m, dirs, d, Tab(i), f);
    }
    assert forall e: nat, u: Use, f: nat :: Holds(m, dirs - {d}, e, u, f) <==> Holds(m, dirs, e, u, f) && e != d;
    forall f: nat | Held(m, dirs, f) ensures Held(m, dirs - {d}, f) || f == d || f in TablesFrom(m, d, 0) {
      var e: nat, u: Use :| Holds(m, dirs, e, u, f);
      if e != d { assert Holds(m, dirs - {d}, e, u, f); }
    }
  }

  // ---- what an operation leaves alone ----

  /** The address spaces in dirs are as they were: tables, mappings and contents. */
  ghost predicate Frame(m: Image, m': Image, dirs: set<nat>) {
    |m'| == |m| && SameUses(m, dirs, m', dirs) && SameMap(m, m', dirs) && SameData(m, m', dirs)
  }

  lemma DataPart(m: Image, m': Image, dirs: set<nat>, part: set<nat>)
    requires SameData(m, m', dirs) && part <= dirs
    ensures SameData(m, m', part)
  {
    assert forall d: nat, v: nat, f: nat :: Holds(m, part, d, User(v), f) ==> Holds(m, dirs, d, User(v), f);
  }

  /** Only directory d may have got new page tables and new mappings. */
  ghost predicate Grew(m: Image, m': Image, dirs: set<nat>, d: nat) {
    && Frame(m, m', dirs - {d}) && SameData(m, m', dirs)
    && forall i: nat :: HasTable(m, d, i) ==> HasTable(m', d, i) && TableOf(m', d, i) == TableOf(m, d, i)
  }

  lemma FrameTrans(m: Image, m1: Image, m2: Image, dirs: set<nat>)
    requires Frame(m, m1, dirs) && Frame(m1, m2, dirs)
    ensures Frame(m, m2, dirs)
  {
  }

  lemma FramePart(m: Image, m': Image, dirs: set<nat>, part: set<nat>)
    requires Frame(m, m', dirs) && part <= dirs
    ensures Frame(m, m', part)
  {
    forall d: nat, u: Use, f: nat ensures Holds(m', part, d, u, f) <==> Holds(m, part, d, u, f) {
      assert d in part ==> (Holds(m', dirs, d, u, f) <==> Holds(m, dirs, d, u, f));
    }
    DataPart(m, m', dirs, part);
  }

  lemma SameFree(lo: nat, m: Image, m': Image, dirs: set<nat>, free: seq<nat>, free': seq<nat>, hand: set<nat>)
    requires Books(lo, m, dirs, free, hand) && Books(lo, m', dirs, free', hand) && Frame(m, m', dirs)
    ensures forall f: nat :: f in free' <==> f in free
  {
  }

  lemma FrameSelf(m: Image, dirs: set<nat>, d: nat)
    ensures Frame(m, m, dirs) && Grew(m, m, dirs, d)
  {
  }

  lemma UsesKeepTables(m: Image, m': Image, dirs: set<nat>, d: nat, i: nat)
    requires Frame(m, m', dirs) && d in dirs
    ensures HasTable(m', d, i) <==> HasTable(m, d, i)
    ensures HasTable(m, d, i) ==> TableOf(m', d, i) == TableOf(m, d, i)
  {
    assert HasTable(m, d, i) ==> Holds(m, dirs, d, Tab(i), TableOf(m, d, i));
    assert HasTable(m', d, i) ==> Holds(m', dirs, d, Tab(i), TableOf(m', d, i));
  }

  lemma FrameGrew(m: Image, m': Image, dirs: set<nat>, d: nat)
    requires Frame(m, m', dirs) && d in dirs
    ensures Grew(m, m', dirs, d)
  {
    FramePart(m, m', dirs, dirs - {d});
    forall i: nat | HasTable(m, d, i) ensures HasTable(m', d, i) && TableOf(m', d, i) == TableOf(m, d, i) {
      UsesKeepTables(m, m', dirs, d, i);
    }
  }

  lemma FrameHave(m: Image, m': Image, dirs: set<nat>, d: nat)
    requires Frame(m, m', dirs) && d in dirs
    ensures Have(m', d) == Have(m, d)
  {
    forall i: nat ensures HasTable(m', d, i) <==> HasTable(m, d, i) { UsesKeepTables(m, m', dirs, d, i); }
  }

  /** User mappings of m that m1 still has. */
  lemma GrewTrans(m: Image, m1: Image, m2: Image, dirs: set<nat>, d: nat)
    requires Grew(m, m1, dirs, d) && Grew(m1, m2, dirs, d) && d in dirs
    requires forall v: nat {:trigger Pte(m1, d, v)} :: v < USER && Present(Pte(m, d, v)) ==>
      Pte(m1, d, v) == Pte(m, d, v)
    ensures Grew(m, m2, dirs, d)
  {
    FrameTrans(m, m1, m2, dirs - {d});
    forall e: nat, v: nat, f: nat | Holds(m, dirs, e, User(v), f) && f < |m| ensures m2[f] == m[f] {
      if e == d {
        assert Pte(m1, d, v) == Pte(m, d, v);
        assert Holds(m1, dirs, d, User(v), f);
      } else {
        assert Holds(m, dirs - {d}, e, User(v), f);
        assert Holds(m1, dirs - {d}, e, User(v), f);
        assert Holds(m1, dirs, e, User(v), f);
      }
    }
  }

  lemma FrameThenGrew(m: Image, m1: Image, m2: Image, dirs: set<nat>, d: nat)
    requires Frame(m, m1, dirs) && Grew(m1, m2, dirs, d) && d in dirs && SameMap(m1, m2, dirs)
    ensures Grew(m, m2, dirs, d) && SameMap(m, m2, dirs)
  {
    FrameGrew(m, m1, dirs, d);
    GrewTrans(m, m1, m2, dirs, d);
  }

  // ---- kfree ----

  function Junk(): Page {
    seq(WORDS, _ => 0x01010101)
  }

  /** kfree of a page in hand. */
  lemma KfreeKeeps(lo: nat, m: Image, dirs: set<nat>, free: seq<nat>, hand: set<nat>, f: nat)
    requires Books(lo, m, dirs, free, hand) && f in hand
    ensures f < |m| && Books(lo, m[f := Junk()], dirs, [f] + free, hand - {f}) && Frame(m, m[f := Junk()], dirs)
  {
    WriteData(lo, m, dirs, free, hand, f, Junk());
    SameBooks(lo, m, dirs, free, hand, m[f := Junk()]);
    ToFree(lo, m[f := Junk()], dirs, free, hand, f);
  }

  /** The tables of d have stayed, and pages still mapped by it keep their contents. */
  ghost predicate Shrank(m: Image, m': Image, dirs: set<nat>, d: nat) {
    && Frame(m, m', dirs - {d})
    && (forall i: nat ::
      HasTable(m', d, i) == HasTable(m, d, i) && (HasTable(m, d, i) ==> TableOf(m', d, i) == TableOf(m, d, i)))
    && forall v: nat, f: nat {:trigger Holds(m', dirs, d, User(v), f)} ::
      Holds(m', dirs, d, User(v), f) ==> Holds(m, dirs, d, User(v), f) && (f < |m| ==> m'[f] == m[f])
  }

  /** deallocuvm frees one page: kfree, and then the entry is cleared. */
  lemma FreePage(lo: nat, m: Image, dirs: set<nat>, free: seq<nat>, hand: set<nat>, d: nat, v: nat)
    requires Books(lo, m, dirs, free, hand) && d in dirs && v < USER && HasTable(m, d, Pdx(v)) && Present(Pte(m, d, v))
    ensures var t, f := TableOf(m, d, Pdx(v)), Addr(Pte(m, d, v));
      && t < |m| && lo <= f < |m| && f != t && Pte(m, d, v) == m[t][Ptx(v)]
      && var m1 := m[f := Junk()]; var m' := m1[t := m1[t][Ptx(v) := 0]];
      && Books(lo, m', dirs, [f] + free, hand) && Shrank(m, m', dirs, d)
      && forall x: nat {:trigger Pte(m', d, x)} :: x < PAGES ==> Pte(m', d, x) == if x == v then 0 else Pte(m, d, x)
  {
    var t, f := TableOf(m, d, Pdx(v)), Addr(Pte(m, d, v));
    assert Holds(m, dirs, d, User(v), f) && Holds(m, dirs, d, Tab(Pdx(v)), t);
    SetPte(lo, m, dirs, free, hand, d, v, 0);
    UnmapUser(lo, m, dirs, free, hand, d, v);
    var c := m[t := m[t][Ptx(v) := 0]];
    KfreeKeeps(lo, c, dirs, free, hand + {f}, f);
    var m1 := m[f := Junk()];
    var m' := m1[t := m1[t][Ptx(v) := 0]];
    assert m' == c[f := Junk()];
    assert hand + {f} - {f} == hand;
    FramePart(c, m', dirs, dirs - {d});
    FrameTrans(m, c, m', dirs - {d});
    forall i: nat
      ensures HasTable(m', d, i) == HasTable(m, d, i) && (HasTable(m, d, i) ==> TableOf(m', d, i) == TableOf(m, d, i)) {
      UsesKeepTables(c, m', dirs, d, i);
    }
    forall x: nat, g: nat | Holds(m', dirs, d, User(x), g)
      ensures Holds(m, dirs, d, User(x), g) && (g < |m| ==> m'[g] == m[g]) {
      assert Holds(c, dirs, d, User(x), g);
      assert Pte(c, d, x) == if x == v then 0 else Pte(m, d, x);
      assert Holds(m, dirs, d, User(x), g);
    }
  }

  lemma ShrankTrans(m: Image, m1: Image, m2: Image, dirs: set<nat>, d: nat)
    requires Shrank(m, m1, dirs, d) && Shrank(m1, m2, dirs, d) && |m1| == |m|
    ensures Shrank(m, m2, dirs, d)
  {
  }

  lemma ShrankSelf(m: Image, dirs: set<nat>, d: nat)
    ensures Shrank(m, m, dirs, d)
  {
  }

  /** The page tables of d from entry i on. */
  function TablesFrom(m: Image, d: nat, i: nat): set<nat> {
    set j: nat | i <= j < WORDS && HasTable(m, d, j) :: TableOf(m, d, j)
  }

  lemma NextTable(lo: nat, m: Image, dirs: set<nat>, free: seq<nat>, hand: set<nat>, d: nat, i: nat)
    requires Books(lo, m, dirs, free, hand) && d in dirs && i < WORDS
    ensures TablesFrom(m, d, i) == TablesFrom(m, d, i + 1) + if HasTable(m, d, i) then {TableOf(m, d, i)} else {}
    ensures HasTable(m, d, i) ==>
      TableOf(m, d, i) !in TablesFrom(m, d, i + 1) && TableOf(m, d, i) != d && d !in TablesFrom(m, d, i + 1)
  {
    assert Holds(m, dirs, d, Dir, d);
    forall j: nat | i <= j < WORDS && HasTable(m, d, j) ensures Holds(m, dirs, d, Tab(j), TableOf(m, d, j)) {}
  }
}
