/** kalloc.c and vm.c: the free list of pages, and page tables made from them. */
module Vm {
  import opened Basics
  import opened VmSpec

  const PHYSTOP: nat := 0xE000      // in pages, as all addresses here
  const EXTMEM: nat := 0x100
  const DEVSPACE: nat := 0xF_E000
  const PTE_W: nat := 2
  const PTE_U: nat := 4

  datatype MapResult = Mapped | NoMemory | Remap

  /** One line of kmap: n pages from virt on, mapped to those from phys on. */
  datatype KMap = KMap(virt: nat, phys: nat, n: nat, perm: nat)

  function KMaps(data: nat): (ks: seq<KMap>)
    ensures |ks| == 4
  {
    [KMap(USER, 0, EXTMEM, PTE_W), KMap(USER + EXTMEM, EXTMEM, if data > EXTMEM then data - EXTMEM else 0, 0),
     KMap(USER + data, data, if data < PHYSTOP then PHYSTOP - data else 0, PTE_W),
     KMap(DEVSPACE, DEVSPACE, PAGES - DEVSPACE, PTE_W)]
  }

  /** `flags | PTE_P` */
  function WithP(flags: nat): (w: nat)
    ensures flags < PGSIZE ==> w < PGSIZE
    ensures w % 2 == 1
  {
    if flags % 2 == 0 then flags + 1 else flags
  }

  predicate Covers(k: KMap, v: nat) {
    k.virt <= v < k.virt + k.n
  }

  /** What the first i lines of kmap map page v to. */
  function KernelPte(data: nat, i: nat, v: nat): nat
    requires i <= 4
  {
    if i == 0 then 0
    else
      var k := KMaps(data)[i - 1];
      if Covers(k, v) then Entry(k.phys + (v - k.virt), WithP(k.perm)) else KernelPte(data, i - 1, v)
  }

  /** PGROUNDUP, as a page number. */
  function RoundUp(bytes: nat): nat {
    (bytes + PGSIZE - 1) / PGSIZE
  }

  lemma BelowRoundUp(bytes: nat, p: nat)
    ensures p < RoundUp(bytes) <==> p * PGSIZE < bytes
  {
  }

  lemma RoundUpOrder(a: nat, b: nat)
    ensures a <= b ==> RoundUp(a) <= RoundUp(b)
    ensures b < USER * PGSIZE ==> RoundUp(b) <= USER
  {
  }

  /** The pages from lo up to PHYSTOP. */
  function PagesFrom(lo: nat): set<nat> {
    set f: nat | f < PHYSTOP && AtLeast(f, lo)
  }

  predicate AtLeast(f: nat, lo: nat) {
    lo <= f
  }

  class Memory {
    const lo: nat     // first page after the kernel
    const data: nat   // where the kernel's writable data begins
    var mem: Image
    var free: seq<nat>
    ghost var dirs: set<nat>
    ghost var hand: set<nat>

    constructor (lo: nat, data: nat, mem: Image)
      requires EXTMEM < data < PHYSTOP && data <= lo <= PHYSTOP && |mem| == PHYSTOP
      ensures Valid() && this.lo == lo && this.data == data && free == [] && dirs == {}
      ensures hand == PagesFrom(lo)
    {
      this.lo, this.data, this.mem, free, dirs, hand := lo, data, mem, [], {}, PagesFrom(lo);
    }

    ghost predicate Valid()
      reads this
    {
      EXTMEM < data < PHYSTOP && data <= lo <= PHYSTOP && |mem| == PHYSTOP && Books(lo, mem, dirs, free, hand)
    }

    /** kalloc */
    method Kalloc() returns (r: Option<nat>)
      requires Valid()
      modifies `free, `hand
      ensures Valid() && (r.None? <==> old(free) == [])
      ensures r.None? ==> free == old(free) && hand == old(hand)
      ensures r.Some? ==> r.value == old(free)[0] && free == old(free)[1..]
      ensures r.Some? ==> r.value !in old(hand) && hand == old(hand) + {r.value}
    {
      if free == [] { return None; }
      FromFree(lo, mem, dirs, free, hand);
      r := Some(free[0]);
      hand := hand + {free[0]};
      free := free[1..];
    }

    /** kfree; `panic` for a page that is not kalloc's. */
    method Kfree(f: nat) returns (panic: bool)
      requires |mem| == PHYSTOP
      modifies `mem, `free
      ensures panic <==> f < lo || f >= PHYSTOP
      ensures panic ==> mem == old(mem) && free == old(free)
      ensures !panic ==> mem == old(mem)[f := Junk()] && free == [f] + old(free)
    {
      if f < lo || f >= PHYSTOP { return true; }
      mem := mem[f := Junk()];
      free := [f] + free;
      return false;
    }

    /** freerange: the pages go from hand to the free list. */
    method FreeRange(vstart: nat, vend: nat)
      requires Valid() && vstart <= vend <= PHYSTOP && forall f: nat :: vstart <= f < vend ==> f in hand
      modifies `mem, `free, `hand
      ensures Valid() && dirs == old(dirs) && Frame(old(mem), mem, dirs)
      ensures forall f: nat :: f in hand <==> f in old(hand) && !(vstart <= f < vend)
      ensures forall f: nat :: f in free <==> f in old(free) || vstart <= f < vend
    {
      ghost var m0 := mem;
      FrameSelf(mem, dirs, 0);
      var p := vstart;
      while p < vend
        invariant p <= vend && Valid() && Frame(m0, mem, dirs)
        invariant forall f: nat :: f in hand <==> f in old(hand) && !(vstart <= f < p)
        invariant forall f: nat :: f in free <==> f in old(free) || vstart <= f < p
      {
        ghost var m1 := mem;
        KfreeKeeps(lo, mem, dirs, free, hand, p);
        var panic := Kfree(p);
        hand := hand - {p};
        FrameTrans(m0, m1, mem, dirs);
        p := p + 1;
      }
    }

    lemma NotHeld(f: nat)
      requires Valid() && f in hand
      ensures f < |mem| && !Held(mem, dirs, f) && Idle(mem, dirs, f)
    {
    }

    /** memset or memmove into a page in hand. */
    method Fill(f: nat, p: Page)
      requires Valid() && f in hand
      modifies `mem
      ensures Valid() && mem == old(mem)[f := p] && Frame(old(mem), mem, dirs)
    {
      NotHeld(f);
      WriteData(lo, mem, dirs, free, hand, f, p);
      SameBooks(lo, mem, dirs, free, hand, mem[f := p]);
      mem := mem[f := p];
    }

    /** walkpgdir: the page table with the entry of page v. A new table maps nothing. */
    method WalkPgDir(d: nat, v: nat, alloc: bool) returns (r: Option<nat>)
      requires Valid() && d in dirs && v < PAGES
      modifies `mem, `free, `hand
      ensures Valid() && hand == old(hand)
      ensures Grew(old(mem), mem, dirs, d) && SameMap(old(mem), mem, dirs)
      ensures r.Some? ==> HasTable(mem, d, Pdx(v)) && r.value == TableOf(mem, d, Pdx(v)) < |mem|
      ensures d < |mem| == |old(mem)| && Pdx(v) < WORDS
      ensures r.Some? && !old(HasTable(mem, d, Pdx(v))) ==>
        mem[d] == old(mem)[d][Pdx(v) := r.value * PGSIZE + 7] && mem[r.value] == ZeroPage()
      ensures r.None? ==> mem == old(mem) && free == old(free) && !HasTable(mem, d, Pdx(v)) && (alloc ==> free == [])
      ensures old(HasTable(mem, d, Pdx(v))) ==> r.Some? && mem == old(mem) && free == old(free)
      ensures !alloc ==> mem == old(mem) && free == old(free)
      ensures forall f :: f in hand ==> f < |mem| == |old(mem)| && mem[f] == old(mem)[f]
      ensures |free| + |Have(mem, d)| == |old(free)| + |Have(old(mem), d)|
      ensures r.Some? ==> Have(mem, d) == Have(old(mem), d) + {Pdx(v)}
    {
      PageIndex(v, v);
      assert Holds(mem, dirs, d, Dir, d);
      assert HasTable(mem, d, Pdx(v)) ==> Holds(mem, dirs, d, Tab(Pdx(v)), TableOf(mem, d, Pdx(v)));
      FrameSelf(mem, dirs, d);
      if Present(mem[d][Pdx(v)]) { return Some(Addr(mem[d][Pdx(v)])); }
      if !alloc { return None; }
      hide Books;
      r := NewTable(d, v);
    }

    /** A zeroed page as page table, in a directory entry that allows everything. */
    method NewTable(d: nat, v: nat) returns (r: Option<nat>)
      requires Valid() && d in dirs && v < PAGES && d < |mem| && Pdx(v) < WORDS && !HasTable(mem, d, Pdx(v))
      modifies `mem, `free, `hand
      ensures Valid() && hand == old(hand) && |mem| == |old(mem)|
      ensures Grew(old(mem), mem, dirs, d) && SameMap(old(mem), mem, dirs)
      ensures r.None? ==> mem == old(mem) && free == old(free) == []
      ensures r.Some? ==> HasTable(mem, d, Pdx(v)) && r.value == TableOf(mem, d, Pdx(v)) < |mem|
      ensures r.Some? ==> mem[d] == old(mem)[d][Pdx(v) := r.value * PGSIZE + 7] && mem[r.value] == ZeroPage()
      ensures forall f :: f in hand ==> f < |mem| && mem[f] == old(mem)[f]
      ensures |free| + |Have(mem, d)| == |old(free)| + |Have(old(mem), d)|
      ensures r.Some? ==> Have(mem, d) == Have(old(mem), d) + {Pdx(v)}
    {
      FrameSelf(mem, dirs, d);
      ghost var m0 := mem;
      r := Kalloc();
      if r == None { return; }
      Fill(r.value, ZeroPage());
      ghost var m1 := mem;
      assert !HasTable(mem, d, Pdx(v)) by { UsesKeepTables(m0, m1, dirs, d, Pdx(v)); }
      FrameHave(m0, m1, dirs, d);
      NotInHand(d);
      var pde := Entry(r.value, PTE_P + PTE_W + PTE_U);
      GiveTab(lo, mem, dirs, free, hand, d, Pdx(v), r.value, pde);
      mem := mem[d := mem[d][Pdx(v) := pde]];
      hand := hand - {r.value};
      FrameThenGrew(m0, m1, mem, dirs, d);
    }

    /** deallocuvm: exactly the present pages from PGROUNDUP(newsz) up to oldsz are unmapped and
        freed; page tables that are missing are skipped whole. */
    method DeallocUvm(d: nat, oldsz: nat, newsz: nat) returns (r: nat)
      requires Valid() && d in dirs && oldsz <= USER * PGSIZE
      modifies `mem, `free, `hand
      ensures Valid() && hand == old(hand) && r == (if newsz >= oldsz then oldsz else newsz)
      ensures Shrank(old(mem), mem, dirs, d)
      ensures forall x: nat {:trigger Pte(mem, d, x)} :: x < PAGES ==>
        Pte(mem, d, x) == if Doomed(old(mem), d, oldsz, newsz, x) then 0 else Pte(old(mem), d, x)
      ensures forall x: nat {:trigger Pte(mem, d, x)} :: x < PAGES ==>
        Pte(mem, d, x) == if newsz <= x * PGSIZE < oldsz && Pte(old(mem), d, x) % 2 == 1 then 0 else Pte(old(mem), d, x)
    {
      ShrankSelf(mem, dirs, d);
      if newsz >= oldsz { return oldsz; }
      ghost var m0 := mem;
      var p := RoundUp(newsz);
      while p * PGSIZE < oldsz
        invariant Valid() && hand == old(hand) && Shrank(m0, mem, dirs, d)
        invariant forall x: nat {:trigger Pte(mem, d, x)} :: x < PAGES ==>
          Pte(mem, d, x) == if Doomed(m0, d, oldsz, newsz, x) && x < p then 0 else Pte(m0, d, x)
        decreases USER - p
      {
        var pgtab := WalkPgDir(d, p, false);
        if pgtab == None {
          Skipped(m0, mem, d, oldsz, newsz, p);
          p := (Pdx(p) + 1) * WORDS - 1;
        } else if Present(mem[pgtab.value][Ptx(p)]) {
          FreePage(lo, mem, dirs, free, hand, d, p);
          ghost var m1 := mem;
          var panic := Kfree(Addr(mem[pgtab.value][Ptx(p)]));
          mem := mem[pgtab.value := mem[pgtab.value][Ptx(p) := 0]];
          ShrankTrans(m0, m1, mem, dirs, d);
        }
        p := p + 1;
      }
      return newsz;
    }

    /** freevm: the directory, its tables and all its user pages are free again. */
    method FreeVm(d: nat)
      requires Valid() && d in dirs
      modifies `mem, `free, `hand, `dirs
      ensures Valid() && hand == old(hand) && dirs == old(dirs) - {d}
      ensures Frame(old(mem), mem, dirs)
    {
      ghost var m0, hand0 := mem, hand;
      var _ := DeallocUvm(d, USER * PGSIZE, 0);
      assert forall v: nat {:trigger Pte(mem, d, v)} :: v < USER ==> !Present(Pte(mem, d, v));
      ghost var m1, dirs1, free1 := mem, dirs, free;
      FrameSelf(m1, dirs - {d}, d);
      GiveUpDir(lo, mem, dirs, free, hand, d);
      NotInHand(d);
      dirs := dirs - {d};
      hand := hand + {d} + TablesFrom(m1, d, 0);
      var i := 0;
      while i < WORDS
        invariant i <= WORDS && Valid() && dirs == dirs1 - {d} && Frame(m1, mem, dirs) && d < |m1| == |mem|
        invariant mem[d] == m1[d] && hand == hand0 + {d} + TablesFrom(m1, d, i)
      {
        FreeTable(d, i, m1, dirs1, free1, hand0);
        i := i + 1;
      }
      ghost var m3 := mem;
      assert TablesFrom(m1, d, WORDS) == {};
      KfreeHeld(d);
      FrameTrans(m1, m3, mem, dirs);
      FrameTrans(m0, m1, mem, dirs);
      assert hand == hand0;
    }

    /** kfree of a page in hand: what others use is untouched. */
    method KfreeHeld(f: nat)
      requires Valid() && f in hand
      modifies `mem, `free, `hand
      ensures Valid() && hand == old(hand) - {f} && Frame(old(mem), mem, dirs)
      ensures |mem| == |old(mem)| && forall g :: 0 <= g < |mem| && g != f ==> mem[g] == old(mem)[g]
    {
      KfreeKeeps(lo, mem, dirs, free, hand, f);
      var panic := Kfree(f);
      hand := hand - {f};
    }

    /** One turn of freevm's loop: the i-th page table, if there is one. */
    method FreeTable(d: nat, i: nat, ghost m1: Image, ghost dirs1: set<nat>, ghost free1: seq<nat>,
        ghost hand0: set<nat>)
      requires Books(lo, m1, dirs1, free1, hand0) && d in dirs1 && i < WORDS
      requires Valid() && dirs == dirs1 - {d} && Frame(m1, mem, dirs) && d < |m1| == |mem| && mem[d] == m1[d]
      requires hand == hand0 + {d} + TablesFrom(m1, d, i)
      modifies `mem, `free, `hand
      ensures Valid() && Frame(m1, mem, dirs) && |mem| == |m1| && mem[d] == m1[d]
      ensures hand == hand0 + {d} + TablesFrom(m1, d, i + 1)
    {
      NextTable(lo, m1, dirs1, free1, hand0, d, i);
      if Present(mem[d][i]) {
        ghost var m2 := mem;
        TableNotInHand(m1, dirs1, free1, hand0, d, i);
        KfreeHeld(Addr(mem[d][i]));
        FrameTrans(m1, m2, mem, dirs);
      }
    }

    lemma NotInHand(d: nat)
      requires Valid() && d in dirs
      ensures d !in hand && d < |mem|
    {
      assert Holds(mem, dirs, d, Dir, d);
    }

    lemma TableNotInHand(m: Image, dirs: set<nat>, free: seq<nat>, hand: set<nat>, d: nat, i: nat)
      requires Books(lo, m, dirs, free, hand) && d in dirs && HasTable(m, d, i)
      ensures TableOf(m, d, i) !in hand
    {
      assert Holds(m, dirs, d, Tab(i), TableOf(m, d, i));
    }

    /** One turn of mappages, page v to page pa. */
    method MapOne(d: nat, v: nat, pa: nat, perm: nat) returns (r: MapResult)
      requires Valid() && d in dirs && v < PAGES && perm < PGSIZE && (v >= USER || pa in hand)
      modifies `mem, `free, `hand
      ensures Valid() && Grew(old(mem), mem, dirs, d)
      ensures hand == if r.Mapped? && v < USER then old(hand) - {pa} else old(hand)
      ensures MappedTo(old(mem), mem, d, v, if r.Mapped? then 1 else 0, pa, perm)
      ensures r.Remap? <==> Present(Pte(old(mem), d, v))
      ensures HandKept(old(mem), mem, old(hand)) && |free| + |Have(mem, d)| == |old(free)| + |Have(old(mem), d)|
      ensures !r.NoMemory? ==> Have(mem, d) == Have(old(mem), d) + {Pdx(v)}
      ensures r.NoMemory? ==> free == [] && mem == old(mem) && Pdx(v) !in Have(mem, d)
    {
      ghost var m1 := mem;
      assert forall f :: f in hand ==> f < |mem|;
      PageIndex(v, v);
      var pgtab := WalkPgDir(d, v, true);
      if pgtab == None { return NoMemory; }
      assert Pte(mem, d, v) == Pte(m1, d, v);
      if Present(mem[pgtab.value][Ptx(v)]) { return Remap; }
      ghost var m2 := mem;
      SetEntry(d, v, pa, perm, pgtab.value);
      GrewTrans(m1, m2, mem, dirs, d);
      return Mapped;
    }

    /** `*pte = pa | perm | PTE_P` */
    method SetEntry(d: nat, v: nat, pa: nat, perm: nat, t: nat)
      requires Valid() && d in dirs && v < PAGES && perm < PGSIZE && (v >= USER || pa in hand)
      requires HasTable(mem, d, Pdx(v)) && t == TableOf(mem, d, Pdx(v)) < |mem| && !Present(Pte(mem, d, v))
      modifies `mem, `hand
      ensures Valid() && Grew(old(mem), mem, dirs, d) && MappedTo(old(mem), mem, d, v, 1, pa, perm)
      ensures hand == if v < USER then old(hand) - {pa} else old(hand)
      ensures HandKept(old(mem), mem, old(hand)) && Have(mem, d) == Have(old(mem), d)
    {
      ghost var m2 := mem;
      PageIndex(v, v);
      assert forall f :: f in hand ==> f < |mem|;
      TableNotInHand(mem, dirs, free, hand, d, Pdx(v));
      var pte := Entry(pa, WithP(perm));
      SetPte(lo, mem, dirs, free, hand, d, v, pte);
      if v < USER {
        MapUser(lo, mem, dirs, free, hand, d, v, pte);
        hand := hand - {pa};
      } else {
        MapKernel(lo, mem, dirs, free, hand, d, v, pte);
      }
      mem := mem[t := mem[t][Ptx(v) := pte]];
      assert Have(mem, d) == Have(m2, d);
    }

    /** mappages: maps n pages from v on to the pages from pa on, with new page tables as needed.
        A single user page is mapped to a page in hand. It runs out of memory exactly if there are
        fewer free pages than page tables missing. */
    method MapPages(d: nat, v: nat, n: nat, pa: nat, perm: nat) returns (r: MapResult)
      requires Valid() && d in dirs && 0 < n && v + n <= PAGES && perm < PGSIZE
      requires v >= USER || (n == 1 && pa in hand)
      modifies `mem, `free, `hand
      ensures Valid() && Grew(old(mem), mem, dirs, d)
      ensures hand == if r.Mapped? && v < USER then old(hand) - {pa} else old(hand)
      ensures r.Mapped? ==> MappedTo(old(mem), mem, d, v, n, pa, perm)
      ensures r.Mapped? ==> forall x: nat {:trigger Pte(mem, d, x)} :: x < PAGES ==>
        Pte(mem, d, x) == if v <= x < v + n then (pa + (x - v)) * PGSIZE + (if perm % 2 == 1 then perm else perm + 1)
                          else Pte(old(mem), d, x)
      ensures !r.Mapped? ==> exists k: nat :: k < n && MappedTo(old(mem), mem, d, v, k, pa, perm)
      ensures r.Remap? ==> exists x: nat :: v <= x < v + n && Present(Pte(old(mem), d, x))
      ensures HandKept(old(mem), mem, old(hand)) && |free| + |Have(mem, d)| == |old(free)| + |Have(old(mem), d)|
      ensures r.Mapped? ==> Have(mem, d) == Have(old(mem), d) + Touched(v, n)
      ensures r.NoMemory? ==> free == [] && |Have(mem, d)| < |Have(old(mem), d) + Touched(v, n)|
    {
      ghost var m0, free0 := mem, |free|;
      FrameSelf(mem, dirs, d);
      MapStarts(m0, dirs, hand, d, v, pa, perm, |free|);
      var k;
      r, k := MapLoop(d, v, n, pa, perm, m0, free0);
    }

    /** The loop of mappages. */
    method MapLoop(d: nat, v: nat, n: nat, pa: nat, perm: nat, ghost m0: Image, ghost free0: nat)
        returns (r: MapResult, k: nat)
      requires Valid() && d in dirs && 0 < n && v + n <= PAGES && perm < PGSIZE
      requires v >= USER || (n == 1 && pa in hand)
      requires MapState(m0, mem, dirs, hand, d, v, 0, pa, perm, free0, |free|)
      modifies `mem, `free, `hand
      ensures Valid() && hand == if r.Mapped? && v < USER then old(hand) - {pa} else old(hand)
      ensures MapEnd(m0, mem, dirs, old(hand), d, v, k, n, pa, perm, free0, free, r)
    {
      hide MapState, MapEnd, MappedTo, Grew, HandKept, Have, Touched, Books, Holds, Pte;
      k := 0;
      while true
        invariant k < n && Valid() && hand == old(hand)
        invariant MapState(m0, mem, dirs, hand, d, v, k, pa, perm, free0, |free|)
        decreases n - k
      {
        ghost var m1, free1 := mem, |free|;
        r := MapOne(d, v + k, pa + k, perm);
        MapStep(m0, m1, mem, dirs, old(hand), d, v, k, n, pa, perm, free0, free1, free, r);
        if r == Mapped { k := k + 1; }
        if r != Mapped || k == n { return; }
      }
    }

    /** setupkvm: a new directory with the kernel's mappings, or nothing taken at all. */
    method SetupKvm() returns (r: Option<nat>)
      requires Valid()
      modifies `mem, `free, `hand, `dirs
      ensures Valid() && hand == old(hand) && Frame(old(mem), mem, old(dirs))
      ensures r.None? <==> |old(free)| < KVM_PAGES
      ensures r.None? ==> dirs == old(dirs) && forall f: nat :: f in free <==> f in old(free)
      ensures r.Some? ==> r.value !in old(dirs) && dirs == old(dirs) + {r.value} && KernelOnly(mem, r.value, data, 4)
      ensures r.Some? ==> forall v: nat {:trigger Pte(mem, r.value, v)} :: v < PAGES ==>
        Pte(mem, r.value, v) ==
          if USER <= v < USER + PHYSTOP then (v - USER) * PGSIZE + (if USER + EXTMEM <= v < USER + data then 1 else 3)
          else if DEVSPACE <= v then v * PGSIZE + 3
          else 0
      ensures r.Some? ==> |free| + KVM_PAGES == |old(free)| && Have(mem, r.value) == KernelTables(data, 4)
    {
      ghost var m0, dirs0, free0 := mem, dirs, free;
      r := NewDir();
      if r == None { return; }
      var d := r.value;
      assert Lines(m0, mem, dirs0, d, data, 0, |free0|, |free|);
      hide Books, Frame, Have, KernelTables, KernelOnly;
      var i := 0;
      while i < 4
        invariant i <= 4 && Valid() && hand == old(hand) && dirs == dirs0 + {d} && d !in dirs0
        invariant Lines(m0, mem, dirs0, d, data, i, |free0|, |free|)
      {
        var mapped := MapLine(d, i, m0, dirs0, |free0|);
        if mapped != Mapped {
          ghost var m2 := mem;
          FreeVm(d);
          assert dirs == dirs0;
          FrameTrans(m0, m2, mem, dirs0);
          SameFree(lo, m0, mem, dirs0, free0, free, hand);
          return None;
        }
        i := i + 1;
      }
      KvmPages(data, 4);
      KernelMap(mem, d, data);
    }

    /** kalloc and memset of a page directory. */
    method NewDir() returns (r: Option<nat>)
      requires Valid()
      modifies `mem, `free, `hand, `dirs
      ensures Valid() && hand == old(hand) && Frame(old(mem), mem, old(dirs)) && (r.None? <==> old(free) == [])
      ensures r.None? ==> dirs == old(dirs) && free == old(free)
      ensures r.Some? ==> r.value !in old(dirs) && dirs == old(dirs) + {r.value} && KernelOnly(mem, r.value, data, 0)
      ensures r.Some? ==> |free| + 1 == |old(free)| && Have(mem, r.value) == {}
    {
      FrameSelf(mem, dirs, 0);
      r := Kalloc();
      if r == None { return; }
      Fill(r.value, ZeroPage());
      GiveDir(lo, mem, dirs, free, hand, r.value);
      dirs := dirs + {r.value};
      hand := hand - {r.value};
    }

    /** mappages of line i of kmap; never "remap". */
    method MapLine(d: nat, i: nat, ghost m0: Image, ghost dirs0: set<nat>, ghost free0: nat) returns (r: MapResult)
      requires Valid() && dirs == dirs0 + {d} && d !in dirs0 && i < 4
      requires Lines(m0, mem, dirs0, d, data, i, free0, |free|)
      modifies `mem, `free, `hand
      ensures Valid() && hand == old(hand) && Frame(m0, mem, dirs0) && !r.Remap?
      ensures if r.Mapped? then Lines(m0, mem, dirs0, d, data, i + 1, free0, |free|) else free0 < KVM_PAGES
    {
      hide Books, Holds, SameData, Pte, Have, KernelTables, Touched, Frame, KMaps, KernelOnly, MappedTo;
      var k := KMaps(data)[i];
      ghost var m1 := mem;
      KMapFresh(data, i);
      NotMapped(m1, d, data, i);
      KvmPages(data, i + 1);
      assert dirs - {d} == dirs0;
      r := MapPages(d, k.virt, k.n, k.phys, k.perm);
      FrameTrans(m0, m1, mem, dirs0);
      NextTables(data, i);
      if r == Mapped { LineMapped(m1, mem, d, data, i); }
    }

    /** allocuvm: zeroed pages from PGROUNDUP(oldsz) up to newsz; or, out of memory, every user page
        it took is given back and nothing else is mapped. */
    method AllocUvm(d: nat, oldsz: nat, newsz: nat) returns (r: nat)
      requires Valid() && d in dirs
      requires forall x: nat {:trigger Pte(mem, d, x)} :: RoundUp(oldsz) <= x && x * PGSIZE < newsz && x < USER ==>
        Pte(mem, d, x) == 0
      modifies `mem, `free, `hand
      ensures Valid() && hand == old(hand) && Grew(old(mem), mem, dirs, d)
      ensures r == 0 || r == if newsz < oldsz then oldsz else newsz
      ensures newsz >= USER * PGSIZE ==> r == 0
      ensures newsz < oldsz && newsz < USER * PGSIZE ==> r == oldsz
      ensures newsz >= USER * PGSIZE || newsz < oldsz ==> mem == old(mem) && free == old(free)
      ensures r == 0 ==> SameMap(old(mem), mem, dirs)
      ensures oldsz <= newsz < USER * PGSIZE && newsz > 0 ==>
        (r == 0 <==> Shortage(|old(free)|, Have(old(mem), d), RoundUp(oldsz), RoundUp(newsz) - RoundUp(oldsz)))
      ensures r != 0 && r == newsz ==> forall x: nat {:trigger Pte(mem, d, x)} :: x < PAGES ==>
        if RoundUp(oldsz) <= x && x * PGSIZE < newsz then ZeroUser(mem, Pte(mem, d, x))
          else Pte(mem, d, x) == Pte(old(mem), d, x)
      ensures r != 0 && r == newsz ==> forall x: nat {:trigger Pte(mem, d, x)} :: x < PAGES ==>
        if oldsz <= x * PGSIZE < newsz
        then Pte(mem, d, x) % PGSIZE == 7 && Pte(mem, d, x) / PGSIZE < |mem| &&
             mem[Pte(mem, d, x) / PGSIZE] == seq(WORDS, _ => 0)
        else Pte(mem, d, x) == Pte(old(mem), d, x)
    {
      FrameSelf(mem, dirs, d);
      if newsz >= USER * PGSIZE { return 0; }
      if newsz < oldsz { return oldsz; }
      ghost var m0, free0, n := mem, |free|, RoundUp(newsz) - RoundUp(oldsz);
      var ok := AllocPages(d, oldsz, newsz);
      if !ok { return 0; }
      PaidAll(free0, Have(m0, d), |free|, Have(mem, d), RoundUp(oldsz), n);
      AllZero(m0, mem, dirs, d, RoundUp(oldsz), RoundUp(newsz));
      return newsz;
    }

    /** The loop of allocuvm. */
    method AllocPages(d: nat, oldsz: nat, newsz: nat) returns (ok: bool)
      requires Valid() && d in dirs && oldsz <= newsz < USER * PGSIZE
      requires forall x: nat {:trigger Pte(mem, d, x)} :: RoundUp(oldsz) <= x < RoundUp(newsz) ==> Pte(mem, d, x) == 0
      modifies `mem, `free, `hand
      ensures Valid() && hand == old(hand) && Grew(old(mem), mem, dirs, d)
      ensures ok ==> ZeroFrom(old(mem), mem, d, RoundUp(oldsz), RoundUp(newsz))
      ensures ok ==> Paid(|old(free)|, Have(old(mem), d), |free|, Have(mem, d), RoundUp(oldsz),
        RoundUp(newsz) - RoundUp(oldsz))
      ensures !ok ==> SameMap(old(mem), mem, dirs)
      ensures !ok ==> Shortage(|old(free)|, Have(old(mem), d), RoundUp(oldsz), RoundUp(newsz) - RoundUp(oldsz))
    {
      ghost var m0, free0, from, n := mem, |free|, RoundUp(oldsz), RoundUp(newsz) - RoundUp(oldsz);
      RoundUpOrder(oldsz, newsz);
      FrameSelf(mem, dirs, d);
      PaidNothing(free0, Have(m0, d), from);
      var p := RoundUp(oldsz);
      assert Growing(m0, mem, dirs, d, from, p, free0, |free|);
      hide Growing, Shortage, Paid, ZeroFrom, SameMap, Grew, Frame, Books, Holds, Pte, Have, RoundUp;
      while p * PGSIZE < newsz
        invariant from <= p <= from + n && Valid() && hand == old(hand)
        invariant Growing(m0, mem, dirs, d, from, p, free0, |free|)
        decreases newsz - p
      {
        BelowRoundUp(newsz, p);
        ok := AllocTurn(d, p, oldsz, newsz, m0, free0);
        if !ok { return; }
        p := p + 1;
      }
      BelowRoundUp(newsz, p);
      GrownUp(m0, mem, dirs, d, from, p, free0, |free|);
      return true;
    }

    /** kalloc, and memset or memmove of the page. */
    method NewPage(p: Page) returns (r: Option<nat>)
      requires Valid()
      modifies `mem, `free, `hand
      ensures Valid() && Frame(old(mem), mem, dirs) && (r.None? <==> old(free) == [])
      ensures forall d :: d in dirs ==> Have(mem, d) == Have(old(mem), d)
      ensures r.None? ==> mem == old(mem) && free == old(free) && hand == old(hand)
      ensures r.Some? ==> r.value !in old(hand) && hand == old(hand) + {r.value} && |free| + 1 == |old(free)|
      ensures r.Some? ==> r.value < |mem| && mem[r.value] == p
    {
      FrameSelf(mem, dirs, 0);
      r := Kalloc();
      if r == None { return; }
      ghost var m := mem;
      InHand(r.value);
      Fill(r.value, p);
      forall d | d in dirs ensures Have(mem, d) == Have(m, d) { FrameHave(m, mem, dirs, d); }
    }

    /** mappages of one user page that is not mapped yet. */
    method MapUserPage(d: nat, v: nat, f: nat, flags: nat) returns (ok: bool)
      requires Valid() && d in dirs && v < USER && f in hand && flags < PGSIZE && !Present(Pte(mem, d, v))
      modifies `mem, `free, `hand
      ensures Valid() && Grew(old(mem), mem, dirs, d) && MappedTo(old(mem), mem, d, v, if ok then 1 else 0, f, flags)
      ensures hand == (if ok then old(hand) - {f} else old(hand)) && f < |mem| == |old(mem)| && mem[f] == old(mem)[f]
      ensures ok ==> Have(mem, d) == Have(old(mem), d) + {Pdx(v)}
      ensures ok ==> |free| + |Have(mem, d)| == |old(free)| + |Have(old(mem), d)|
      ensures !ok ==> |old(free)| + |Have(old(mem), d)| < |Have(old(mem), d) + {Pdx(v)}|
    {
      OneTouched(v);
      hide Books, Holds, Have, Touched, Grew, Pte;
      var r := MapPages(d, v, 1, f, flags);
      ok := r == Mapped;
    }

    /** Both error exits of allocuvm: take back what it mapped, and the page it could not map. */
    method Unwind(d: nat, oldsz: nat, newsz: nat, page: Option<nat>, ghost m0: Image, ghost p: nat)
      requires Valid() && d in dirs && oldsz <= newsz <= USER * PGSIZE && RoundUp(oldsz) <= p <= RoundUp(newsz)
      requires page.Some? ==> page.value in hand
      requires Grew(m0, mem, dirs, d) && ZeroFrom(m0, mem, d, RoundUp(oldsz), p)
      requires forall x: nat {:trigger Pte(m0, d, x)} :: RoundUp(oldsz) <= x < RoundUp(newsz) ==> Pte(m0, d, x) == 0
      modifies `mem, `free, `hand
      ensures Valid() && Grew(m0, mem, dirs, d) && SameMap(m0, mem, dirs)
      ensures hand == old(hand) - if page.Some? then {page.value} else {}
    {
      ghost var m1 := mem;
      hide Books, Grew, ZeroFrom, Shrank, Holds, SameMap, Frame;
      var _ := DeallocUvm(d, newsz, oldsz);
      UnwoundIsSame(m0, m1, mem, dirs, d, oldsz, newsz, p);
      if page.Some? {
        ghost var m2 := mem;
        DropPage(page.value);
        GrewThenFrame(m0, m2, mem, dirs, d);
      }
    }

    /** kfree of the page that could not be mapped. */
    method DropPage(f: nat)
      requires Valid() && f in hand
      modifies `mem, `free, `hand
      ensures Valid() && hand == old(hand) - {f} && Frame(old(mem), mem, dirs)
    {
      KfreeKeeps(lo, mem, dirs, free, hand, f);
      var panic := Kfree(f);
      hand := hand - {f};
    }

    /** One turn of allocuvm's loop, with the return to the old size if memory runs out. */
    method AllocTurn(d: nat, p: nat, oldsz: nat, newsz: nat, ghost m0: Image, ghost free0: nat) returns (ok: bool)
      requires Valid() && d in dirs && oldsz <= newsz < USER * PGSIZE && RoundUp(oldsz) <= p < RoundUp(newsz) <= USER
      requires Growing(m0, mem, dirs, d, RoundUp(oldsz), p, free0, |free|)
      requires forall x: nat {:trigger Pte(m0, d, x)} :: RoundUp(oldsz) <= x < RoundUp(newsz) ==> Pte(m0, d, x) == 0
      modifies `mem, `free, `hand
      ensures Valid() && hand == old(hand)
      ensures ok ==> Growing(m0, mem, dirs, d, RoundUp(oldsz), p + 1, free0, |free|)
      ensures !ok ==> Grew(m0, mem, dirs, d) && SameMap(m0, mem, dirs)
      ensures !ok ==> Shortage(free0, Have(m0, d), RoundUp(oldsz), RoundUp(newsz) - RoundUp(oldsz))
    {
      hide Growing, Shortage, Paid, ZeroFrom, SameMap, Grew, Frame, Books, Holds, Have, RoundUp;
      var page;
      page, ok := AllocOne(d, p, m0, free0, RoundUp(oldsz), RoundUp(newsz) - RoundUp(oldsz));
      if !ok {
        Unwind(d, oldsz, newsz, page, m0, p);
        assert hand == old(hand);
      }
    }

    /** A turn of allocuvm up to its two tests for lack of memory. */
    method AllocOne(d: nat, p: nat, ghost m0: Image, ghost free0: nat, ghost from: nat, ghost n: nat)
        returns (page: Option<nat>, ok: bool)
      requires Valid() && d in dirs && from <= p < from + n <= USER
      requires Growing(m0, mem, dirs, d, from, p, free0, |free|)
      requires forall x: nat {:trigger Pte(m0, d, x)} :: from <= x < from + n ==> Pte(m0, d, x) == 0
      modifies `mem, `free, `hand
      ensures Valid()
      ensures if ok then page.Some? && hand == old(hand)
        else hand == old(hand) + (if page.Some? then {page.value} else {})
      ensures page.Some? ==> page.value !in old(hand)
      ensures ok ==> Growing(m0, mem, dirs, d, from, p + 1, free0, |free|)
      ensures !ok ==> Grew(m0, mem, dirs, d) && ZeroFrom(m0, mem, d, from, p) && Shortage(free0, Have(m0, d), from, n)
    {
      ghost var m1, free1 := mem, |free|;
      hide Books, Holds, Paid, Shortage, Have, ZeroUser, Frame, Grew, Touched, ZeroFrom, SameMap, MappedTo, Pte;
      NotYet(m0, m1, d, from, p);
      ok := false;
      page := NewPage(ZeroPage());
      if page == None {
        CannotPay(free0, Have(m0, d), free1, Have(m1, d), from, p - from, n);
        return;
      }
      ghost var m2 := mem;
      SamePte(m1, m2, dirs, d, p);
      ok := MapUserPage(d, p, page.value, PTE_W + PTE_U);
      OneMore(m0, m1, m2, mem, dirs, d, from, p, if ok then 1 else 0, page.value);
      if !ok {
        CannotPay(free0, Have(m0, d), free1, Have(m1, d), from, p - from, n);
        return;
      }
      PaidMore(free0, Have(m0, d), free1, Have(m1, d), |free|, Have(mem, d), from, p - from);
    }

    lemma InHand(f: nat)
      requires Valid() && f in hand
      ensures f < |mem|
    {
    }

    /** copyuvm: the child gets its own copies of the parent's pages below sz, with the same flags,
        or nothing at all; `Panic` if the parent lacks one. */
    method CopyUvm(d: nat, sz: nat) returns (r: CopyResult)
      requires Valid() && d in dirs && sz <= USER * PGSIZE
      modifies `mem, `free, `hand, `dirs
      ensures r.Panic? ==> exists x: nat :: x * PGSIZE < sz && !Present(Pte(old(mem), d, x))
      ensures !r.Panic? ==> Valid() && hand == old(hand) && Frame(old(mem), mem, old(dirs))
      ensures r.OutOfMemory? ==> dirs == old(dirs) && forall f: nat :: f in free <==> f in old(free)
      ensures r.Copied? ==> r.dir !in old(dirs) && dirs == old(dirs) + {r.dir}
      ensures r.Copied? ==> CopiedUpTo(mem, d, r.dir, data, RoundUp(sz))
      ensures r.Copied? ==> forall x: nat {:trigger Pte(mem, r.dir, x)} :: x * PGSIZE < sz ==>
        OwnCopy(old(mem), Pte(old(mem), d, x), mem, Pte(mem, r.dir, x))
      ensures r.Copied? ==> forall v: nat {:trigger Pte(mem, r.dir, v)} :: sz <= v * PGSIZE && v < PAGES ==>
        Pte(mem, r.dir, v) ==
          if USER <= v < USER + PHYSTOP then (v - USER) * PGSIZE + (if USER + EXTMEM <= v < USER + data then 1 else 3)
          else if DEVSPACE <= v then v * PGSIZE + 3
          else 0
      ensures r.OutOfMemory? ==> |old(free)| < CopyPages(sz)
      ensures r.Copied? ==> |free| + CopyPages(sz) == |old(free)|
    {
      ghost var m0, dirs0 := mem, dirs;
      r := CopyAll(d, sz);
      hide Books, Frame, CopiedUpTo, OwnCopy;
      if r.Copied? { CopyMeans(m0, dirs0, d, r.dir, sz); }
    }

    /** The body of copyuvm. */
    method CopyAll(d: nat, sz: nat) returns (r: CopyResult)
      requires Valid() && d in dirs && sz <= USER * PGSIZE
      modifies `mem, `free, `hand, `dirs
      ensures r.Panic? ==> exists x: nat :: x * PGSIZE < sz && !Present(Pte(old(mem), d, x))
      ensures !r.Panic? ==> Valid() && hand == old(hand) && Frame(old(mem), mem, old(dirs))
      ensures r.OutOfMemory? ==> dirs == old(dirs) && forall f: nat :: f in free <==> f in old(free)
      ensures r.Copied? ==> r.dir !in old(dirs) && dirs == old(dirs) + {r.dir}
      ensures r.Copied? ==> CopiedUpTo(mem, d, r.dir, data, RoundUp(sz))
      ensures r.OutOfMemory? ==> |old(free)| < CopyPages(sz)
      ensures r.Copied? ==> |free| + CopyPages(sz) == |old(free)|
    {
      ghost var m0, dirs0, free0 := mem, dirs, free;
      hide Books, Have, Touched, KernelTables, Paid, Shortage, CopiedUpTo, Frame;
      var child := SetupKvm();
      if child == None { return OutOfMemory; }
      var c := child.value;
      assert dirs - {c} == dirs0;
      KernelIsNoUser(mem, d, c, data);
      ghost var n, free2, have2 := RoundUp(sz), |free|, Have(mem, c);
      PaidNothing(free2, have2, 0);
      var p := 0;
      while p * PGSIZE < sz
        invariant p <= RoundUp(sz) && Valid() && hand == old(hand) && dirs == dirs0 + {c} && c !in dirs0
        invariant Frame(m0, mem, dirs0) && CopiedUpTo(mem, d, c, data, p)
        invariant Paid(free2, have2, |free|, Have(mem, c), 0, p)
      {
        var end := CopyTurn(d, c, p, sz, m0, dirs0, free0, free2, have2);
        if end.Some? { return end.value; }
        p := p + 1;
      }
      CopyPaidFor(data, sz, free2, |free|, Have(mem, c));
      return Copied(c);
    }

    /** A turn of copyuvm's loop; Some if it is the last. */
    method CopyTurn(d: nat, c: nat, p: nat, sz: nat, ghost m0: Image, ghost dirs0: set<nat>, ghost free0: seq<nat>,
        ghost free2: nat, ghost have2: set<nat>)
        returns (end: Option<CopyResult>)
      requires Valid() && dirs == dirs0 + {c} && c !in dirs0 && d in dirs0 && p * PGSIZE < sz <= USER * PGSIZE
      requires Frame(m0, mem, dirs0) && CopiedUpTo(mem, d, c, data, p) && Books(lo, m0, dirs0, free0, hand)
      requires free2 + KVM_PAGES == |free0| && have2 == KernelTables(data, 4)
      requires Paid(free2, have2, |free|, Have(mem, c), 0, p) && p < RoundUp(sz)
      modifies `mem, `free, `hand, `dirs
      ensures end.None? ==> Valid() && hand == old(hand) && dirs == dirs0 + {c}
      ensures end.None? ==> Frame(m0, mem, dirs0) && CopiedUpTo(mem, d, c, data, p + 1)
      ensures end.None? ==> Paid(free2, have2, |free|, Have(mem, c), 0, p + 1)
      ensures end.Some? ==> !end.value.Copied?
      ensures end == Some(Panic) ==> !Present(Pte(m0, d, p))
      ensures end == Some(OutOfMemory) ==> Valid() && hand == old(hand) && dirs == dirs0 && Frame(m0, mem, dirs0)
      ensures end == Some(OutOfMemory) ==> |free0| < CopyPages(sz) && forall f: nat :: f in free <==> f in free0
    {
      hide Books, Have, Touched, KernelTables, Paid, Shortage, CopiedUpTo, Frame;
      ghost var m1, free1 := mem, |free|;
      SamePte(m0, m1, dirs0, d, p);
      var pgtab := WalkPgDir(d, p, false);
      if pgtab == None { return Some(Panic); }
      var pte := mem[pgtab.value][Ptx(p)];
      if !Present(pte) { return Some(Panic); }
      var ok := CopyPage(c, d, p, pte);
      FrameTrans(m0, m1, mem, dirs0);
      if !ok {
        CannotPay(free2, have2, free1, Have(m1, c), 0, p, RoundUp(sz));
        CopyShort(data, sz, free2);
        ghost var m2 := mem;
        FreeVm(c);
        assert dirs == dirs0;
        FrameTrans(m0, m2, mem, dirs0);
        SameFree(lo, m0, mem, dirs0, free0, free, hand);
        return Some(OutOfMemory);
      }
      PaidMore(free2, have2, free1, Have(m1, c), |free|, Have(mem, c), 0, p);
      return None;
    }

    /** The copy page by page: other pages with equal contents and flags, and the kernel's entries. */
    lemma CopyMeans(m0: Image, dirs0: set<nat>, d: nat, c: nat, sz: nat)
      requires Valid() && dirs == dirs0 + {c} && c !in dirs0 && d in dirs0 && sz <= USER * PGSIZE
      requires Frame(m0, mem, dirs0) && CopiedUpTo(mem, d, c, data, RoundUp(sz))
      ensures forall x: nat {:trigger Pte(mem, c, x)} :: x * PGSIZE < sz ==>
        OwnCopy(m0, Pte(m0, d, x), mem, Pte(mem, c, x))
      ensures forall v: nat {:trigger Pte(mem, c, v)} :: sz <= v * PGSIZE && v < PAGES ==>
        Pte(mem, c, v) ==
          if USER <= v < USER + PHYSTOP then (v - USER) * PGSIZE + (if USER + EXTMEM <= v < USER + data then 1 else 3)
          else if DEVSPACE <= v then v * PGSIZE + 3
          else 0
    {
      forall x: nat | x * PGSIZE < sz
        ensures OwnCopy(m0, Pte(m0, d, x), mem, Pte(mem, c, x))
      {
        SamePte(m0, mem, dirs0, d, x);
        assert SamePage(mem, Pte(mem, d, x), Pte(mem, c, x));
        assert Holds(mem, dirs0, d, User(x), Addr(Pte(mem, d, x)));
        assert Holds(mem, dirs, d, User(x), Addr(Pte(mem, d, x)));
        assert Holds(mem, dirs, c, User(x), Addr(Pte(mem, c, x)));
      }
      forall v: nat | sz <= v * PGSIZE && v < PAGES ensures Pte(mem, c, v) == KernelPte(data, 4, v) {
        BelowRoundUp(sz, v);
      }
      hide KernelPte;
      forall v: nat | v < PAGES { KernelEntry(data, v); }
    }


    /** One turn of copyuvm's loop. */
    method CopyPage(c: nat, d: nat, p: nat, pte: nat) returns (ok: bool)
      requires Valid() && c in dirs && d in dirs && c != d && p < USER && Present(pte) && pte == Pte(mem, d, p)
      requires CopiedUpTo(mem, d, c, data, p)
      modifies `mem, `free, `hand
      ensures Valid() && hand == old(hand) && Frame(old(mem), mem, dirs - {c})
      ensures ok ==> CopiedUpTo(mem, d, c, data, p + 1)
      ensures ok ==> Have(mem, c) == Have(old(mem), c) + {Pdx(p)}
      ensures ok ==> |free| + 1 + |Have(mem, c)| == |old(free)| + |Have(old(mem), c)|
      ensures !ok ==> old(free) == [] || |old(free)| + |Have(old(mem), c)| < 1 + |Have(old(mem), c) + {Pdx(p)}|
    {
      var pa, flags := Addr(pte), Flags(pte);
      ghost var m0 := mem;
      assert Holds(mem, dirs, d, User(p), pa) && pa < |mem| && Pte(mem, c, p) == KernelPte(data, 4, p);
      FrameSelf(mem, dirs - {c}, c);
      hide Books, Holds, Have, Frame, Grew, Touched, CopiedUpTo, SamePage;
      var page := NewPage(mem[pa]);
      if page == None { return false; }
      ghost var m1 := mem;
      NoUserInKernel(data, p);
      SamePte(m0, m1, dirs, c, p);
      ok := MapUserPage(c, p, page.value, flags);
      ghost var m2 := mem;
      FramePart(m0, m1, dirs, dirs - {c});
      GrewFrame(m1, m2, dirs, c);
      FrameTrans(m0, m1, m2, dirs - {c});
      if !ok {
        DropPage(page.value);
        assert hand == old(hand);
        FramePart(m2, mem, dirs, dirs - {c});
        FrameTrans(m0, m2, mem, dirs - {c});
        return false;
      }
      OneMoreCopied(lo, m0, m1, m2, dirs, d, c, data, p, page.value);
      return true;
    }
  }

  /** setupkvm has mapped the first i lines of kmap in d. */
  ghost predicate Lines(m0: Image, m: Image, dirs0: set<nat>, d: nat, data: nat, i: nat, free0: nat, free: nat)
    requires i <= 4
  {
    && Frame(m0, m, dirs0) && KernelOnly(m, d, data, i)
    && Have(m, d) == KernelTables(data, i) && free + 1 + |Have(m, d)| == free0
  }

  lemma NextTables(data: nat, i: nat)
    requires i < 4
    ensures KernelTables(data, i + 1) == KernelTables(data, i) + Touched(KMaps(data)[i].virt, KMaps(data)[i].n)
  {
  }

  /** What setupkvm takes: the directory and 64 page tables. */
  const KVM_PAGES: nat := 65

  /** What copyuvm takes for sz bytes: the kernel's share, the pages, and their page tables. */
  function CopyPages(sz: nat): nat {
    KVM_PAGES + RoundUp(sz) + (RoundUp(sz) + WORDS - 1) / WORDS
  }

  /** The directory entries of the first i lines of kmap. */
  function KernelTables(data: nat, i: nat): set<nat>
    requires i <= 4
  {
    if i == 0 then {} else KernelTables(data, i - 1) + Touched(KMaps(data)[i - 1].virt, KMaps(data)[i - 1].n)
  }

  lemma KernelTablesSize(data: nat)
    requires EXTMEM < data < PHYSTOP
    ensures KernelTables(data, 4) == Span(512, 568) + Span(1016, 1024) && |KernelTables(data, 4)| + 1 == KVM_PAGES
  {
    hide Touched, KernelTables, Span;
    FourTables(data);
    LowTables(data);
    HighTables(data);
    FourSpans((USER + data + WORDS - 1) / WORDS, (USER + data) / WORDS);
  }

  lemma KvmPages(data: nat, i: nat)
    requires EXTMEM < data < PHYSTOP && i <= 4
    ensures |KernelTables(data, i)| < KVM_PAGES && |KernelTables(data, 4)| + 1 == KVM_PAGES
  {
    KernelTablesSize(data);
    KernelTablesPart(data, i);
  }

  lemma LowTables(data: nat)
    requires EXTMEM < data < PHYSTOP
    ensures Touched(USER, EXTMEM) == Span(512, 513)
    ensures Touched(USER + EXTMEM, data - EXTMEM) == Span(512, (USER + data + WORDS - 1) / WORDS)
  {
    hide Touched, Span;
    TouchedSpan(USER, EXTMEM);
    TouchedSpan(USER + EXTMEM, data - EXTMEM);
  }

  lemma HighTables(data: nat)
    requires EXTMEM < data < PHYSTOP
    ensures Touched(USER + data, PHYSTOP - data) == Span((USER + data) / WORDS, 568)
    ensures Touched(DEVSPACE, PAGES - DEVSPACE) == Span(1016, 1024)
  {
    hide Touched, Span;
    TouchedSpan(USER + data, PHYSTOP - data);
    TouchedSpan(DEVSPACE, PAGES - DEVSPACE);
  }

  lemma FourSpans(a: nat, b: nat)
    requires 512 <= b <= a <= b + 1 <= 568
    ensures Span(512, 513) + Span(512, a) + Span(b, 568) + Span(1016, 1024) == Span(512, 568) + Span(1016, 1024)
    ensures |Span(512, 568) + Span(1016, 1024)| == 64
  {
    TwoSpans();
  }

  lemma TwoSpans()
    ensures |Span(512, 568) + Span(1016, 1024)| == 64
  {
    SpanSize(512, 568);
    SpanSize(1016, 1024);
    assert Span(512, 568) !! Span(1016, 1024);
  }

  lemma FourTables(data: nat)
    requires EXTMEM < data < PHYSTOP
    ensures KernelTables(data, 4) == Touched(USER, EXTMEM) + Touched(USER + EXTMEM, data - EXTMEM) +
                                     Touched(USER + data, PHYSTOP - data) + Touched(DEVSPACE, PAGES - DEVSPACE)
  {
    hide Touched;
    assert KernelTables(data, 0) == {};
    assert KernelTables(data, 1) == {} + Touched(USER, EXTMEM) == Touched(USER, EXTMEM);
    assert KernelTables(data, 2) == KernelTables(data, 1) + Touched(USER + EXTMEM, data - EXTMEM);
    assert KernelTables(data, 3) == KernelTables(data, 2) + Touched(USER + data, PHYSTOP - data);
    assert KernelTables(data, 4) == KernelTables(data, 3) + Touched(DEVSPACE, PAGES - DEVSPACE);
  }

  lemma {:induction false} KernelTablesPart(data: nat, i: nat)
    requires i <= 4
    ensures |KernelTables(data, i)| <= |KernelTables(data, 4)| && KernelTables(data, i) <= KernelTables(data, 4)
    decreases 4 - i
  {
    if i < 4 {
      KernelTablesPart(data, i + 1);
      Fewer(KernelTables(data, i), KernelTables(data, i + 1));
    }
  }

  lemma OneTouched(v: nat)
    requires v < PAGES
    ensures Touched(v, 1) == {Pdx(v)}
  {
    TouchedMore(v, 0);
  }

  /** No user page is in the directory entries of the kernel, so their tables add up. */
  lemma CopyNeeds(data: nat, n: nat)
    requires EXTMEM < data < PHYSTOP && n <= USER
    ensures |KernelTables(data, 4) + Touched(0, n)| == KVM_PAGES - 1 + (n + WORDS - 1) / WORDS
  {
    KernelTablesSize(data);
    var k := (n + WORDS - 1) / WORDS;
    TouchedSpan(0, n);
    hide KernelTables, Touched;
    SpanSize(0, k);
    Apart(k);
  }

  lemma CopyPaidFor(data: nat, sz: nat, free2: nat, free: nat, have: set<nat>)
    requires EXTMEM < data < PHYSTOP && sz <= USER * PGSIZE
    requires Paid(free2, KernelTables(data, 4), free, have, 0, RoundUp(sz))
    ensures free + CopyPages(sz) == free2 + KVM_PAGES
  {
    KvmPages(data, 4);
    CopyNeeds(data, RoundUp(sz));
  }

  lemma CopyShort(data: nat, sz: nat, free2: nat)
    requires EXTMEM < data < PHYSTOP && sz <= USER * PGSIZE && Shortage(free2, KernelTables(data, 4), 0, RoundUp(sz))
    ensures free2 + KVM_PAGES < CopyPages(sz)
  {
    KvmPages(data, 4);
    CopyNeeds(data, RoundUp(sz));
  }

  lemma Apart(k: nat)
    requires k <= 512
    ensures Span(512, 568) + Span(1016, 1024) !! Span(0, k)
  {
  }

  lemma NoUserInKernel(data: nat, x: nat)
    requires x < USER
    ensures KernelPte(data, 4, x) == 0
  {
    NotCovered(data, 4, x);
  }

  datatype CopyResult = Copied(dir: nat) | OutOfMemory | Panic

  /** Directory c maps the kernel, and copies of the first p pages of d. */
  ghost predicate CopiedUpTo(m: Image, d: nat, c: nat, data: nat, p: nat) {
    forall x: nat {:trigger Pte(m, c, x)} :: x < PAGES ==>
      if x < p then SamePage(m, Pte(m, d, x), Pte(m, c, x)) else Pte(m, c, x) == KernelPte(data, 4, x)
  }

  /** Entry v of image m is present; entry w of image m' maps another page, with the same flags and the
      same contents. */
  predicate OwnCopy(m: Image, v: nat, m': Image, w: nat) {
    && v % 2 == 1 && w % PGSIZE == v % PGSIZE && w / PGSIZE != v / PGSIZE
    && v / PGSIZE < |m| && w / PGSIZE < |m'| && m'[w / PGSIZE] == m[v / PGSIZE]
  }

  /** Entry w maps a page with the flags and contents of entry v's. */
  predicate SamePage(m: Image, v: nat, w: nat) {
    Present(v) && Present(w) && Flags(w) == Flags(v) && Addr(v) < |m| && Addr(w) < |m| && m[Addr(w)] == m[Addr(v)]
  }

  lemma SamePte(m: Image, m': Image, dirs: set<nat>, d: nat, v: nat)
    requires Frame(m, m', dirs) && d in dirs && v < PAGES
    ensures Pte(m', d, v) == Pte(m, d, v)
  {
  }

  /** allocuvm has mapped zeroed pages from `from` up to p, and paid for them. */
  ghost predicate Growing(m0: Image, m: Image, dirs: set<nat>, d: nat, from: nat, p: nat, free0: nat, free: nat)
    requires from <= p
  {
    Grew(m0, m, dirs, d) && ZeroFrom(m0, m, d, from, p) && Paid(free0, Have(m0, d), free, Have(m, d), from, p - from)
  }

  lemma GrownUp(m0: Image, m: Image, dirs: set<nat>, d: nat, from: nat, p: nat, free0: nat, free: nat)
    requires from <= p && Growing(m0, m, dirs, d, from, p, free0, free)
    ensures Grew(m0, m, dirs, d) && ZeroFrom(m0, m, d, from, p)
    ensures Paid(free0, Have(m0, d), free, Have(m, d), from, p - from)
  {
  }

  lemma NotYet(m0: Image, m: Image, d: nat, from: nat, p: nat)
    requires ZeroFrom(m0, m, d, from, p) && p < PAGES && Pte(m0, d, p) == 0
    ensures !Present(Pte(m, d, p))
  {
  }

  lemma GrewFrame(m: Image, m': Image, dirs: set<nat>, d: nat)
    requires Grew(m, m', dirs, d)
    ensures Frame(m, m', dirs - {d})
  {
  }

  lemma KernelIsNoUser(m: Image, d: nat, c: nat, data: nat)
    requires KernelOnly(m, c, data, 4)
    ensures CopiedUpTo(m, d, c, data, 0)
  {
  }

  lemma OneMoreCopied(lo: nat, m0: Image, m1: Image, m2: Image, dirs: set<nat>, d: nat, c: nat, data: nat, p: nat,
      page: nat)
    requires c in dirs && d in dirs && c != d && p < USER && page < |m2| && Frame(m0, m1, dirs) && Grew(m1, m2, dirs, c)
    requires Present(Pte(m0, d, p)) && Addr(Pte(m0, d, p)) < |m0| && m2[page] == m0[Addr(Pte(m0, d, p))]
    requires CopiedUpTo(m0, d, c, data, p) && MappedTo(m1, m2, c, p, 1, page, Flags(Pte(m0, d, p)))
    ensures CopiedUpTo(m2, d, c, data, p + 1)
  {
    forall x: nat | x < PAGES
      ensures if x < p + 1 then SamePage(m2, Pte(m2, d, x), Pte(m2, c, x)) else Pte(m2, c, x) == KernelPte(data, 4, x)
    {
      assert Pte(m1, c, x) == Pte(m0, c, x) && Pte(m1, d, x) == Pte(m0, d, x);
      assert d in dirs - {c} && Pte(m2, d, x) == Pte(m1, d, x);
      if x <= p {
        assert Holds(m0, dirs, d, User(x), Addr(Pte(m0, d, x)));
        assert Holds(m1, dirs, d, User(x), Addr(Pte(m1, d, x)));
      }
      if x < p {
        assert Holds(m0, dirs, c, User(x), Addr(Pte(m0, c, x)));
        assert Holds(m1, dirs, c, User(x), Addr(Pte(m1, c, x)));
      }
    }
  }

  /** d maps the first i lines of kmap and nothing else. */
  ghost predicate KernelOnly(m: Image, d: nat, data: nat, i: nat)
    requires i <= 4
  {
    forall x: nat {:trigger Pte(m, d, x)} :: x < PAGES ==> Pte(m, d, x) == KernelPte(data, i, x)
  }

  /** What the four lines of kmap come to: physical memory from USER on, the kernel's text read-only,
      the devices at their own addresses, nothing for user code. */
  lemma KernelEntry(data: nat, v: nat)
    requires EXTMEM < data < PHYSTOP && v < PAGES
    ensures KernelPte(data, 4, v) ==
      if USER <= v < USER + PHYSTOP then (v - USER) * PGSIZE + (if USER + EXTMEM <= v < USER + data then 1 else 3)
      else if DEVSPACE <= v then v * PGSIZE + 3
      else 0
  {
    var ks := KMaps(data);
    assert KernelPte(data, 1, v) == if Covers(ks[0], v) then Entry(v - USER, 3) else 0;
    assert KernelPte(data, 2, v) == if Covers(ks[1], v) then Entry(v - USER, 1) else KernelPte(data, 1, v);
    assert KernelPte(data, 3, v) == if Covers(ks[2], v) then Entry(v - USER, 3) else KernelPte(data, 2, v);
    assert KernelPte(data, 4, v) == if Covers(ks[3], v) then Entry(v, 3) else KernelPte(data, 3, v);
    hide KernelPte;
  }

  lemma KernelMap(m: Image, d: nat, data: nat)
    requires EXTMEM < data < PHYSTOP && KernelOnly(m, d, data, 4)
    ensures forall v: nat {:trigger Pte(m, d, v)} :: v < PAGES ==>
      Pte(m, d, v) ==
        if USER <= v < USER + PHYSTOP then (v - USER) * PGSIZE + (if USER + EXTMEM <= v < USER + data then 1 else 3)
        else if DEVSPACE <= v then v * PGSIZE + 3
        else 0
  {
    forall v: nat | v < PAGES ensures Pte(m, d, v) == KernelPte(data, 4, v) {}
    forall v: nat | v < PAGES { KernelEntry(data, v); }
    hide KernelPte;
  }

  /** The lines of kmap do not overlap and lie above KERNBASE. */
  lemma KMapFresh(data: nat, i: nat)
    requires EXTMEM < data < PHYSTOP && i < 4
    ensures var k := KMaps(data)[i]; USER <= k.virt && 0 < k.n && k.virt + k.n <= PAGES && k.perm < PGSIZE
    ensures forall x: nat :: Covers(KMaps(data)[i], x) ==> KernelPte(data, i, x) == 0
    ensures forall x: nat :: x < USER ==> KernelPte(data, i, x) == 0
  {
    var ks := KMaps(data);
    forall x: nat | Covers(ks[i], x) || x < USER ensures KernelPte(data, i, x) == 0 {
      assert forall j :: 0 <= j < i ==> !Covers(ks[j], x);
      NotCovered(data, i, x);
    }
  }

  lemma NotMapped(m: Image, d: nat, data: nat, i: nat)
    requires EXTMEM < data < PHYSTOP && i < 4 && KernelOnly(m, d, data, i)
    ensures var k := KMaps(data)[i]; forall x: nat :: k.virt <= x < k.virt + k.n ==> !Present(Pte(m, d, x))
  {
    KMapFresh(data, i);
    hide KMaps, KernelPte, Pte;
    var k := KMaps(data)[i];
    assert forall x: nat :: k.virt <= x < k.virt + k.n ==> Covers(k, x);
  }

  lemma LineMapped(m0: Image, m: Image, d: nat, data: nat, i: nat)
    requires i < 4 && KernelOnly(m0, d, data, i) && KMaps(data)[i].perm < PGSIZE
    requires var k := KMaps(data)[i]; MappedTo(m0, m, d, k.virt, k.n, k.phys, k.perm)
    ensures KernelOnly(m, d, data, i + 1)
  {
    hide KMaps;
  }

  lemma {:induction false} NotCovered(data: nat, i: nat, x: nat)
    requires i <= 4 && forall j :: 0 <= j < i ==> !Covers(KMaps(data)[j], x)
    ensures KernelPte(data, i, x) == 0
  {
    if i > 0 { NotCovered(data, i - 1, x); }
  }

  /** An entry for a zeroed page that user code may write. */
  predicate ZeroUser(m: Image, w: nat) {
    Present(w) && Flags(w) == PTE_P + PTE_W + PTE_U && Addr(w) < |m| && m[Addr(w)] == ZeroPage()
  }

  ghost predicate ZeroFrom(m0: Image, m: Image, d: nat, from: nat, p: nat) {
    forall x: nat {:trigger Pte(m, d, x)} :: x < PAGES ==>
      if from <= x < p then ZeroUser(m, Pte(m, d, x)) else Pte(m, d, x) == Pte(m0, d, x)
  }

  /** Pages in hand have kept their contents. */
  ghost predicate HandKept(m0: Image, m: Image, hand: set<nat>) {
    |m| == |m0| && forall f :: f in hand ==> f < |m| && m[f] == m0[f]
  }

  /** How far mappages has come: k pages mapped, f0 free pages at first, f now. */
  ghost predicate MapState(m0: Image, m: Image, dirs: set<nat>, hand: set<nat>, d: nat, v: nat, k: nat, pa: nat,
      perm: nat, f0: nat, f: nat)
    requires perm < PGSIZE
  {
    && Grew(m0, m, dirs, d) && MappedTo(m0, m, d, v, k, pa, perm) && HandKept(m0, m, hand)
    && f + |Have(m, d)| == f0 + |Have(m0, d)| && Have(m, d) == Have(m0, d) + Touched(v, k)
  }

  lemma MapStarts(m: Image, dirs: set<nat>, hand: set<nat>, d: nat, v: nat, pa: nat, perm: nat, f: nat)
    requires perm < PGSIZE && v < PAGES && Grew(m, m, dirs, d) && forall g :: g in hand ==> g < |m|
    ensures MapState(m, m, dirs, hand, d, v, 0, pa, perm, f, f)
  {
    TouchedMore(v, 0);
  }

  /** How mappages ends, having mapped k of n pages. */
  ghost predicate MapEnd(m0: Image, m: Image, dirs: set<nat>, hand: set<nat>, d: nat, v: nat, k: nat, n: nat, pa: nat,
      perm: nat, f0: nat, free: seq<nat>, r: MapResult)
    requires perm < PGSIZE
  {
    && Grew(m0, m, dirs, d) && MappedTo(m0, m, d, v, k, pa, perm) && HandKept(m0, m, hand)
    && |free| + |Have(m, d)| == f0 + |Have(m0, d)|
    && match r
       case Mapped => k == n && Have(m, d) == Have(m0, d) + Touched(v, n)
       case NoMemory => k < n && free == [] && |Have(m, d)| < |Have(m0, d) + Touched(v, n)|
       case Remap => k < n && Present(Pte(m0, d, v + k))
  }

  /** What one turn of mappages adds, or how it ends. */
  lemma MapStep(m0: Image, m1: Image, m: Image, dirs: set<nat>, hand: set<nat>, d: nat, v: nat, k: nat, n: nat,
      pa: nat, perm: nat, f0: nat, f1: nat, free: seq<nat>, r: MapResult)
    requires perm < PGSIZE && k < n && v + n <= PAGES && (v >= USER || k == 0) && d in dirs
    requires MapState(m0, m1, dirs, hand, d, v, k, pa, perm, f0, f1)
    requires Grew(m1, m, dirs, d) && MappedTo(m1, m, d, v + k, if r.Mapped? then 1 else 0, pa + k, perm)
    requires HandKept(m1, m, hand)
    requires |free| + |Have(m, d)| == f1 + |Have(m1, d)| && (r.Remap? ==> Present(Pte(m1, d, v + k)))
    requires if r.NoMemory? then free == [] && m == m1 && Pdx(v + k) !in Have(m, d)
      else Have(m, d) == Have(m1, d) + {Pdx(v + k)}
    ensures r.Mapped? ==> MapState(m0, m, dirs, hand, d, v, k + 1, pa, perm, f0, |free|)
    ensures r.Mapped? && k + 1 == n ==> MapEnd(m0, m, dirs, hand, d, v, n, n, pa, perm, f0, free, r)
    ensures !r.Mapped? ==> MapEnd(m0, m, dirs, hand, d, v, k, n, pa, perm, f0, free, r)
  {
    GrewTrans(m0, m1, m, dirs, d);
    TouchedMore(v, k);
    TouchedPart(v, k + 1, n);
    if r.NoMemory? { StrictlyFewer(Have(m, d), Have(m0, d) + Touched(v, n), Pdx(v + k)); }
  }

  /** The k pages from v on are mapped to those from pa on, all else is mapped as before. */
  ghost predicate MappedTo(m0: Image, m: Image, d: nat, v: nat, k: nat, pa: nat, perm: nat)
    requires perm < PGSIZE
  {
    forall x: nat {:trigger Pte(m, d, x)} :: x < PAGES ==>
      Pte(m, d, x) == if v <= x < v + k then Entry(pa + (x - v), WithP(perm)) else Pte(m0, d, x)
  }

  /** allocuvm has mapped one more page, or, for k = 0, has not. */
  lemma OneMore(m0: Image, m1: Image, m2: Image, m3: Image, dirs: set<nat>, d: nat, from: nat, p: nat, k: nat,
      page: nat)
    requires d in dirs && from <= p < USER && k <= 1 && page < |m3| && m3[page] == ZeroPage()
    requires Grew(m0, m1, dirs, d) && Frame(m1, m2, dirs) && Grew(m2, m3, dirs, d)
    requires ZeroFrom(m0, m1, d, from, p) && MappedTo(m2, m3, d, p, k, page, PTE_W + PTE_U)
    requires forall x: nat {:trigger Pte(m0, d, x)} :: from <= x <= p ==> Pte(m0, d, x) == 0
    ensures Grew(m0, m3, dirs, d) && ZeroFrom(m0, m3, d, from, p + k)
  {
    FrameGrew(m1, m2, dirs, d);
    GrewTrans(m0, m1, m2, dirs, d);
    GrewTrans(m0, m2, m3, dirs, d);
    forall x: nat | x < PAGES
      ensures if from <= x < p + k then ZeroUser(m3, Pte(m3, d, x)) else Pte(m3, d, x) == Pte(m0, d, x)
    {
      assert Pte(m2, d, x) == Pte(m1, d, x);
      if from <= x < p {
        assert Holds(m1, dirs, d, User(x), Addr(Pte(m1, d, x)));
        assert Holds(m2, dirs, d, User(x), Addr(Pte(m2, d, x)));
      }
    }
  }

  /** The end of allocuvm's loop, as its contract puts it. */
  lemma AllZero(m0: Image, m: Image, dirs: set<nat>, d: nat, from: nat, p: nat)
    requires Grew(m0, m, dirs, d) && ZeroFrom(m0, m, d, from, p)
    ensures p <= from ==> SameMap(m0, m, dirs)
    ensures forall x: nat {:trigger Pte(m, d, x)} :: x < PAGES ==>
      if from <= x < p then ZeroUser(m, Pte(m, d, x)) else Pte(m, d, x) == Pte(m0, d, x)
  {
    WholeMap(m0, m, dirs, d);
  }

  lemma WholeMap(m: Image, m': Image, dirs: set<nat>, d: nat)
    requires Grew(m, m', dirs, d)
    ensures (forall x: nat :: x < PAGES ==> Pte(m', d, x) == Pte(m, d, x)) ==> SameMap(m, m', dirs)
  {
  }

  lemma GrewThenFrame(m: Image, m1: Image, m2: Image, dirs: set<nat>, d: nat)
    requires Grew(m, m1, dirs, d) && SameMap(m, m1, dirs) && Frame(m1, m2, dirs) && d in dirs
    ensures Grew(m, m2, dirs, d) && SameMap(m, m2, dirs)
  {
    FrameGrew(m1, m2, dirs, d);
    GrewTrans(m, m1, m2, dirs, d);
  }

  /** What allocuvm mapped before it ran out of memory, deallocuvm takes back. */
  lemma UnwoundIsSame(m0: Image, m1: Image, m2: Image, dirs: set<nat>, d: nat, oldsz: nat, newsz: nat, p: nat)
    requires d in dirs && oldsz <= newsz <= USER * PGSIZE && RoundUp(oldsz) <= p <= RoundUp(newsz)
    requires Grew(m0, m1, dirs, d) && ZeroFrom(m0, m1, d, RoundUp(oldsz), p) && Shrank(m1, m2, dirs, d)
    requires forall x: nat {:trigger Pte(m0, d, x)} :: RoundUp(oldsz) <= x < RoundUp(newsz) ==> Pte(m0, d, x) == 0
    requires forall x: nat {:trigger Pte(m2, d, x)} :: x < PAGES ==>
      Pte(m2, d, x) == if Doomed(m1, d, newsz, oldsz, x) then 0 else Pte(m1, d, x)
    ensures Grew(m0, m2, dirs, d) && SameMap(m0, m2, dirs)
  {
    forall x: nat | x < PAGES ensures Pte(m2, d, x) == Pte(m0, d, x) {
      assert RoundUp(oldsz) <= x < p ==> x * PGSIZE < newsz;
    }
    FrameTrans(m0, m1, m2, dirs - {d});
    forall e: nat, v: nat, f: nat | Holds(m0, dirs, e, User(v), f) && f < |m0| ensures m2[f] == m0[f] {
      assert Holds(m0, dirs, e, User(v), f);
      if e == d {
        assert Holds(m2, dirs, d, User(v), f);
      } else {
        assert Holds(m0, dirs - {d}, e, User(v), f);
      }
    }
    WholeMap(m0, m2, dirs, d);
  }

  /** Page x is one of those that deallocuvm is to free. */
  predicate Doomed(m: Image, d: nat, oldsz: nat, newsz: nat, x: nat) {
    newsz < oldsz && RoundUp(newsz) <= x && x * PGSIZE < oldsz && Present(Pte(m, d, x))
  }

  /** Without a page table, no page up to the next directory entry is present. */
  lemma Skipped(m0: Image, m: Image, d: nat, oldsz: nat, newsz: nat, p: nat)
    requires !HasTable(m, d, Pdx(p))
    ensures (Pdx(p) + 1) * WORDS > p
    ensures forall x: nat {:trigger Pte(m, d, x)} :: p <= x < (Pdx(p) + 1) * WORDS ==> Pte(m, d, x) == 0
  {
  }
}