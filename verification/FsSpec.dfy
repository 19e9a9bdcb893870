/** What the blocks and inodes of fs.c mean: which block a file's n-th block is, which blocks are
    in use, who owns them, and the byte string a file holds. */
module FsSpec {
  import opened Basics
  import opened Blocks
  import opened Dinodes

  const NDIRECT: nat := 12
  const NINDIRECT: nat := WORDS
  const MAXFILE: nat := 140      // NDIRECT + NINDIRECT
  const NSLOTS: nat := 141       // direct entries, the indirect root, indirect entries
  const T_DEV: int := 3

  /** struct inode keeps what struct dinode has on disk. */
  type Inode = Dinode

  type Table = map<nat, Inode>

  /** From the superblock: number of blocks, first inode and bitmap block; and where data blocks begin. */
  datatype Super = Super(size: nat, inodestart: nat, bmapstart: nat, nmeta: nat)

  type Image = seq<Block>

  /** The layout mkfs makes: boot, superblock, log, inodes and bitmap below nmeta, data above. */
  predicate Geometry(sb: Super, d: Image) {
    && 0 < sb.nmeta <= sb.size <= |d| <= UINT
    && sb.inodestart <= sb.bmapstart && sb.bmapstart + (sb.size + BPB - 1) / BPB <= sb.nmeta
  }

  /** The inode blocks. */
  function InodeArea(sb: Super, d: Image): seq<Block> {
    if sb.inodestart <= sb.bmapstart <= |d| then d[sb.inodestart..sb.bmapstart] else []
  }

  /** The inodes on disk. */
  function Inodes(sb: Super, d: Image): Table {
    Decode(InodeArea(sb, d))
  }

  /** Bit b of the free map. */
  predicate Used(sb: Super, d: Image, b: nat)
    requires Geometry(sb, d) && b < sb.size
  {
    Bit(d[sb.bmapstart + b / BPB], b % BPB)
  }

  /** The block numbers an inode holds: 12 direct, the indirect root, then the root's words. */
  function Slot(d: Image, ip: Inode, k: nat): nat
    requires |ip.addrs| == NDIRECT + 1 && k < NSLOTS
  {
    if k <= NDIRECT then ip.addrs[k]
    else if 0 < ip.addrs[NDIRECT] < |d| then Word(d[ip.addrs[NDIRECT]], k - NDIRECT - 1)
    else 0
  }

  /** The slot that holds the number of the file's bn-th block. */
  function SlotOf(bn: nat): (k: nat)
    requires bn < MAXFILE
    ensures k < NSLOTS && k != NDIRECT
  {
    if bn < NDIRECT then bn else bn + 1
  }

  predicate Shaped(tab: Table) {
    forall i :: i in tab ==> |tab[i].addrs| == NDIRECT + 1
  }

  predicate Owns(d: Image, tab: Table, i: nat, k: nat, b: nat)
    requires Shaped(tab)
  {
    i in tab && k < NSLOTS && b != 0 && Slot(d, tab[i], k) == b
  }

  /** Every block number appears at most once among all slots of all inodes, only data blocks
      appear, and the free map marks exactly the metadata and the owned blocks. */
  ghost predicate Conserved(sb: Super, d: Image, tab: Table) {
    && Geometry(sb, d) && Shaped(tab)
    && (forall i: nat, k: nat, b: nat :: Owns(d, tab, i, k, b) ==> sb.nmeta <= b < sb.size)
    && (forall i: nat, k: nat, j: nat, m: nat, b: nat ::
      Owns(d, tab, i, k, b) && Owns(d, tab, j, m, b) ==> i == j && k == m)
    && forall b: nat :: b < sb.size ==> (Used(sb, d, b) <==> b < sb.nmeta || exists i, k :: Owns(d, tab, i, k, b))
  }

  /** Exactly the first n blocks of the file exist, and the indirect root exactly if one of them needs it. */
  ghost predicate NoHoles(d: Image, ip: Inode, n: nat)
    requires |ip.addrs| == NDIRECT + 1
  {
    && n <= MAXFILE
    && (forall bn :: 0 <= bn < MAXFILE ==> (Slot(d, ip, SlotOf(bn)) != 0 <==> bn < n))
    && (Slot(d, ip, NDIRECT) != 0 <==> n > NDIRECT)
  }

  /** ceil(size / BSIZE) */
  function BlocksFor(size: nat): nat {
    (size + BSIZE - 1) / BSIZE
  }

  lemma IndexInFile(p: nat, size: nat)
    ensures p < size <= MAXFILE * BSIZE ==> p / BSIZE < BlocksFor(size) <= MAXFILE
  {
  }

  ghost predicate Sound(sb: Super, d: Image, tab: Table) {
    && Conserved(sb, d, tab)
    && forall i :: i in tab ==> NoHoles(d, tab[i], BlocksFor(tab[i].size))
  }

  /** Byte p of a file, wherever its block is. */
  function ByteAt(d: Image, ip: Inode, p: nat): byte
    requires |ip.addrs| == NDIRECT + 1 && p / BSIZE < MAXFILE
  {
    var b := Slot(d, ip, SlotOf(p / BSIZE));
    if b < |d| then d[b][p % BSIZE] else 0
  }

  /** The abstract file: its bytes. */
  function Content(d: Image, ip: Inode): (s: seq<byte>)
    requires |ip.addrs| == NDIRECT + 1 && ip.size <= MAXFILE * BSIZE
    ensures |s| == ip.size
  {
    seq(ip.size, p requires 0 <= p < ip.size => ByteAt(d, ip, p))
  }

  /** The blocks of the free map. */
  function Bitmap(sb: Super): set<nat> {
    Span(sb.bmapstart, sb.bmapstart + (sb.size + BPB - 1) / BPB)
  }

  /** IBLOCK(i, sb) */
  function InodeBlock(sb: Super, i: nat): nat {
    i / IPB + sb.inodestart
  }

  /** The indirect root of a file, if it has one. */
  function Root(x: Inode): set<nat>
    requires |x.addrs| == NDIRECT + 1
  {
    if x.addrs[NDIRECT] == 0 then {} else {x.addrs[NDIRECT]}
  }

  /** The blocks that the free map has for balloc. */
  function FreeBlocks(sb: Super, d: Image): set<nat> {
    set b: nat | b < sb.size && Geometry(sb, d) && !Used(sb, d, b)
  }

  /** How many slots a file of n blocks fills: with more than 12 also the indirect root's. */
  function SlotsFor(n: nat): nat {
    if n > NDIRECT then n + 1 else n
  }

  lemma FreeBlockTaken(sb: Super, d: Image, e: Image, b: nat)
    requires Geometry(sb, d) && Geometry(sb, e) && b < sb.size && !Used(sb, d, b)
    requires forall c: nat :: c < sb.size ==> (Used(sb, e, c) <==> Used(sb, d, c) || c == b)
    ensures |FreeBlocks(sb, e)| + 1 == |FreeBlocks(sb, d)|
  {
    hide Used;
    assert FreeBlocks(sb, d) == FreeBlocks(sb, e) + {b};
  }

  lemma SameFreeBlocks(sb: Super, d: Image, e: Image)
    requires Geometry(sb, d) && Geometry(sb, e) && forall c: nat :: c < sb.size ==> (Used(sb, e, c) <==> Used(sb, d, c))
    ensures FreeBlocks(sb, e) == FreeBlocks(sb, d)
  {
  }

  // ---- steps ----

  /** The images agree on every block that inode ip owns. */
  ghost predicate SameBlocks(d: Image, e: Image, ip: Inode)
    requires |ip.addrs| == NDIRECT + 1
  {
    |e| == |d| && forall k :: 0 <= k < NSLOTS && 0 < Slot(d, ip, k) < |d| ==> e[Slot(d, ip, k)] == d[Slot(d, ip, k)]
  }

  /** A file whose blocks are untouched is untouched. */
  lemma FileFrame(d: Image, e: Image, ip: Inode)
    requires |ip.addrs| == NDIRECT + 1 && SameBlocks(d, e, ip)
    ensures forall k :: 0 <= k < NSLOTS ==> Slot(e, ip, k) == Slot(d, ip, k)
    ensures forall n :: NoHoles(d, ip, n) ==> NoHoles(e, ip, n)
    ensures ip.size <= MAXFILE * BSIZE && NoHoles(d, ip, BlocksFor(ip.size)) ==> Content(e, ip) == Content(d, ip)
  {
    assert Slot(d, ip, NDIRECT) == ip.addrs[NDIRECT];
    assert forall k :: 0 <= k < NSLOTS ==> Slot(e, ip, k) == Slot(d, ip, k);
    if ip.size <= MAXFILE * BSIZE && NoHoles(d, ip, BlocksFor(ip.size)) {
      forall p | 0 <= p < ip.size ensures ByteAt(e, ip, p) == ByteAt(d, ip, p) {
        assert Slot(d, ip, SlotOf(p / BSIZE)) != 0;
      }
    }
  }

  /** Giving an empty slot a block that was free keeps the books. */
  lemma Acquire(sb: Super, d: Image, tab: Table, e: Image, tab': Table, i: nat, k: nat, b: nat)
    requires Conserved(sb, d, tab) && Geometry(sb, e) && Shaped(tab') && tab'.Keys == tab.Keys
    requires i in tab && k < NSLOTS && Slot(d, tab[i], k) == 0 && Slot(e, tab'[i], k) == b
    requires forall j, m :: j in tab && 0 <= m < NSLOTS && (j != i || m != k) ==>
      Slot(e, tab'[j], m) == Slot(d, tab[j], m)
    requires b < sb.size && !Used(sb, d, b)
    requires forall c: nat :: c < sb.size ==> (Used(sb, e, c) <==> Used(sb, d, c) || c == b)
    ensures Conserved(sb, e, tab')
  {
    assert forall j, m, c ::
      Owns(e, tab', j, m, c) <==> Owns(d, tab, j, m, c) || (j == i && m == k && c == b && b != 0);
    assert Used(sb, d, 0);
    assert Owns(e, tab', i, k, b);
    forall c: nat | c < sb.size
      ensures Used(sb, e, c) <==> c < sb.nmeta || exists j, m :: Owns(e, tab', j, m, c)
    {
      if j, m :| Owns(d, tab, j, m, c) { assert Owns(e, tab', j, m, c); }
    }
  }

  /** Dropping every block of one inode keeps the books. */
  lemma Release(sb: Super, d: Image, tab: Table, e: Image, tab': Table, i: nat)
    requires Conserved(sb, d, tab) && Geometry(sb, e) && Shaped(tab') && tab'.Keys == tab.Keys && i in tab
    requires forall k :: 0 <= k < NSLOTS ==> Slot(e, tab'[i], k) == 0
    requires forall j, m :: j in tab && 0 <= m < NSLOTS && j != i ==> Slot(e, tab'[j], m) == Slot(d, tab[j], m)
    requires forall c: nat :: c < sb.size ==> (Used(sb, e, c) <==> Used(sb, d, c) && !exists k :: Owns(d, tab, i, k, c))
    ensures Conserved(sb, e, tab')
  {
    assert forall j, m, c :: Owns(e, tab', j, m, c) <==> Owns(d, tab, j, m, c) && j != i;
    forall c: nat | c < sb.size
      ensures Used(sb, e, c) <==> c < sb.nmeta || exists j, m :: Owns(e, tab', j, m, c)
    {
      if j, m :| Owns(d, tab, j, m, c) && j != i { assert Owns(e, tab', j, m, c); }
    }
  }

  /** From (d, x) to (e, y): inode x gets the free block b in its empty slot k, zeroed, and no other
      data block changes except the indirect root when the slot lies in it. */
  ghost predicate Grew(sb: Super, d: Image, x: Inode, e: Image, y: Inode, k: nat, b: nat)
    requires Geometry(sb, d) && |x.addrs| == |y.addrs| == NDIRECT + 1
  {
    && Geometry(sb, e) && |e| == |d| && y == x.(addrs := y.addrs)
    && k < NSLOTS && sb.nmeta <= b < sb.size && !Used(sb, d, b) && e[b] == Zeros()
    && Slot(d, x, k) == 0 && Slot(e, y, k) == b
    && (forall m :: 0 <= m < NSLOTS && m != k ==> Slot(e, y, m) == Slot(d, x, m))
    && (forall c: nat :: c < sb.size ==> (Used(sb, e, c) <==> Used(sb, d, c) || c == b))
    && forall c: nat :: sb.nmeta <= c < |d| && c != b && (k <= NDIRECT || c != x.addrs[NDIRECT]) ==> e[c] == d[c]
  }

  /** All inodes but i keep their blocks. */
  ghost predicate OthersKept(d: Image, e: Image, tab: Table, i: nat)
    requires Shaped(tab)
  {
    forall j :: j in tab && j != i ==> SameBlocks(d, e, tab[j])
  }

  /** The first n blocks of the file keep their bytes. */
  ghost predicate BytesKept(d: Image, x: Inode, e: Image, y: Inode, n: nat)
    requires |x.addrs| == |y.addrs| == NDIRECT + 1 && n <= MAXFILE
  {
    forall p: nat :: p / BSIZE < n ==> ByteAt(e, y, p) == ByteAt(d, x, p)
  }

  /** Of the bytes in the first n blocks or under the part, those under the part are its bytes and
      the others are as before. */
  ghost predicate PartWritten(d: Image, x: Inode, e: Image, y: Inode, at: nat, part: seq<byte>, n: nat)
    requires |x.addrs| == |y.addrs| == NDIRECT + 1 && n <= MAXFILE && at + |part| <= MAXFILE * BSIZE
  {
    forall p: nat :: p / BSIZE < n || at <= p < at + |part| ==>
      ByteAt(e, y, p) == if at <= p < at + |part| then part[p - at] else ByteAt(d, x, p)
  }

  ghost predicate DataUpTo(d: Image, ip: Inode, n: nat)
    requires |ip.addrs| == NDIRECT + 1 && n <= MAXFILE
  {
    forall bn :: 0 <= bn < MAXFILE ==> (Slot(d, ip, SlotOf(bn)) != 0 <==> bn < n)
  }

  lemma GrowthKeepsOthers(sb: Super, d: Image, tab: Table, e: Image, i: nat, y: Inode, k: nat, b: nat)
    requires Conserved(sb, d, tab) && i in tab && |y.addrs| == NDIRECT + 1
    requires Grew(sb, d, tab[i], e, y, k, b)
    ensures OthersKept(d, e, tab, i)
  {
    forall j, m | j in tab && j != i && 0 <= m < NSLOTS && 0 < Slot(d, tab[j], m) < |d|
      ensures e[Slot(d, tab[j], m)] == d[Slot(d, tab[j], m)]
    {
      var c := Slot(d, tab[j], m);
      assert Owns(d, tab, j, m, c);
      assert tab[i].addrs[NDIRECT] != 0 ==> Owns(d, tab, i, NDIRECT, tab[i].addrs[NDIRECT]);
    }
  }

  lemma GrowthConserves(sb: Super, d: Image, tab: Table, e: Image, i: nat, y: Inode, k: nat, b: nat)
    requires Conserved(sb, d, tab) && i in tab && |y.addrs| == NDIRECT + 1
    requires Grew(sb, d, tab[i], e, y, k, b)
    ensures Conserved(sb, e, tab[i := y])
  {
    GrowthKeepsOthers(sb, d, tab, e, i, y, k, b);
    forall j | j in tab && j != i ensures forall m :: 0 <= m < NSLOTS ==> Slot(e, tab[j], m) == Slot(d, tab[j], m) {
      FileFrame(d, e, tab[j]);
    }
    Acquire(sb, d, tab, e, tab[i := y], i, k, b);
  }

  lemma GrowthKeepsBytes(sb: Super, d: Image, tab: Table, e: Image, i: nat, y: Inode, k: nat, b: nat, n: nat)
    requires Conserved(sb, d, tab) && i in tab && |y.addrs| == NDIRECT + 1 && n <= MAXFILE
    requires Grew(sb, d, tab[i], e, y, k, b) && DataUpTo(d, tab[i], n)
    ensures BytesKept(d, tab[i], e, y, n)
  {
    var x := tab[i];
    forall p: nat | p / BSIZE < n ensures ByteAt(e, y, p) == ByteAt(d, x, p) {
      var m := SlotOf(p / BSIZE);
      assert Owns(d, tab, i, m, Slot(d, x, m));
      assert x.addrs[NDIRECT] != 0 ==> Owns(d, tab, i, NDIRECT, x.addrs[NDIRECT]);
    }
  }

  lemma OthersKeptTrans(d: Image, e: Image, f: Image, tab: Table, i: nat, y: Inode)
    requires Shaped(tab) && |y.addrs| == NDIRECT + 1
    requires OthersKept(d, e, tab, i) && OthersKept(e, f, tab[i := y], i)
    ensures OthersKept(d, f, tab, i)
  {
    forall j | j in tab && j != i ensures SameBlocks(d, f, tab[j]) {
      FileFrame(d, e, tab[j]);
      assert tab[i := y][j] == tab[j];
    }
  }

  /** A file's bytes after src has been written at off, growing it if need be. */
  function Splice(s: seq<byte>, off: nat, src: seq<byte>): (r: seq<byte>)
    requires off <= |s|
    ensures |r| == if off + |src| <= |s| then |s| else off + |src|
  {
    s[..off] + src + if off + |src| <= |s| then s[off + |src|..] else []
  }

  /** Overwriting a file's bn-th block: the books, the other files and its other blocks are unaffected. */
  lemma StoreData(sb: Super, d: Image, tab: Table, i: nat, bn: nat, data: Block)
    requires Conserved(sb, d, tab) && i in tab && bn < MAXFILE && Slot(d, tab[i], SlotOf(bn)) != 0
    ensures var c := Slot(d, tab[i], SlotOf(bn));
      && c < |d| && var e := d[c := data];
      && Conserved(sb, e, tab) && OthersKept(d, e, tab, i) && FreeBlocks(sb, e) == FreeBlocks(sb, d)
      && (forall n :: NoHoles(d, tab[i], n) ==> NoHoles(e, tab[i], n))
      && (forall k :: 0 <= k < NSLOTS ==> Slot(e, tab[i], k) == Slot(d, tab[i], k))
      && forall p: nat :: p / BSIZE < MAXFILE ==>
           ByteAt(e, tab[i], p) == if p / BSIZE == bn then data[p % BSIZE] else ByteAt(d, tab[i], p)
  {
    var x := tab[i];
    var c := Slot(d, x, SlotOf(bn));
    assert Owns(d, tab, i, SlotOf(bn), c);
    var e := d[c := data];
    StoreKeepsSlots(sb, d, tab, i, bn, e);
    StoreConserves(sb, d, tab, c, e);
    forall p: nat | p / BSIZE < MAXFILE
      ensures ByteAt(e, x, p) == if p / BSIZE == bn then data[p % BSIZE] else ByteAt(d, x, p)
    {
      var k := SlotOf(p / BSIZE);
      if Slot(d, x, k) == c { assert Owns(d, tab, i, k, c) && k == SlotOf(bn); }
    }
  }

  lemma StoreKeepsSlots(sb: Super, d: Image, tab: Table, i: nat, bn: nat, e: Image)
    requires Conserved(sb, d, tab) && i in tab && bn < MAXFILE
    requires var c := Slot(d, tab[i], SlotOf(bn)); 0 < c < |d| == |e| && e == d[c := e[c]]
    ensures forall j, k :: j in tab && 0 <= k < NSLOTS ==> Slot(e, tab[j], k) == Slot(d, tab[j], k)
    ensures OthersKept(d, e, tab, i)
  {
    var c := Slot(d, tab[i], SlotOf(bn));
    assert Owns(d, tab, i, SlotOf(bn), c);
    forall j, k | j in tab && 0 <= k < NSLOTS ensures Slot(e, tab[j], k) == Slot(d, tab[j], k) {
      var root := tab[j].addrs[NDIRECT];
      if root == c { assert Owns(d, tab, j, NDIRECT, c); }
    }
    forall j | j in tab && j != i ensures SameBlocks(d, e, tab[j]) {
      forall k | 0 <= k < NSLOTS && 0 < Slot(d, tab[j], k) < |d| ensures Slot(d, tab[j], k) != c {
        assert Owns(d, tab, j, k, Slot(d, tab[j], k));
      }
    }
  }

  lemma StoreConserves(sb: Super, d: Image, tab: Table, c: nat, e: Image)
    requires Conserved(sb, d, tab) && sb.nmeta <= c < |d| == |e| && e == d[c := e[c]]
    requires forall j, k :: j in tab && 0 <= k < NSLOTS ==> Slot(e, tab[j], k) == Slot(d, tab[j], k)
    ensures Conserved(sb, e, tab) && FreeBlocks(sb, e) == FreeBlocks(sb, d)
  {
    assert forall b: nat :: b < sb.size ==> sb.bmapstart + b / BPB < sb.nmeta;
    assert forall b: nat :: b < sb.size ==> (Used(sb, e, b) <==> Used(sb, d, b));
    SameFreeBlocks(sb, d, e);
    assert forall j: nat, k: nat, b: nat :: Owns(e, tab, j, k, b) <==> Owns(d, tab, j, k, b);
  }

  lemma SizeFits(sb: Super, d: Image, tab: Table, i: nat)
    requires Sound(sb, d, tab) && i in tab
    ensures |tab[i].addrs| == NDIRECT + 1
    ensures tab[i].size <= MAXFILE * BSIZE && BlocksFor(tab[i].size) <= MAXFILE
  {
  }

  lemma SliceJoin(s: seq<byte>, a: nat, b: nat, c: nat)
    requires a <= b <= c <= |s|
    ensures s[a..b] + s[b..c] == s[a..c]
  {
  }

  lemma TakeMore(s: seq<byte>, a: nat, m: nat)
    requires a + m <= |s|
    ensures s[..a] + s[a..a + m] == s[..a + m]
  {
  }

  /** Part of one block is the corresponding stretch of the file. */
  lemma BlockSlice(sb: Super, d: Image, tab: Table, i: nat, at: nat, m: nat)
    requires Sound(sb, d, tab) && i in tab && |tab[i].addrs| == NDIRECT + 1 && tab[i].size <= MAXFILE * BSIZE
    requires at + m <= tab[i].size && at < tab[i].size && at % BSIZE + m <= BSIZE
    ensures var b := Slot(d, tab[i], SlotOf(at / BSIZE));
      b < |d| && d[b][at % BSIZE..at % BSIZE + m] == Content(d, tab[i])[at..at + m]
  {
    var b := Slot(d, tab[i], SlotOf(at / BSIZE));
    assert NoHoles(d, tab[i], BlocksFor(tab[i].size));
    assert Owns(d, tab, i, SlotOf(at / BSIZE), b);
    hide Sound, NoHoles, Owns;
    var s, t := d[b][at % BSIZE..at % BSIZE + m], Content(d, tab[i])[at..at + m];
    forall q | 0 <= q < m ensures s[q] == t[q] {
      assert (at + q) / BSIZE == at / BSIZE && (at + q) % BSIZE == at % BSIZE + q;
      assert t[q] == ByteAt(d, tab[i], at + q);
    }
  }

  /** The file's bytes up to Max(size, off + |src|): src from off on, the old ones elsewhere. */
  ghost predicate Spliced(d: Image, x: Inode, e: Image, y: Inode, off: nat, src: seq<byte>)
    requires |x.addrs| == |y.addrs| == NDIRECT + 1
    requires off <= x.size <= MAXFILE * BSIZE && off + |src| <= MAXFILE * BSIZE
  {
    forall p: nat :: p < Max(x.size, off + |src|) ==>
      ByteAt(e, y, p) == if off <= p < off + |src| then src[p - off] else ByteAt(d, x, p)
  }

  lemma SplicedContent(d: Image, x: Inode, e: Image, y: Inode, off: nat, src: seq<byte>)
    requires |x.addrs| == |y.addrs| == NDIRECT + 1
    requires off <= x.size <= MAXFILE * BSIZE && off + |src| <= MAXFILE * BSIZE
    requires Spliced(d, x, e, y, off, src) && y.size == Max(x.size, off + |src|)
    ensures Content(e, y) == Splice(Content(d, x), off, src)
  {
  }

  predicate Sized(ip: Inode) {
    |ip.addrs| == NDIRECT + 1 && ip.size <= MAXFILE * BSIZE
  }

  /** The same inode with the same bytes. */
  ghost predicate SameFile(d: Image, x: Inode, e: Image, y: Inode) {
    x == y && Sized(x) && Content(e, y) == Content(d, x)
  }

  /** The effect of a successful write on all files. */
  ghost predicate WroteFile(d: Image, tab: Table, e: Image, tab': Table, i: nat, off: nat, src: seq<byte>) {
    && tab'.Keys == tab.Keys && i in tab && Sized(tab[i]) && Sized(tab'[i]) && off <= tab[i].size
    && Content(e, tab'[i]) == Splice(Content(d, tab[i]), off, src)
    && tab'[i].kind == tab[i].kind && tab'[i].nlink == tab[i].nlink
    && forall j :: j in tab && j != i ==> SameFile(d, tab[j], e, tab'[j])
  }

  lemma ResizeConserves(sb: Super, d: Image, tab: Table, i: nat, size: nat)
    requires Conserved(sb, d, tab) && i in tab
    ensures Conserved(sb, d, tab[i := tab[i].(size := size)])
  {
    var tab' := tab[i := tab[i].(size := size)];
    assert forall j: nat, k: nat, b: nat :: Owns(d, tab', j, k, b) <==> Owns(d, tab, j, k, b);
  }

  /** The end of writei: with the size brought up to date the file system is sound again. */
  lemma WriteFinishes(sb: Super, d: Image, tab: Table, e: Image, y: Inode, i: nat, off: nat, src: seq<byte>)
    requires Sound(sb, d, tab) && i in tab && |y.addrs| == NDIRECT + 1 && y == tab[i].(addrs := y.addrs)
    requires Sized(tab[i]) && off <= tab[i].size && off + |src| <= MAXFILE * BSIZE
    requires Conserved(sb, e, tab[i := y]) && NoHoles(e, y, BlocksFor(Max(y.size, off + |src|)))
    requires OthersKept(d, e, tab, i) && Spliced(d, tab[i], e, y, off, src)
    ensures var tab' := tab[i := y.(size := Max(y.size, off + |src|))];
            Sound(sb, e, tab') && WroteFile(d, tab, e, tab', i, off, src)
  {
    var z := y.(size := Max(y.size, off + |src|));
    var tab' := tab[i := z];
    ResizeConserves(sb, e, tab[i := y], i, z.size);
    assert tab[i := y][i := z] == tab';
    assert Spliced(d, tab[i], e, z, off, src) by {
      assert forall p: nat :: p / BSIZE < MAXFILE ==> ByteAt(e, z, p) == ByteAt(e, y, p);
    }
    SplicedContent(d, tab[i], e, z, off, src);
    assert forall k :: 0 <= k < NSLOTS ==> Slot(e, z, k) == Slot(e, y, k);
    forall j | j in tab && j != i
      ensures SameFile(d, tab[j], e, tab'[j]) && NoHoles(e, tab'[j], BlocksFor(tab'[j].size)) {
      SizeFits(sb, d, tab, j);
      FileFrame(d, e, tab[j]);
    }
  }

  // ---- the inode blocks ----

  /** At most the inode blocks differ. */
  ghost predicate OnlyInodes(sb: Super, d: Image, e: Image) {
    |e| == |d| && forall b: nat :: b < |d| && !(sb.inodestart <= b < sb.bmapstart) ==> e[b] == d[b]
  }

  /** Blocks and their owners do not depend on the blocks below the free map. */
  lemma MetaFrame(sb: Super, d: Image, e: Image, tab: Table)
    requires Conserved(sb, d, tab) && |e| == |d| && forall b: nat :: sb.bmapstart <= b < |d| ==> e[b] == d[b]
    ensures Conserved(sb, e, tab) && FreeBlocks(sb, e) == FreeBlocks(sb, d)
    ensures forall c: nat :: c < sb.size ==> (Used(sb, e, c) <==> Used(sb, d, c))
    ensures forall j :: j in tab ==> SameBlocks(d, e, tab[j])
    ensures forall j, k, b :: Owns(e, tab, j, k, b) <==> Owns(d, tab, j, k, b)
  {
    forall j, k | j in tab && 0 <= k < NSLOTS
      ensures Slot(e, tab[j], k) == Slot(d, tab[j], k)
      ensures 0 < Slot(d, tab[j], k) < |d| ==> e[Slot(d, tab[j], k)] == d[Slot(d, tab[j], k)]
    {
      var root, b := tab[j].addrs[NDIRECT], Slot(d, tab[j], k);
      assert root != 0 ==> Owns(d, tab, j, NDIRECT, root);
      assert b != 0 ==> Owns(d, tab, j, k, b);
    }
    assert forall c: nat :: c < sb.size ==> (Used(sb, e, c) <==> Used(sb, d, c));
    SameFreeBlocks(sb, d, e);
    assert forall j: nat, k: nat, b: nat :: Owns(e, tab, j, k, b) <==> Owns(d, tab, j, k, b);
  }

  /** Neither do the files. */
  lemma MetaFrameSound(sb: Super, d: Image, e: Image, tab: Table)
    requires Sound(sb, d, tab) && |e| == |d| && forall b: nat :: sb.bmapstart <= b < |d| ==> e[b] == d[b]
    ensures Sound(sb, e, tab)
    ensures forall j :: j in tab ==> Sized(tab[j]) && Content(e, tab[j]) == Content(d, tab[j])
  {
    MetaFrame(sb, d, e, tab);
    forall j | j in tab
      ensures NoHoles(e, tab[j], BlocksFor(tab[j].size)) && Sized(tab[j]) && Content(e, tab[j]) == Content(d, tab[j])
    {
      SizeFits(sb, d, tab, j);
      FileFrame(d, e, tab[j]);
    }
  }

  /** The inodes on disk fit there, and an inode with other blocks does too. */
  lemma InodeFits(sb: Super, d: Image, tab: Table, i: nat, y: Inode)
    requires tab == Inodes(sb, d) && i in tab && y == tab[i].(size := y.size, addrs := y.addrs)
    requires Conserved(sb, d, tab[i := y]) && y.size < UINT
    ensures Fits(y)
  {
    GetFits(InodeArea(sb, d)[i / IPB], i % IPB);
    assert tab[i] == Get(InodeArea(sb, d)[i / IPB], i % IPB);
    hide Get, Decode;
    assert tab[i := y][i] == y && |y.addrs| == NDIRECT + 1;
    forall k | 0 <= k < 13 ensures y.addrs[k] < UINT {
      assert y.addrs[k] != 0 ==> Owns(d, tab[i := y], i, k, y.addrs[k]);
    }
  }

  /** iupdate's write to the inode's block. */
  lemma InodeStored(sb: Super, d: Image, i: nat, x: Inode)
    requires sb.inodestart <= sb.bmapstart <= |d| && i in Inodes(sb, d) && Fits(x)
    ensures InodeBlock(sb, i) < sb.bmapstart
    ensures var b := InodeBlock(sb, i); var e := d[b := Put(d[b], i % IPB, x)];
            OnlyInodes(sb, d, e) && Inodes(sb, e) == Inodes(sb, d)[i := x]
  {
    hide Put, Decode, Get, Fits;
    var area, b := InodeArea(sb, d), InodeBlock(sb, i);
    var e := d[b := Put(d[b], i % IPB, x)];
    DecodePut(area, i, x);
    assert InodeArea(sb, e) == area[i / IPB := Put(area[i / IPB], i % IPB, x)];
  }
}
