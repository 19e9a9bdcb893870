/** The inode blocks of fs.c: eight 64-byte dinodes in each. */
module Dinodes {
  import opened Basics
  import opened Blocks

  const IPB: nat := 8
  const DWORDS: nat := 16  // words of a dinode
  const SHORT: int := 0x1_0000

  /** struct dinode */
  datatype Dinode = Dinode(kind: int, major: int, minor: int, nlink: int, size: nat, addrs: seq<nat>)

  predicate IsShort(v: int) {
    -SHORT / 2 <= v < SHORT / 2
  }

  predicate Fits(x: Dinode) {
    && IsShort(x.kind) && IsShort(x.major) && IsShort(x.minor) && IsShort(x.nlink)
    && x.size < UINT && |x.addrs| == 13 && forall k :: 0 <= k < 13 ==> x.addrs[k] < UINT
  }

  /** Two shorts in a word, the first in its low half. */
  function Pair(a: int, b: int): nat {
    a % SHORT + SHORT * (b % SHORT)
  }

  function Signed(h: nat): int {
    if h < SHORT / 2 then h else h - SHORT
  }

  lemma PairBack(a: int, b: int)
    requires IsShort(a) && IsShort(b)
    ensures Pair(a, b) < UINT && Signed(Pair(a, b) % SHORT) == a && Signed(Pair(a, b) / SHORT) == b
  {
  }

  function Words(x: Dinode): (ws: seq<nat>)
    requires Fits(x)
    ensures |ws| == DWORDS
  {
    [Pair(x.kind, x.major), Pair(x.minor, x.nlink), x.size] + x.addrs
  }

  function FromWords(ws: seq<nat>): Dinode
    requires |ws| == DWORDS
  {
    Dinode(Signed(ws[0] % SHORT), Signed(ws[0] / SHORT), Signed(ws[1] % SHORT), Signed(ws[1] / SHORT), ws[2], ws[3..])
  }

  lemma WordsBack(x: Dinode)
    requires Fits(x)
    ensures FromWords(Words(x)) == x && forall k :: 0 <= k < DWORDS ==> Words(x)[k] < UINT
  {
    PairBack(x.kind, x.major);
    PairBack(x.minor, x.nlink);
    assert Words(x)[3..] == x.addrs;
  }

  /** A block with these words from word `at` on. */
  function {:induction false} PutWords(b: Block, at: nat, ws: seq<nat>): (r: Block)
    requires at + |ws| <= WORDS && forall k :: 0 <= k < |ws| ==> ws[k] < UINT
    ensures forall k: nat :: k < WORDS ==> Word(r, k) == if at <= k < at + |ws| then ws[k - at] else Word(b, k)
  {
    if ws == [] then b else PutWord(PutWords(b, at, ws[..|ws| - 1]), at + |ws| - 1, ws[|ws| - 1])
  }

  /** The words of a slot. */
  function WordsAt(b: Block, slot: nat): (ws: seq<nat>)
    requires slot < IPB
    ensures |ws| == DWORDS
  {
    seq<nat>(DWORDS, k requires 0 <= k < DWORDS => Word(b, slot * DWORDS + k))
  }

  /** Dinode number `slot` of a block. */
  function Get(b: Block, slot: nat): Dinode
    requires slot < IPB
  {
    FromWords(WordsAt(b, slot))
  }

  function Put(b: Block, slot: nat, x: Dinode): Block
    requires slot < IPB && Fits(x)
  {
    WordsBack(x);
    PutWords(b, slot * DWORDS, Words(x))
  }

  /** What is put in a slot is read back from it, and the other seven slots keep what they hold. */
  lemma PutGet(b: Block, slot: nat, x: Dinode, other: nat)
    requires slot < IPB && Fits(x) && other < IPB
    ensures Get(Put(b, slot, x), other) == if other == slot then x else Get(b, other)
    ensures other != slot ==> WordsAt(Put(b, slot, x), other) == WordsAt(b, other)
  {
    WordsBack(x);
    if other == slot {
      assert WordsAt(Put(b, slot, x), other) == Words(x);
    } else {
      assert WordsAt(Put(b, slot, x), other) == WordsAt(b, other);
    }
  }

  /** A short of a block, two's complement, least significant byte first. */
  function ShortAt(b: Block, at: nat): int
    requires at + 1 < BSIZE
  {
    var h := b[at] as int + 0x100 * b[at + 1] as int;
    if h < 0x8000 then h else h - 0x1_0000
  }

  /** Where the fields of struct dinode lie: four shorts, then fourteen words. */
  lemma Layout(b: Block, slot: nat, x: Dinode)
    requires slot < IPB && Fits(x)
    ensures var r, at := Put(b, slot, x), 64 * slot;
      && ShortAt(r, at) == x.kind && ShortAt(r, at + 2) == x.major
      && ShortAt(r, at + 4) == x.minor && ShortAt(r, at + 6) == x.nlink
      && Word(r, 16 * slot + 2) == x.size
      && forall k :: 0 <= k < 13 ==> Word(r, 16 * slot + 3 + k) == x.addrs[k]
  {
    var r := Put(b, slot, x);
    PutWordsRead(b, slot, x);
    hide Put, Word, Fits;
    TwoShorts(r, 16 * slot, x.kind, x.major);
    TwoShorts(r, 16 * slot + 1, x.minor, x.nlink);
    hide ShortAt;
  }

  lemma PutWordsRead(b: Block, slot: nat, x: Dinode)
    requires slot < IPB && Fits(x)
    ensures var r, j := Put(b, slot, x), 16 * slot;
      && Word(r, j) == Pair(x.kind, x.major) && Word(r, j + 1) == Pair(x.minor, x.nlink) && Word(r, j + 2) == x.size
      && forall k :: 0 <= k < 13 ==> Word(r, j + 3 + k) == x.addrs[k]
  {
    WordsBack(x);
    var ws, r := Words(x), Put(b, slot, x);
    hide Word, Fits;
    assert forall k: nat :: k < DWORDS ==> Word(r, 16 * slot + k) == ws[k];
    assert ws[0] == Pair(x.kind, x.major) && ws[1] == Pair(x.minor, x.nlink) && ws[2] == x.size;
    forall k | 0 <= k < 13 ensures Word(r, 16 * slot + 3 + k) == x.addrs[k] {
      assert ws[3 + k] == x.addrs[k];
      assert Word(r, 16 * slot + (3 + k)) == ws[3 + k];
    }
  }

  lemma TwoShorts(b: Block, j: nat, p: int, q: int)
    requires j < WORDS && Word(b, j) == Pair(p, q) && IsShort(p) && IsShort(q)
    ensures ShortAt(b, 4 * j) == p && ShortAt(b, 4 * j + 2) == q
  {
    WordBytes(b, j);
    hide Word;
  }

  /** What a dinode is read from fits in it. */
  lemma GetFits(b: Block, slot: nat)
    requires slot < IPB
    ensures Fits(Get(b, slot))
  {
    var ws := WordsAt(b, slot);
    forall k | 0 <= k < DWORDS ensures ws[k] < UINT {
      assert ws[k] == Word(b, slot * DWORDS + k);
    }
    assert forall v: nat :: v < SHORT ==> IsShort(Signed(v));
    assert forall k :: 0 <= k < 13 ==> ws[3..][k] == ws[3 + k];
  }

  /** All inodes in these inode blocks, by number. */
  function Decode(area: seq<Block>): (tab: map<nat, Dinode>)
    ensures forall i: nat :: i in tab <==> i < |area| * IPB
  {
    map i: nat | i < |area| * IPB :: Get(area[i / IPB], i % IPB)
  }

  /** Writing one inode to its place changes that inode and no other. */
  lemma DecodePut(area: seq<Block>, i: nat, x: Dinode)
    requires i / IPB < |area| && Fits(x)
    ensures Decode(area[i / IPB := Put(area[i / IPB], i % IPB, x)]) == Decode(area)[i := x]
  {
    var area' := area[i / IPB := Put(area[i / IPB], i % IPB, x)];
    forall j: nat | j < |area| * IPB ensures Decode(area')[j] == Decode(area)[i := x][j] { GetPut(area, i, x, j); }
    hide Get, Put, Fits;
  }

  lemma GetPut(area: seq<Block>, i: nat, x: Dinode, j: nat)
    requires i / IPB < |area| && Fits(x) && j < |area| * IPB
    ensures var area' := area[i / IPB := Put(area[i / IPB], i % IPB, x)];
            Get(area'[j / IPB], j % IPB) == if j == i then x else Get(area[j / IPB], j % IPB)
  {
    PutGet(area[i / IPB], i % IPB, x, j % IPB);
    hide Get, Put, Fits, WordsAt;
  }
}
