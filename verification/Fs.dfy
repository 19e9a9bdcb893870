/** fs.c: the free map, the block map of an inode, and reading, writing and truncating files.
    `blocks` is what the buffer cache shows inside one transaction (bread, change, log_write). */
module Fs {
  import opened Basics
  import opened Blocks
  import opened Dinodes
  import opened FsSpec

  datatype ReadResult = Data(bytes: seq<byte>) | ReadError | FromDevice
  datatype WriteResult = Written(n: nat) | WriteError | ToDevice | OutOfBlocks

  class FileSystem {
    const sb: Super
    var blocks: Image
    var ip: Table      // in-memory inodes with valid = 1, by inode number
    var ref: map<nat, nat>
    ghost var dinode: Table     // the inodes on disk, as they stand in the inode blocks
    ghost var logged: set<nat>  // the blocks passed to log_write

    constructor (sb: Super, image: Image)
      ensures this.sb == sb && blocks == image && dinode == Inodes(sb, image)
      ensures ip == map[] && ref == map[] && logged == {}
    {
      this.sb, blocks, ip, ref, dinode, logged := sb, image, map[], map[], Inodes(sb, image), {};
    }

    /** At rest the file system is sound and every in-memory inode equals its on-disk copy. */
    ghost predicate Valid()
      reads `blocks, `ip, `dinode
    {
      && Sound(sb, blocks, dinode) && dinode == Inodes(sb, blocks)
      && forall i :: i in ip ==> i in dinode && ip[i] == dinode[i]
    }

    /** The inodes as they stand while inode i is being changed. */
    ghost function Now(i: nat): Table
      reads `ip, `dinode
      requires i in ip
    {
      dinode[i := ip[i]]
    }

    /** In the middle of a change to inode i the books balance, though its size may lag behind. */
    ghost predicate Editing(i: nat)
      reads `blocks, `ip, `dinode
    {
      i in ip && i in dinode && Shaped(Now(i)) && |ip[i].addrs| == NDIRECT + 1 && Conserved(sb, blocks, Now(i))
    }

    /** The inode blocks, which only iupdate writes. */
    ghost function Area(): seq<Block>
      reads `blocks
    {
      InodeArea(sb, blocks)
    }

    /** The number of free blocks. */
    ghost function Room(): nat
      reads `blocks
    {
      |FreeBlocks(sb, blocks)|
    }

    /** The part of balloc after it has found a free block: mark it in the map, and bzero. */
    method TakeBlock(addr: nat)
      requires Geometry(sb, blocks) && sb.nmeta <= addr < sb.size && !Used(sb, blocks, addr)
      modifies `blocks, `logged
      ensures Area() == old(Area())
      ensures Geometry(sb, blocks) && |blocks| == |old(blocks)| && blocks[addr] == Zeros()
      ensures forall b: nat :: b < sb.size ==> (Used(sb, blocks, b) <==> old(Used(sb, blocks, b)) || b == addr)
      ensures forall b: nat :: sb.nmeta <= b < |blocks| && b != addr ==> blocks[b] == old(blocks)[b]
      ensures logged == old(logged) + {sb.bmapstart + addr / BPB, addr}
    {
      var bm, bi := sb.bmapstart + addr / BPB, addr % BPB;
      assert forall b: nat :: b < sb.size ==> sb.bmapstart + b / BPB < sb.nmeta;
      blocks := blocks[bm := SetBit(blocks[bm], bi)];
      blocks := blocks[addr := Zeros()];
      logged := logged + {bm, addr};
    }

    /** balloc: the lowest free block, marked used and zeroed; not `ok` for the panic
        "balloc: out of blocks". */
    method Balloc() returns (ok: bool, addr: nat)
      requires Geometry(sb, blocks) && forall b: nat :: b < sb.nmeta ==> Used(sb, blocks, b)
      modifies `blocks, `logged
      ensures Area() == old(Area())
      ensures Geometry(sb, blocks) && |blocks| == |old(blocks)|
      ensures ok <==> exists b :: 0 <= b < sb.size && !old(Used(sb, blocks, b))
      ensures !ok ==> blocks == old(blocks) && Room() == 0
      ensures ok ==> Room() + 1 == old(Room())
      ensures ok ==> sb.nmeta <= addr < sb.size && !old(Used(sb, blocks, addr)) && blocks[addr] == Zeros()
      ensures ok ==> forall b: nat :: b < addr ==> old(Used(sb, blocks, b))
      ensures ok ==> forall b: nat :: b < sb.size ==> (Used(sb, blocks, b) <==> old(Used(sb, blocks, b)) || b == addr)
      ensures ok ==> forall b: nat :: sb.nmeta <= b < |blocks| && b != addr ==> blocks[b] == old(blocks)[b]
      ensures ok ==> logged <= old(logged) + Bitmap(sb) + {addr}
    {
      hide Bitmap, Area;
      var b := 0;
      while b < sb.size
        invariant b % BPB == 0 && blocks == old(blocks) && logged == old(logged)
        invariant forall c: nat :: c < b && c < sb.size ==> Used(sb, blocks, c)
      {
        var bi := 0;
        while bi < BPB && b + bi < sb.size
          invariant bi <= BPB && blocks == old(blocks) && logged == old(logged)
          invariant forall c: nat :: c < b + bi && c < sb.size ==> Used(sb, blocks, c)
        {
          var bm := sb.bmapstart + b / BPB;
          assert (b + bi) / BPB == b / BPB && (b + bi) % BPB == bi;
          if !Bit(blocks[bm], bi) {
            addr := b + bi;
            assert !Used(sb, blocks, addr);
            TakeBlock(addr);
            FreeBlockTaken(sb, old(blocks), blocks, addr);
            InBitmap(sb, addr);
            return true, addr;
          }
          bi := bi + 1;
        }
        b := b + BPB;
      }
      assert FreeBlocks(sb, blocks) == {};
      return false, 0;
    }

    /** bfree; `panic` is "freeing free block". */
    method Bfree(b: nat) returns (panic: bool)
      requires Geometry(sb, blocks) && b < sb.size
      modifies `blocks, `logged
      ensures Area() == old(Area())
      ensures Geometry(sb, blocks) && |blocks| == |old(blocks)|
      ensures panic <==> !old(Used(sb, blocks, b))
      ensures panic ==> blocks == old(blocks)
      ensures !panic ==> forall c: nat :: c < sb.size ==> (Used(sb, blocks, c) <==> old(Used(sb, blocks, c)) && c != b)
      ensures !panic ==> forall c: nat :: sb.nmeta <= c < |blocks| ==> blocks[c] == old(blocks)[c]
      ensures logged <= old(logged) + Bitmap(sb)
    {
      var bm, bi := sb.bmapstart + b / BPB, b % BPB;
      if !Bit(blocks[bm], bi) { return true; }
      blocks := blocks[bm := ClearBit(blocks[bm], bi)];
      InBitmap(sb, b);
      logged := logged + {bm};
      return false;
    }

    /** `ip->addrs[k] = addr = balloc(ip->dev)` */
    method GrowDirect(i: nat, k: nat, ghost n: nat) returns (ok: bool, addr: nat)
      requires Editing(i) && k <= NDIRECT && ip[i].addrs[k] == 0 && n <= MAXFILE && DataUpTo(blocks, ip[i], n)
      modifies `blocks, `ip, `logged
      ensures Area() == old(Area())
      ensures if ok then Room() + 1 == old(Room()) else old(Room()) == 0
      ensures ok ==> Editing(i) && ip == old(ip)[i := ip[i]]
      ensures ok ==> Grew(sb, old(blocks), old(ip[i]), blocks, ip[i], k, addr)
      ensures ok ==> OthersKept(old(blocks), blocks, old(Now(i)), i)
      ensures ok ==> BytesKept(old(blocks), old(ip[i]), blocks, ip[i], n)
      ensures ok ==> logged <= old(logged) + Bitmap(sb) + {addr}
    {
      ok, addr := Balloc();
      if !ok { return; }
      ip := ip[i := ip[i].(addrs := ip[i].addrs[k := addr])];
      GrewDirect(sb, old(blocks), old(Now(i)), blocks, i, k, addr);
      GrowthKept(sb, old(blocks), old(Now(i)), blocks, i, ip[i], k, addr, n);
      assert old(Now(i))[i := ip[i]] == Now(i);
    }

    /** `a[j] = addr = balloc(ip->dev); log_write(bp)` on the indirect root */
    method GrowIndirect(i: nat, j: nat, ghost n: nat) returns (ok: bool, addr: nat)
      requires Editing(i) && j < NINDIRECT && n <= MAXFILE && DataUpTo(blocks, ip[i], n)
      requires ip[i].addrs[NDIRECT] != 0 && Slot(blocks, ip[i], NDIRECT + 1 + j) == 0
      modifies `blocks, `logged
      ensures Area() == old(Area())
      ensures if ok then Room() + 1 == old(Room()) else old(Room()) == 0
      ensures ok ==> Editing(i)
      ensures ok ==> Grew(sb, old(blocks), ip[i], blocks, ip[i], NDIRECT + 1 + j, addr)
      ensures ok ==> OthersKept(old(blocks), blocks, Now(i), i)
      ensures ok ==> BytesKept(old(blocks), ip[i], blocks, ip[i], n)
      ensures ok ==> logged <= old(logged) + Bitmap(sb) + Root(ip[i]) + {addr}
    {
      hide OthersKept, BytesKept, Grew, DataUpTo, Bitmap;
      ghost var d := blocks;
      var root := ip[i].addrs[NDIRECT];
      SlotInRange(i, NDIRECT);
      ok, addr := Balloc();
      if !ok { return; }
      IndirectGrowth(sb, d, Now(i), blocks, i, j, addr, n);
      blocks := blocks[root := PutWord(blocks[root], j, addr)];
      logged := logged + {root};
    }

    /** bmap: the block that holds block bn of the file, allocated if it is the next one;
        not `ok` when balloc panics. */
    method Bmap(i: nat, bn: nat, ghost n: nat) returns (ok: bool, addr: nat)
      requires Editing(i) && bn < MAXFILE && bn <= n && NoHoles(blocks, ip[i], n)
      modifies `blocks, `ip, `logged
      ensures Area() == old(Area())
      ensures ok ==> Room() + SlotsFor(if bn < n then n else n + 1) == old(Room()) + SlotsFor(n)
      ensures !ok ==> old(Room()) + SlotsFor(n) < SlotsFor(n + 1)
      ensures bn < n ==> ok && blocks == old(blocks) && ip == old(ip)
      ensures ok ==> Editing(i) && NoHoles(blocks, ip[i], if bn < n then n else n + 1)
      ensures ok ==> addr == Slot(blocks, ip[i], SlotOf(bn)) && addr != 0
      ensures ok ==> if bn < NDIRECT then addr == ip[i].addrs[bn]
                     else var root := ip[i].addrs[NDIRECT];
                          0 < root < |blocks| && addr == Word(blocks[root], bn - NDIRECT)
      ensures ok ==> ip == old(ip)[i := ip[i]] && ip[i] == old(ip[i]).(addrs := ip[i].addrs)
      ensures ok ==> OthersKept(old(blocks), blocks, old(Now(i)), i)
      ensures ok ==> BytesKept(old(blocks), old(ip[i]), blocks, ip[i], n)
      ensures bn < n ==> logged == old(logged)
      ensures ok ==> logged <= old(logged) + Bitmap(sb) + Root(ip[i]) + {addr} && Root(old(ip[i])) <= Root(ip[i])
    {
      hide Conserved, BytesKept, OthersKept, Used, Bitmap, Room, Word;
      ghost var d0, tab0 := blocks, Now(i);
      assert Slot(blocks, ip[i], SlotOf(bn)) != 0 <==> bn < n;
      Unchanged(blocks, Now(i), i, n);
      if bn < NDIRECT {
        addr := ip[i].addrs[bn];
        if addr == 0 {
          ok, addr := GrowDirect(i, bn, n);
          return;
        }
        return true, addr;
      }
      addr := ip[i].addrs[NDIRECT];
      if addr == 0 {
        ok, addr := GrowDirect(i, NDIRECT, n);
        if !ok { return; }
        assert BytesKept(d0, tab0[i], blocks, ip[i], n);
      }
      ghost var d1, x1 := blocks, ip[i];
      assert tab0[i := x1] == Now(i);
      ok, addr := IndirectSlot(i, bn - NDIRECT, n);
      if ok { KeptTrans(d0, tab0, d1, x1, blocks, ip[i], i, n); }
    }

    /** The end of bmap: entry j of the indirect block, allocated if it is 0. */
    method IndirectSlot(i: nat, j: nat, ghost n: nat) returns (ok: bool, addr: nat)
      requires Editing(i) && j < NINDIRECT && n <= MAXFILE && DataUpTo(blocks, ip[i], n)
      requires ip[i].addrs[NDIRECT] != 0
      modifies `blocks, `logged
      ensures Area() == old(Area())
      ensures ok ==> Editing(i) && addr == Slot(blocks, ip[i], NDIRECT + 1 + j)
      ensures old(Slot(blocks, ip[i], NDIRECT + 1 + j)) != 0 ==> ok && blocks == old(blocks) && logged == old(logged)
      ensures old(Slot(blocks, ip[i], NDIRECT + 1 + j)) == 0 ==>
        if ok then Room() + 1 == old(Room()) && Grew(sb, old(blocks), ip[i], blocks, ip[i], NDIRECT + 1 + j, addr)
        else old(Room()) == 0
      ensures ok ==> OthersKept(old(blocks), blocks, Now(i), i)
      ensures ok ==> BytesKept(old(blocks), ip[i], blocks, ip[i], n)
      ensures ok ==> logged <= old(logged) + Bitmap(sb) + Root(ip[i]) + {addr}
    {
      SlotInRange(i, NDIRECT);
      Unchanged(blocks, Now(i), i, n);
      hide OthersKept, BytesKept, DataUpTo, Bitmap;
      var a := blocks[ip[i].addrs[NDIRECT]];
      addr := Word(a, j);
      ok := true;
      if addr == 0 { ok, addr := GrowIndirect(i, j, n); }
    }

    /** readi, device or not. The block map never has to allocate for it. */
    method Readi(i: nat, off: nat, n: nat) returns (r: ReadResult)
      requires Valid() && i in ip && off < UINT && n < UINT
      modifies `blocks, `ip, `logged
      ensures blocks == old(blocks) && ip == old(ip) && logged == old(logged)
      ensures |ip[i].addrs| == NDIRECT + 1 && ip[i].size <= MAXFILE * BSIZE
      ensures r == (if ip[i].kind == T_DEV then FromDevice
                    else if off > ip[i].size || off + n >= UINT then ReadError
                    else Data(Content(blocks, ip[i])[off..Min(off + n, ip[i].size)]))
    {
      hide Inodes, Sound;
      SizeFits(sb, blocks, dinode, i);
      if ip[i].kind == T_DEV { return FromDevice; }
      if off > ip[i].size || (off + n) % UINT < off { return ReadError; }
      var left := n;
      if (off + n) % UINT > ip[i].size { left := ip[i].size - off; }
      var dst := ReadLoop(i, off, left);
      return Data(dst);
    }

    /** The copying loop of readi. */
    method ReadLoop(i: nat, off: nat, n: nat) returns (dst: seq<byte>)
      requires Valid() && i in ip && |ip[i].addrs| == NDIRECT + 1 && off + n <= ip[i].size <= MAXFILE * BSIZE
      modifies `blocks, `ip, `logged
      ensures blocks == old(blocks) && ip == old(ip) && logged == old(logged)
      ensures dst == Content(blocks, ip[i])[off..off + n]
    {
      hide Content, Sound, BlocksFor, Inodes;
      ghost var file := Content(blocks, ip[i]);
      var tot := 0;
      dst := [];
      while tot < n
        invariant blocks == old(blocks) && ip == old(ip) && logged == old(logged)
        invariant tot <= n && dst == file[off..off + tot]
      {
        var m := Min(n - tot, BSIZE - (off + tot) % BSIZE);
        var part := ReadPart(i, off + tot, m);
        SliceJoin(file, off, off + tot, off + tot + m);
        dst := dst + part;
        tot := tot + m;
      }
    }

    /** One turn of it: bread(bmap(..)) and memmove. */
    method ReadPart(i: nat, at: nat, m: nat) returns (part: seq<byte>)
      requires Valid() && i in ip && |ip[i].addrs| == NDIRECT + 1 && ip[i].size <= MAXFILE * BSIZE
      requires 0 < m && at + m <= ip[i].size && at % BSIZE + m <= BSIZE
      modifies `blocks, `ip, `logged
      ensures blocks == old(blocks) && ip == old(ip) && logged == old(logged)
      ensures part == Content(blocks, ip[i])[at..at + m]
    {
      assert dinode[i := ip[i]] == dinode;
      assert NoHoles(blocks, dinode[i], BlocksFor(dinode[i].size));
      hide Conserved, NoHoles, BytesKept, OthersKept, Content, Slot, BlocksFor;
      IndexInFile(at, ip[i].size);
      BlockSlice(sb, blocks, dinode, i, at, m);
      var ok, b := Bmap(i, at / BSIZE, BlocksFor(ip[i].size));
      part := blocks[b][at % BSIZE..at % BSIZE + m];
    }

    /** One turn of writei's loop: bread(bmap(..)), memmove, log_write. */
    method WritePart(i: nat, at: nat, part: seq<byte>, ghost n: nat) returns (ok: bool, addr: nat)
      requires Editing(i) && NoHoles(blocks, ip[i], n) && at / BSIZE < MAXFILE && at / BSIZE <= n
      requires at % BSIZE + |part| <= BSIZE
      modifies `blocks, `ip, `logged
      ensures Area() == old(Area())
      ensures ok ==> Room() + SlotsFor(Max(n, at / BSIZE + 1)) == old(Room()) + SlotsFor(n)
      ensures !ok ==> old(Room()) + SlotsFor(n) < SlotsFor(Max(n, at / BSIZE + 1))
      ensures at / BSIZE < n ==> ok && ip == old(ip)
      ensures ok ==> Editing(i) && NoHoles(blocks, ip[i], Max(n, at / BSIZE + 1))
      ensures ok ==> ip == old(ip)[i := ip[i]] && ip[i] == old(ip[i]).(addrs := ip[i].addrs)
      ensures ok ==> OthersKept(old(blocks), blocks, dinode[i := old(ip[i])], i)
      ensures ok ==> PartWritten(old(blocks), old(ip[i]), blocks, ip[i], at, part, n)
      ensures ok ==> logged <= old(logged) + Bitmap(sb) + Root(ip[i]) + {addr} && Root(old(ip[i])) <= Root(ip[i])
    {
      hide Conserved, OthersKept, Slot, Bitmap, Used, Word;
      ok, addr := Bmap(i, at / BSIZE, n);
      if !ok { return; }
      SlotInRange(i, SlotOf(at / BSIZE));
      ghost var d, x := blocks, ip[i];
      var o := at % BSIZE;
      var data := blocks[addr][..o] + part + blocks[addr][o + |part|..];
      StoreData(sb, blocks, Now(i), i, at / BSIZE, data);
      blocks := blocks[addr := data];
      logged := logged + {addr};
      assert old(Now(i))[i := x] == Now(i);
      OthersKeptTrans(old(blocks), d, blocks, old(Now(i)), i, x);
    }

    /** How far a write of inode i has come: it began at image d and inodes tab, and the bytes
        `done` from off on are in place. */
    ghost predicate Writing(d: Image, tab: Table, i: nat, off: nat, done: seq<byte>)
      reads `blocks, `ip, `dinode
      requires i in tab && Sized(tab[i]) && off <= tab[i].size && off + |done| <= MAXFILE * BSIZE
    {
      && Editing(i) && Shaped(tab) && dinode == tab
      && ip[i] == tab[i].(addrs := ip[i].addrs) && InodeArea(sb, blocks) == InodeArea(sb, d)
      && NoHoles(blocks, ip[i], BlocksFor(Max(tab[i].size, off + |done|)))
      && OthersKept(d, blocks, tab, i) && Spliced(d, tab[i], blocks, ip[i], off, done)
    }

    /** One turn of writei's loop moves the write on by one piece. */
    method WriteTurn(i: nat, at: nat, part: seq<byte>, ghost d: Image, ghost tab: Table, ghost off: nat,
        ghost done: seq<byte>)
      returns (ok: bool, addr: nat)
      requires i in tab && Sized(tab[i]) && off <= tab[i].size && at == off + |done|
      requires at + |part| <= MAXFILE * BSIZE && 0 < |part| <= BSIZE - at % BSIZE
      requires Writing(d, tab, i, off, done)
      modifies `blocks, `ip, `logged
      ensures ok ==> Room() + Filled(tab[i].size, at + |part|) == old(Room()) + Filled(tab[i].size, at)
      ensures !ok ==> old(Room()) + Filled(tab[i].size, at) < Filled(tab[i].size, at + |part|)
      ensures at < tab[i].size ==> ok && ip == old(ip)
      ensures ok ==> Writing(d, tab, i, off, done + part)
      ensures ok ==> i in ip && ip == old(ip)[i := ip[i]]
      ensures ok ==> |old(ip[i]).addrs| == |ip[i].addrs| == NDIRECT + 1
      ensures ok ==> logged <= old(logged) + Bitmap(sb) + Root(ip[i]) + {addr} && Root(old(ip[i])) <= Root(ip[i])
    {
      hide Bitmap, Root, Conserved, Slot, NoHoles, OthersKept, BlocksFor, PartWritten, Spliced;
      ghost var e, y, n := blocks, ip[i], BlocksFor(Max(tab[i].size, at));
      NextBlock(tab[i].size, at, |part|);
      ok, addr := WritePart(i, at, part, n);
      if !ok { return; }
      OthersKeptTrans(d, e, blocks, tab, i, y);
      PartExtends(d, tab[i], e, y, blocks, ip[i], off, done, part, n);
    }

    /** The copying loop of writei. */
    method WriteLoop(i: nat, src: seq<byte>, off: nat) returns (ok: bool, ghost data: set<nat>)
      requires Valid() && i in ip && Sized(ip[i]) && Sized(dinode[i])
      requires off <= ip[i].size && off + |src| <= MAXFILE * BSIZE
      modifies `blocks, `ip, `logged
      ensures ok <==> EnoughRoom(old(Room()), dinode[i].size, off + |src|)
      ensures off + |src| <= old(ip[i].size) ==> ok && ip == old(ip)
      ensures ok ==> Writing(old(blocks), dinode, i, off, src) && ip == old(ip)[i := ip[i]]
      ensures ok ==> Sized(ip[i]) && LogBound(logged, old(logged), sb, ip[i], data, Turns(off, |src|))
    {
      ghost var d, tab, ip0, room0, logged0 := blocks, dinode, ip, Room(), logged;
      data := {};
      WriteStarts(i, off);
      FilledGrows(tab[i].size, off, off + |src|);
      FilledGrows(tab[i].size, off, off);
      assert src[..0] == [];
      var tot := 0;
      ok := true;
      assert Underway(d, tab, ip0, room0, i, off, src, tot);
      hide Underway, Valid, Room, Filled, Writing, LogBound, Sized, Turns;
      NoTurns(logged, sb, ip[i], off);
      while tot < |src|
        invariant tot <= |src| && Underway(d, tab, ip0, room0, i, off, src, tot)
        invariant i in ip && Sized(ip[i]) && LogBound(logged, logged0, sb, ip[i], data, Turns(off, tot))
        invariant tot == 0 || tot == |src| || (off + tot) % BSIZE == 0
      {
        ok, tot, data := WriteStep(i, src, off, tot, d, tab, ip0, room0, logged0, data);
        if !ok { return; }
      }
      AllWritten(d, tab, ip0, room0, i, off, src);
    }

    /** The write of src has come to byte tot, and has used up the blocks that takes. */
    ghost predicate Underway(d: Image, tab: Table, ip0: Table, room0: nat, i: nat, off: nat, src: seq<byte>, tot: nat)
      reads this
      requires i in tab && Sized(tab[i]) && off <= tab[i].size && off + |src| <= MAXFILE * BSIZE && tot <= |src|
    {
      && i in ip && ip == ip0[i := ip[i]] && (off + tot <= tab[i].size ==> ip == ip0)
      && Writing(d, tab, i, off, src[..tot])
      && Room() + Filled(tab[i].size, off + tot) == room0 + Filled(tab[i].size, tab[i].size)
    }

    /** A turn of the loop, on the whole of src. */
    method WriteStep(i: nat, src: seq<byte>, off: nat, tot: nat, ghost d: Image, ghost tab: Table, ghost ip0: Table,
        ghost room0: nat, ghost logged0: set<nat>, ghost data: set<nat>)
        returns (ok: bool, next: nat, ghost data': set<nat>)
      requires i in tab && Sized(tab[i]) && off <= tab[i].size && off + |src| <= MAXFILE * BSIZE && tot < |src|
      requires Underway(d, tab, ip0, room0, i, off, src, tot)
      requires i in ip && Sized(ip[i]) && LogBound(logged, logged0, sb, ip[i], data, Turns(off, tot))
      requires tot == 0 || (off + tot) % BSIZE == 0
      modifies `blocks, `ip, `logged
      ensures tot < next <= |src|
      ensures if ok then Underway(d, tab, ip0, room0, i, off, src, next)
              else !EnoughRoom(room0, tab[i].size, off + |src|)
      ensures ok ==> i in ip && Sized(ip[i]) && LogBound(logged, logged0, sb, ip[i], data', Turns(off, next))
      ensures next == |src| || (off + next) % BSIZE == 0
    {
      hide Writing, Room, Filled, LogBound;
      ghost var logged1, x := logged, ip[i];
      var m := Min(|src| - tot, BSIZE - (off + tot) % BSIZE);
      next := tot + m;
      FilledGrows(tab[i].size, off + next, off + |src|);
      TakeMore(src, tot, m);
      var addr;
      ok, addr := WriteTurn(i, off + tot, src[tot..next], d, tab, off, src[..tot]);
      data' := data + {addr};
      if ok {
        SizeSame(d, tab, i, off, src[..next]);
        OneTurn(off, tot, m);
        LogMore(logged, logged1, logged0, sb, x, ip[i], data, addr, Turns(off, tot));
      }
    }

    lemma SizeSame(d: Image, tab: Table, i: nat, off: nat, done: seq<byte>)
      requires i in tab && Sized(tab[i]) && off <= tab[i].size && off + |done| <= MAXFILE * BSIZE
      requires Writing(d, tab, i, off, done)
      ensures i in ip && Sized(ip[i])
    {
    }

    lemma AllWritten(d: Image, tab: Table, ip0: Table, room0: nat, i: nat, off: nat, src: seq<byte>)
      requires i in tab && Sized(tab[i]) && off <= tab[i].size && off + |src| <= MAXFILE * BSIZE
      requires Underway(d, tab, ip0, room0, i, off, src, |src|)
      ensures EnoughRoom(room0, tab[i].size, off + |src|)
      ensures off + |src| <= tab[i].size ==> ip == ip0
      ensures Writing(d, tab, i, off, src) && i in ip && ip == ip0[i := ip[i]]
    {
      hide Writing, Filled;
      assert src[..|src|] == src;
    }

    lemma WriteStarts(i: nat, off: nat)
      requires Valid() && i in ip && Sized(ip[i]) && Sized(dinode[i]) && off <= ip[i].size
      ensures Writing(blocks, dinode, i, off, [])
    {
      assert dinode[i := ip[i]] == dinode;
      assert NoHoles(blocks, dinode[i], BlocksFor(dinode[i].size));
    }

    /** iupdate: the inode cache is write-through. The inode goes to its place in its block, and
        every other inode of that block, like every other block, stays. */
    method Iupdate(i: nat)
      requires i in ip && i in dinode && Fits(ip[i]) && Geometry(sb, blocks) && dinode == Inodes(sb, blocks)
      modifies `blocks, `dinode, `logged
      ensures OnlyInodes(sb, old(blocks), blocks)
      ensures dinode == Inodes(sb, blocks) == old(dinode)[i := ip[i]]
      ensures logged == old(logged) + {InodeBlock(sb, i)}
    {
      InodeStored(sb, blocks, i, ip[i]);
      hide Put, Inodes, Fits;
      var b := InodeBlock(sb, i);
      blocks := blocks[b := Put(blocks[b], i % IPB, ip[i])];
      dinode := dinode[i := ip[i]];
      logged := logged + {b};
    }

    /** writei, device or not. After `Written` the file is the old one with src spliced in at off,
        every other file is as it was, and the file system is sound again; after an error or a
        write to a device nothing has changed. `OutOfBlocks`, the panic of balloc, comes exactly if
        the blocks the file has to gain are more than there are free. */
    method Writei(i: nat, src: seq<byte>, off: nat) returns (r: WriteResult)
      requires Valid() && i in ip && off < UINT && |src| < UINT
      modifies `blocks, `ip, `dinode, `logged
      ensures Sized(old(ip[i]))
      ensures r.ToDevice? <==> old(ip[i].kind) == T_DEV
      ensures r.WriteError? <==>
        old(ip[i].kind) != T_DEV && (off > old(ip[i].size) || off + |src| > MAXFILE * BSIZE)
      ensures r.ToDevice? || r.WriteError? ==> blocks == old(blocks) && ip == old(ip) && dinode == old(dinode)
      ensures old(ip[i].kind) != T_DEV && off <= old(ip[i].size) && off + |src| <= MAXFILE * BSIZE ==>
        (r.OutOfBlocks? <==> !EnoughRoom(old(Room()), old(ip[i].size), off + |src|))
      ensures r.Written? ==> Valid() && r.n == |src| && ip.Keys == old(ip.Keys)
      ensures r.Written? ==> WroteFile(old(blocks), old(dinode), blocks, dinode, i, off, src)
      ensures r.Written? ==> Did(sb, old(blocks), blocks, WriteFile(i, off, src))
      ensures r.Written? ==> |logged - old(logged)| <= |Bitmap(sb)| + 2 + Turns(off, |src|)
    {
      hide Inodes, Sound, WroteFile;
      SizeFits(sb, blocks, dinode, i);
      if ip[i].kind == T_DEV { return ToDevice; }
      if off > ip[i].size || (off + |src|) % UINT < off { return WriteError; }
      if (off + |src|) % UINT > MAXFILE * BSIZE { return WriteError; }
      var ok := WriteInRange(i, src, off);
      return if ok then Written(|src|) else OutOfBlocks;
    }

    /** writei once the range has been checked: the loop, and the size update. */
    method WriteInRange(i: nat, src: seq<byte>, off: nat) returns (ok: bool)
      requires Valid() && i in ip && Sized(ip[i]) && off <= ip[i].size && off + |src| <= MAXFILE * BSIZE
      modifies `blocks, `ip, `dinode, `logged
      ensures ok <==> EnoughRoom(old(Room()), old(ip[i].size), off + |src|)
      ensures ok ==> Valid() && ip.Keys == old(ip.Keys)
      ensures ok ==> WroteFile(old(blocks), old(dinode), blocks, dinode, i, off, src)
      ensures ok ==> |logged - old(logged)| <= |Bitmap(sb)| + 2 + Turns(off, |src|)
    {
      ghost var d, tab, logged0 := blocks, dinode, logged;
      hide NoHoles, OthersKept, Spliced, Content, Splice, WroteFile, Conserved, LogBound, Turns, Bitmap, Sound, Inodes;
      hide Writing;
      ghost var data;
      ok, data := WriteLoop(i, src, off);
      if !ok { return; }
      LogCount(logged, logged0, sb, ip[i], data, Turns(off, |src|), InodeBlock(sb, i));
      ghost var e := blocks;
      LoopFinishes(d, tab, i, off, src);
      UpdateSize(i, |src|, off);
      WrittenBack(sb, d, tab, e, dinode, blocks, i, off, src);
    }

    /** With the new size, what the loop has written is the write of src. */
    lemma LoopFinishes(d: Image, tab: Table, i: nat, off: nat, src: seq<byte>)
      requires Sound(sb, d, tab) && i in tab && Sized(tab[i])
      requires off <= tab[i].size && off + |src| <= MAXFILE * BSIZE && Writing(d, tab, i, off, src)
      requires tab == Inodes(sb, d)
      ensures i in ip && dinode == tab == Inodes(sb, blocks) && ip[i].size == tab[i].size && ip[i].kind == tab[i].kind
      ensures Geometry(sb, blocks) && Fits(ip[i].(size := Max(tab[i].size, off + |src|)))
      ensures var tab' := tab[i := ip[i].(size := Max(tab[i].size, off + |src|))];
              Sound(sb, blocks, tab') && WroteFile(d, tab, blocks, tab', i, off, src)
    {
      hide NoHoles, OthersKept, Spliced, Content, Splice, WroteFile, Decode, InodeArea;
      assert Geometry(sb, blocks) && Now(i) == tab[i := ip[i]];
      hide Conserved;
      ResizeConserves(sb, blocks, tab[i := ip[i]], i, Max(tab[i].size, off + |src|));
      assert tab[i := ip[i]][i := ip[i].(size := Max(tab[i].size, off + |src|))]
        == tab[i := ip[i].(size := Max(tab[i].size, off + |src|))];
      WriteFinishes(sb, d, tab, blocks, ip[i], i, off, src);
      InodeFits(sb, blocks, tab, i, ip[i].(size := Max(tab[i].size, off + |src|)));
    }

    /** The end of writei: the size goes up, in memory and on disk, if n bytes at off reach beyond it. */
    method UpdateSize(i: nat, n: nat, off: nat)
      requires i in ip && i in dinode && off <= ip[i].size
      requires off + n <= ip[i].size ==> dinode[i] == ip[i]
      requires Geometry(sb, blocks) && dinode == Inodes(sb, blocks) && Fits(ip[i].(size := Max(ip[i].size, off + n)))
      modifies `blocks, `ip, `dinode, `logged
      ensures OnlyInodes(sb, old(blocks), blocks)
      ensures ip == old(ip)[i := old(ip[i]).(size := Max(old(ip[i].size), off + n))]
      ensures dinode == Inodes(sb, blocks) == old(dinode)[i := ip[i]]
      ensures logged == old(logged) || logged == old(logged) + {InodeBlock(sb, i)}
    {
      if n > 0 && off + n > ip[i].size {
        ip := ip[i := ip[i].(size := off + n)];
        Iupdate(i);
      }
    }

    /** In the middle of truncating inode i of image d and inodes tab: the bits of the blocks in the
        first n slots to be freed are clear, all else in the free map is as it was. */
    ghost predicate Truncating(d: Image, tab: Table, i: nat, n: nat)
      reads `blocks, `dinode
      requires i in tab && Shaped(tab)
    {
      && Geometry(sb, d) && Geometry(sb, blocks) && |blocks| == |d| && dinode == tab
      && InodeArea(sb, blocks) == InodeArea(sb, d)
      && (forall c: nat :: c < sb.size ==> (Used(sb, blocks, c) <==> Used(sb, d, c) && !Freed(d, tab, i, n, c)))
      && forall c: nat :: sb.nmeta <= c < |d| ==> blocks[c] == d[c]
    }

    /** `bfree(ip->dev, b)` of the next slot: never the "freeing free block" panic. */
    method FreeSlot(i: nat, k: nat, b: nat, ghost d: Image, ghost tab: Table)
      requires i in tab && Shaped(tab) && Conserved(sb, d, tab) && k < NSLOTS && Truncating(d, tab, i, Rank(k))
      requires b == Slot(d, tab[i], k) != 0
      modifies `blocks, `logged
      ensures Truncating(d, tab, i, Rank(k) + 1) && logged <= old(logged) + Bitmap(sb)
    {
      assert Owns(d, tab, i, k, b);
      assert forall m: nat :: Owns(d, tab, i, m, b) ==> m == k;
      var panic := Bfree(b);
      assert !panic;
      FreedMore(d, tab, i, k);
    }

    /** itrunc: every block of the file goes back to the free map, and no other. */
    method Itrunc(i: nat)
      requires Valid() && i in ip
      modifies `blocks, `ip, `dinode, `logged
      ensures Valid() && ip == old(ip)[i := old(ip[i]).(size := 0, addrs := NoBlocks())]
      ensures TruncatedFile(sb, old(blocks), old(dinode), blocks, dinode, i)
      ensures Did(sb, old(blocks), blocks, Truncate(i))
      ensures logged <= old(logged) + Bitmap(sb) + {InodeBlock(sb, i)}
    {
      hide Sound, Truncating, TruncatedFile, Conserved, Bitmap, Inodes, Fits, NoBlocks;
      ghost var d, tab := blocks, dinode;
      TruncationStarts(i);
      FreeAll(i, d, tab);
      FinishTruncation(i, d, tab);
      ghost var e := blocks;
      ip := ip[i := ip[i].(size := 0)];
      Iupdate(i);
      TruncatedBack(sb, d, tab, e, dinode, blocks, i);
    }

    /** ilock, past its sleep-lock: the inode is in memory; `panic` is "ilock" or "ilock: no type". */
    method Ilock(i: nat) returns (panic: bool)
      requires Valid() && i in dinode
      modifies `ip
      ensures Valid()
      ensures panic <==> i !in ref || ref[i] < 1 || (i !in old(ip) && dinode[i].kind == 0)
      ensures !panic ==> ip == old(ip)[i := dinode[i]]
    {
      hide Sound, Inodes, Get;
      OnDisk(i);
      if i !in ref || ref[i] < 1 { return true; }
      if i !in ip {
        ip := ip[i := Get(blocks[InodeBlock(sb, i)], i % IPB)];
        return ip[i].kind == 0;
      }
      return false;
    }

    /** Where ilock finds the inode. */
    lemma OnDisk(i: nat)
      requires Valid() && i in dinode
      ensures InodeBlock(sb, i) < |blocks| && Get(blocks[InodeBlock(sb, i)], i % IPB) == dinode[i]
    {
      hide Get;
    }

    /** iput: the last reference to an inode without links frees the inode and all its blocks. */
    method Iput(i: nat) returns (ghost freed: bool)
      requires Valid() && i in dinode && i in ref && ref[i] >= 1
      modifies `blocks, `ip, `dinode, `ref, `logged
      ensures Valid() && ref == old(ref)[i := old(ref[i]) - 1]
      ensures freed <==> i in old(ip) && old(ip[i].nlink) == 0 && old(ref[i]) == 1
      ensures !freed ==> blocks == old(blocks) && ip == old(ip) && dinode == old(dinode)
      ensures freed ==> TruncatedFile(sb, old(blocks), old(dinode), blocks, dinode, i)
      ensures freed ==> Did(sb, old(blocks), blocks, Truncate(i))
      ensures freed ==> ip == old(ip) - {i} && i in dinode && dinode[i].kind == dinode[i].size == 0
      ensures |logged - old(logged)| <= |Bitmap(sb)| + 1
    {
      hide Sound, TruncatedFile, Content, Inodes;
      freed := false;
      if i in ip && ip[i].nlink == 0 && ref[i] == 1 {
        FreeInode(i);
        freed := true;
      }
      ref := ref[i := ref[i] - 1];
    }

    lemma StillFits(i: nat)
      requires Valid() && i in dinode
      ensures Geometry(sb, blocks) && Fits(dinode[i].(kind := 0))
    {
      hide Inodes;
      SizeFits(sb, blocks, dinode, i);
      assert dinode[i := dinode[i]] == dinode;
      hide NoHoles, Slot;
      InodeFits(sb, blocks, dinode, i, dinode[i]);
    }

    /** What iput does to an inode that nothing refers to any more. */
    method FreeInode(i: nat)
      requires Valid() && i in ip && i in dinode
      modifies `blocks, `ip, `dinode, `logged
      ensures Valid() && ip == old(ip) - {i} && i in dinode && dinode[i].kind == 0
      ensures TruncatedFile(sb, old(blocks), old(dinode), blocks, dinode, i)
      ensures dinode[i].size == 0
      ensures |logged - old(logged)| <= |Bitmap(sb)| + 1
    {
      hide Sound, TruncatedFile, Content, Bitmap, Inodes, Fits;
      ghost var logged0 := logged;
      ghost var d, tab := blocks, dinode;
      Itrunc(i);
      ClearedKind(sb, d, tab, blocks, dinode, i);
      ghost var e := blocks;
      StillFits(i);
      ip := ip[i := ip[i].(kind := 0)];
      Iupdate(i);
      TruncatedBack(sb, d, tab, e, dinode, blocks, i);
      ip := ip - {i};
      FewLogged(logged, logged0, Bitmap(sb), {InodeBlock(sb, i)});
    }

    /** The freeing part of itrunc. */
    method FreeAll(i: nat, ghost d: Image, ghost tab: Table)
      requires i in tab && Shaped(tab) && Conserved(sb, d, tab) && Truncating(d, tab, i, 0)
      requires i in ip && ip[i] == tab[i]
      modifies `blocks, `ip, `logged
      ensures Truncating(d, tab, i, NSLOTS) && ip == old(ip)[i := tab[i].(addrs := NoBlocks())]
      ensures logged <= old(logged) + Bitmap(sb)
    {
      hide Bitmap, Conserved, Slot, Truncating, Freed, Cleared, NoBlocks;
      FreeDirect(i, d, tab);
      ClearMore(tab[i], NDIRECT);
      SlotIsAddr(d, tab[i], NDIRECT);
      if ip[i].addrs[NDIRECT] != 0 {
        FreeIndirect(i, d, tab);
        FreeSlot(i, NDIRECT, ip[i].addrs[NDIRECT], d, tab);
        ip := ip[i := ip[i].(addrs := ip[i].addrs[NDIRECT := 0])];
      } else {
        NoRootNoSlots(d, tab, i);
        SkipRest(i, d, tab);
      }
    }

    lemma TruncationStarts(i: nat)
      requires i in dinode && Sound(sb, blocks, dinode)
      ensures Shaped(dinode) && Conserved(sb, blocks, dinode) && Truncating(blocks, dinode, i, 0)
    {
    }

    lemma SkipRest(i: nat, d: Image, tab: Table)
      requires i in tab && Shaped(tab) && Truncating(d, tab, i, NDIRECT)
      requires forall c: nat :: Freed(d, tab, i, NSLOTS, c) <==> Freed(d, tab, i, NDIRECT, c)
      ensures Truncating(d, tab, i, NSLOTS)
    {
    }

    lemma FinishTruncation(i: nat, d: Image, tab: Table)
      requires i in tab && Shaped(tab) && Truncating(d, tab, i, NSLOTS) && Sound(sb, d, tab)
      requires tab == Inodes(sb, d)
      ensures Geometry(sb, blocks) && dinode == tab == Inodes(sb, blocks)
      ensures Fits(tab[i].(size := 0, addrs := NoBlocks()))
      ensures var tab' := tab[i := tab[i].(size := 0, addrs := NoBlocks())];
              Sound(sb, blocks, tab') && TruncatedFile(sb, d, tab, blocks, tab', i)
    {
      TruncationEnds(sb, d, tab, blocks, i);
      InodeFits(sb, blocks, tab, i, tab[i].(size := 0, addrs := NoBlocks()));
    }

    /** itrunc's first loop. */
    method FreeDirect(i: nat, ghost d: Image, ghost tab: Table)
      requires i in tab && Shaped(tab) && Conserved(sb, d, tab) && Truncating(d, tab, i, 0)
      requires i in ip && ip[i] == tab[i]
      modifies `blocks, `ip, `logged
      ensures Truncating(d, tab, i, NDIRECT)
      ensures ip == old(ip)[i := Cleared(tab[i], NDIRECT)]
      ensures logged <= old(logged) + Bitmap(sb)
    {
      hide Bitmap, Conserved, Slot, Truncating, Cleared;
      ClearMore(tab[i], 0);
      var k := 0;
      while k < NDIRECT
        invariant k <= NDIRECT && Truncating(d, tab, i, k)
        invariant ip == old(ip)[i := Cleared(tab[i], k)]
        invariant logged <= old(logged) + Bitmap(sb)
      {
        SlotIsAddr(d, tab[i], k);
        ClearMore(tab[i], k);
        if ip[i].addrs[k] != 0 {
          FreeSlot(i, k, ip[i].addrs[k], d, tab);
          ip := ip[i := ip[i].(addrs := ip[i].addrs[k := 0])];
        } else {
          SkipSlot(i, k, d, tab);
        }
        k := k + 1;
      }
    }

    /** itrunc's second loop, over the words of the indirect root. */
    method FreeIndirect(i: nat, ghost d: Image, ghost tab: Table)
      requires i in tab && Shaped(tab) && Conserved(sb, d, tab) && Truncating(d, tab, i, NDIRECT)
      requires i in ip && |ip[i].addrs| == NDIRECT + 1 && ip[i].addrs[NDIRECT] == tab[i].addrs[NDIRECT] != 0
      modifies `blocks, `logged
      ensures Truncating(d, tab, i, Rank(NDIRECT)) && logged <= old(logged) + Bitmap(sb)
    {
      hide Bitmap, Conserved, Slot, Truncating;
      SlotsOfRoot(sb, d, tab, i);
      RootStill(i, d, tab);
      var a := blocks[ip[i].addrs[NDIRECT]];
      var j := 0;
      while j < NINDIRECT
        invariant j <= NINDIRECT && Truncating(d, tab, i, NDIRECT + j) && logged <= old(logged) + Bitmap(sb)
      {
        if Word(a, j) != 0 {
          FreeSlot(i, NDIRECT + 1 + j, Word(a, j), d, tab);
        } else {
          SkipSlot(i, NDIRECT + 1 + j, d, tab);
        }
        j := j + 1;
      }
    }

    lemma RootStill(i: nat, d: Image, tab: Table)
      requires i in tab && Shaped(tab) && Truncating(d, tab, i, NDIRECT) && sb.nmeta <= tab[i].addrs[NDIRECT] < |d|
      ensures |blocks| == |d| && blocks[tab[i].addrs[NDIRECT]] == d[tab[i].addrs[NDIRECT]]
    {
    }

    lemma SkipSlot(i: nat, k: nat, d: Image, tab: Table)
      requires i in tab && Shaped(tab) && k < NSLOTS && Truncating(d, tab, i, Rank(k)) && Slot(d, tab[i], k) == 0
      ensures Truncating(d, tab, i, Rank(k) + 1)
    {
      FreedMore(d, tab, i, k);
    }

    lemma SlotInRange(i: nat, k: nat)
      requires Editing(i) && k < NSLOTS
      ensures Geometry(sb, blocks)
      ensures Slot(blocks, ip[i], k) != 0 ==> sb.nmeta <= Slot(blocks, ip[i], k) < sb.size <= |blocks|
    {
      assert Slot(blocks, ip[i], k) != 0 ==> Owns(blocks, Now(i), i, k, Slot(blocks, ip[i], k));
    }
  }

  /** The books balance, no file has a hole, no block two owners: with the inodes as they are on disk. */
  ghost predicate Consistent(sb: Super, d: Image) {
    Sound(sb, d, Inodes(sb, d))
  }

  /** A successful writei, or an itrunc or iput that empties the inode. */
  datatype Call = WriteFile(i: nat, off: nat, src: seq<byte>) | Truncate(i: nat)

  /** The image e is d after the call, and consistent again. */
  ghost predicate Did(sb: Super, d: Image, e: Image, call: Call) {
    && Consistent(sb, e)
    && match call
       case WriteFile(i, off, src) => WroteFile(d, Inodes(sb, d), e, Inodes(sb, e), i, off, src)
       case Truncate(i) =>
         i in Inodes(sb, e) && Inodes(sb, e)[i].size == 0 && TruncatedFile(sb, d, Inodes(sb, d), e, Inodes(sb, e), i)
  }

  /** Once iupdate has brought the inode to disk, a write of its file is complete. */
  lemma WrittenBack(sb: Super, d: Image, tab: Table, e: Image, tab': Table, f: Image, i: nat, off: nat, src: seq<byte>)
    requires Sound(sb, e, tab') && WroteFile(d, tab, e, tab', i, off, src) && OnlyInodes(sb, e, f)
    ensures Sound(sb, f, tab') && WroteFile(d, tab, f, tab', i, off, src)
  {
    MetaFrameSound(sb, e, f, tab');
    hide Sound, Content, Splice;
  }

  /** So is a truncation. */
  lemma TruncatedBack(sb: Super, d: Image, tab: Table, e: Image, tab': Table, f: Image, i: nat)
    requires Sound(sb, e, tab') && TruncatedFile(sb, d, tab, e, tab', i) && OnlyInodes(sb, e, f)
    ensures Sound(sb, f, tab') && TruncatedFile(sb, d, tab, f, tab', i)
  {
    MetaFrame(sb, e, f, tab');
    MetaFrameSound(sb, e, f, tab');
    hide Content, Slot, NoHoles;
  }

  lemma InBitmap(sb: Super, b: nat)
    requires b < sb.size
    ensures sb.bmapstart + b / BPB in Bitmap(sb)
  {
  }

  /** The turns of writei's loop for n bytes from off on: one for each block they lie in. */
  function Turns(off: nat, n: nat): nat {
    if n == 0 then 0 else (off + n - 1) / BSIZE - off / BSIZE + 1
  }

  lemma OneTurn(off: nat, tot: nat, m: nat)
    requires tot == 0 || (off + tot) % BSIZE == 0
    requires 0 < m <= BSIZE - (off + tot) % BSIZE
    ensures Turns(off, tot + m) == Turns(off, tot) + 1
  {
  }

  /** What a write has logged: the free map, the indirect root, and k data blocks at most. */
  ghost predicate LogBound(logged: set<nat>, logged0: set<nat>, sb: Super, x: Inode, data: set<nat>, k: nat)
    requires Sized(x)
  {
    logged <= logged0 + Bitmap(sb) + Root(x) + data && |data| <= k
  }

  lemma NoTurns(logged: set<nat>, sb: Super, x: Inode, off: nat)
    requires Sized(x)
    ensures LogBound(logged, logged, sb, x, {}, Turns(off, 0))
  {
  }

  lemma LogMore(logged: set<nat>, logged1: set<nat>, logged0: set<nat>, sb: Super, x: Inode, y: Inode, data: set<nat>,
      addr: nat, k: nat)
    requires Sized(x) && Sized(y) && LogBound(logged1, logged0, sb, x, data, k) && Root(x) <= Root(y)
    requires logged <= logged1 + Bitmap(sb) + Root(y) + {addr}
    ensures LogBound(logged, logged0, sb, y, data + {addr}, k + 1)
  {
    hide Bitmap;
    Fewer(data + {addr}, data + ({addr} - data));
  }

  lemma FewLogged(logged: set<nat>, logged0: set<nat>, a: set<nat>, b: set<nat>)
    requires logged <= logged0 + a + b
    ensures |logged - logged0| <= |a| + |b|
  {
    Fewer(logged - logged0, a + (b - a));
    Fewer(b - a, b);
  }

  lemma LogCount(logged: set<nat>, logged0: set<nat>, sb: Super, x: Inode, data: set<nat>, k: nat, inode: nat)
    requires Sized(x) && LogBound(logged, logged0, sb, x, data, k)
    ensures |logged - logged0| <= |Bitmap(sb)| + 2 + k && |logged + {inode} - logged0| <= |Bitmap(sb)| + 2 + k
  {
    hide Bitmap;
    FewLogged(logged + {inode}, logged0, Bitmap(sb), Root(x) + data + {inode});
    FewLogged(Root(x) + data + {inode}, {}, Root(x) + {inode}, data);
    Fewer(logged - logged0, logged + {inode} - logged0);
    FewLogged(Root(x) + {inode}, {}, Root(x), {inode});
    assert Root(x) + data + {inode} - {} == Root(x) + data + {inode};
    assert Root(x) + {inode} - {} == Root(x) + {inode};
  }

  /** A writei of one piece of filewrite, 1536 bytes, stays below MAXOPBLOCKS with the free map of
      any disk up to 12288 blocks; so does the iput of a file. */
  lemma WithinBudget(sb: Super, off: nat, n: nat)
    requires n <= 1536 && sb.size <= 3 * BPB
    ensures |Bitmap(sb)| + 2 + Turns(off, n) <= 9 && |Bitmap(sb)| + 1 <= 9
  {
    hide Bitmap, Turns;
    SmallBitmap(sb);
    FewTurns(off, n);
  }

  lemma SmallBitmap(sb: Super)
    requires sb.size <= 3 * BPB
    ensures |Bitmap(sb)| <= 3
  {
    hide Span;
    var k := (sb.size + BPB - 1) / BPB;
    SpanSize(sb.bmapstart, sb.bmapstart + k);
    assert |Span(sb.bmapstart, sb.bmapstart + k)| == k;
  }

  lemma FewTurns(off: nat, n: nat)
    requires n <= 1536
    ensures Turns(off, n) <= 4
  {
  }

  /** How many slots a file of this size fills once it has been written up to `to`. */
  function Filled(size: nat, to: nat): nat {
    SlotsFor(BlocksFor(Max(size, to)))
  }

  /** The free blocks suffice for writing a file of this size up to `to`, indirect root included. */
  predicate EnoughRoom(room: nat, size: nat, to: nat) {
    room + Filled(size, size) >= Filled(size, to)
  }

  lemma FilledGrows(size: nat, a: nat, b: nat)
    requires a <= b
    ensures Filled(size, a) <= Filled(size, b) && (a <= size ==> Filled(size, a) == Filled(size, size))
  {
  }

  lemma GrowthKept(sb: Super, d: Image, tab: Table, e: Image, i: nat, y: Inode, k: nat, b: nat, n: nat)
    requires Conserved(sb, d, tab) && i in tab && |y.addrs| == NDIRECT + 1 && n <= MAXFILE
    requires Grew(sb, d, tab[i], e, y, k, b) && DataUpTo(d, tab[i], n)
    ensures Conserved(sb, e, tab[i := y]) && OthersKept(d, e, tab, i) && BytesKept(d, tab[i], e, y, n)
  {
    GrowthConserves(sb, d, tab, e, i, y, k, b);
    GrowthKeepsOthers(sb, d, tab, e, i, y, k, b);
    GrowthKeepsBytes(sb, d, tab, e, i, y, k, b, n);
  }

  /** The order in which itrunc frees an inode's slots: direct, then indirect, then the root. */
  function Rank(k: nat): nat {
    if k < NDIRECT then k else if k == NDIRECT then NSLOTS - 1 else k - 1
  }

  predicate FreedAt(d: Image, tab: Table, i: nat, n: nat, c: nat, m: nat)
    requires Shaped(tab)
  {
    Rank(m) < n && Owns(d, tab, i, m, c)
  }

  /** Block c is in one of the first n slots of inode i to be freed. */
  ghost predicate Freed(d: Image, tab: Table, i: nat, n: nat, c: nat)
    requires Shaped(tab)
  {
    exists m: nat :: FreedAt(d, tab, i, n, c, m)
  }

  lemma FreedMore(d: Image, tab: Table, i: nat, k: nat)
    requires Shaped(tab) && i in tab && k < NSLOTS
    ensures forall c: nat :: Freed(d, tab, i, Rank(k) + 1, c) <==>
                             Freed(d, tab, i, Rank(k), c) || (c != 0 && c == Slot(d, tab[i], k))
  {
    var n := Rank(k);
    forall c: nat
      ensures Freed(d, tab, i, n + 1, c) <==> Freed(d, tab, i, n, c) || (c != 0 && c == Slot(d, tab[i], k)) {
      assert FreedAt(d, tab, i, n + 1, c, k) <==> (c != 0 && c == Slot(d, tab[i], k));
      if Freed(d, tab, i, n + 1, c) {
        var m: nat :| FreedAt(d, tab, i, n + 1, c, m);
        assert m == k || FreedAt(d, tab, i, n, c, m);
      }
      if Freed(d, tab, i, n, c) {
        var m: nat :| FreedAt(d, tab, i, n, c, m);
        assert FreedAt(d, tab, i, n + 1, c, m);
      }
    }
  }

  lemma SlotIsAddr(d: Image, x: Inode, k: nat)
    requires |x.addrs| == NDIRECT + 1 && k <= NDIRECT
    ensures Slot(d, x, k) == x.addrs[k]
  {
  }

  lemma SlotsOfRoot(sb: Super, d: Image, tab: Table, i: nat)
    requires Conserved(sb, d, tab) && i in tab && tab[i].addrs[NDIRECT] != 0
    ensures sb.nmeta <= tab[i].addrs[NDIRECT] < |d|
    ensures forall j :: 0 <= j < NINDIRECT ==> Slot(d, tab[i], NDIRECT + 1 + j) == Word(d[tab[i].addrs[NDIRECT]], j)
  {
    assert Owns(d, tab, i, NDIRECT, tab[i].addrs[NDIRECT]);
  }

  lemma NoRootNoSlots(d: Image, tab: Table, i: nat)
    requires Shaped(tab) && i in tab && tab[i].addrs[NDIRECT] == 0
    ensures forall c: nat :: Freed(d, tab, i, NSLOTS, c) <==> Freed(d, tab, i, NDIRECT, c)
  {
    forall c: nat ensures Freed(d, tab, i, NSLOTS, c) <==> Freed(d, tab, i, NDIRECT, c) {
      assert forall m: nat :: FreedAt(d, tab, i, NSLOTS, c, m) <==> FreedAt(d, tab, i, NDIRECT, c, m);
    }
  }

  /** The inode with its first k direct entries cleared. */
  function Cleared(x: Inode, k: nat): Inode
    requires |x.addrs| == NDIRECT + 1 && k <= NDIRECT
  {
    x.(addrs := seq(k, _ => 0) + x.addrs[k..])
  }

  lemma ClearMore(x: Inode, k: nat)
    requires |x.addrs| == NDIRECT + 1 && k <= NDIRECT
    ensures var y := Cleared(x, k);
            |y.addrs| == NDIRECT + 1 && y.addrs[k] == x.addrs[k] && Cleared(x, 0) == x
    ensures k < NDIRECT ==> Cleared(x, k + 1) == Cleared(x, k).(addrs := Cleared(x, k).addrs[k := 0])
    ensures k < NDIRECT && x.addrs[k] == 0 ==> Cleared(x, k + 1) == Cleared(x, k)
    ensures k == NDIRECT ==> Cleared(x, k).(addrs := Cleared(x, k).addrs[k := 0]) == x.(addrs := NoBlocks())
    ensures k == NDIRECT && x.addrs[k] == 0 ==> Cleared(x, k) == x.(addrs := NoBlocks())
  {
  }

  function NoBlocks(): seq<nat> {
    seq(NDIRECT + 1, _ => 0)
  }

  /** Exactly inode i's blocks have been freed, and no other file has changed. */
  ghost predicate TruncatedFile(sb: Super, d: Image, tab: Table, e: Image, tab': Table, i: nat) {
    && Geometry(sb, d) && Geometry(sb, e) && Shaped(tab) && tab'.Keys == tab.Keys
    && (forall j :: j in tab && j != i ==> SameFile(d, tab[j], e, tab'[j]))
    && forall c: nat :: c < sb.size ==> (Used(sb, e, c) <==> Used(sb, d, c) && !exists k :: Owns(d, tab, i, k, c))
  }

  lemma TruncationEnds(sb: Super, d: Image, tab: Table, e: Image, i: nat)
    requires Sound(sb, d, tab) && i in tab && Geometry(sb, e) && |e| == |d|
    requires forall c: nat :: c < sb.size ==> (Used(sb, e, c) <==> Used(sb, d, c) && !Freed(d, tab, i, NSLOTS, c))
    requires forall c: nat :: sb.nmeta <= c < |d| ==> e[c] == d[c]
    ensures var tab' := tab[i := tab[i].(size := 0, addrs := NoBlocks())];
            Sound(sb, e, tab') && TruncatedFile(sb, d, tab, e, tab', i)
  {
    var tab' := tab[i := tab[i].(size := 0, addrs := NoBlocks())];
    forall c: nat | c < sb.size ensures Freed(d, tab, i, NSLOTS, c) <==> exists k :: Owns(d, tab, i, k, c) {
      assert forall k: nat :: Owns(d, tab, i, k, c) <==> FreedAt(d, tab, i, NSLOTS, c, k);
    }
    forall j | j in tab && j != i
      ensures SameFile(d, tab[j], e, tab'[j]) && NoHoles(e, tab'[j], BlocksFor(tab'[j].size))
      ensures forall m :: 0 <= m < NSLOTS ==> Slot(e, tab'[j], m) == Slot(d, tab[j], m)
    {
      SizeFits(sb, d, tab, j);
      forall k | 0 <= k < NSLOTS && 0 < Slot(d, tab[j], k) < |d|
        ensures e[Slot(d, tab[j], k)] == d[Slot(d, tab[j], k)] {
        assert Owns(d, tab, j, k, Slot(d, tab[j], k));
      }
      FileFrame(d, e, tab[j]);
    }
    Release(sb, d, tab, e, tab', i);
  }

  /** Freeing an emptied inode itself leaves everything else as it is. */
  lemma ClearedKind(sb: Super, d: Image, tab: Table, e: Image, tab': Table, i: nat)
    requires Sound(sb, e, tab') && i in tab' && tab'[i].size == 0 && TruncatedFile(sb, d, tab, e, tab', i)
    ensures var tab2 := tab'[i := tab'[i].(kind := 0)];
            Sound(sb, e, tab2) && TruncatedFile(sb, d, tab, e, tab2, i)
  {
    var tab2 := tab'[i := tab'[i].(kind := 0)];
    hide Content, Used;
    assert forall k :: 0 <= k < NSLOTS ==> Slot(e, tab2[i], k) == Slot(e, tab'[i], k);
    assert forall j: nat, k: nat, b: nat :: Owns(e, tab2, j, k, b) <==> Owns(e, tab', j, k, b);
  }

  /** Where the next piece of a write goes: into the last block so far or the one after it. */
  lemma NextBlock(size: nat, at: nat, m: nat)
    requires at + m <= MAXFILE * BSIZE && size <= MAXFILE * BSIZE && 0 < m <= BSIZE - at % BSIZE
    ensures at / BSIZE < MAXFILE && at / BSIZE <= BlocksFor(Max(size, at))
    ensures at < size ==> at / BSIZE < BlocksFor(Max(size, at))
    ensures Max(BlocksFor(Max(size, at)), at / BSIZE + 1) == BlocksFor(Max(size, at + m)) <= MAXFILE
  {
  }

  lemma PartExtends(d: Image, x: Inode, e: Image, y: Inode, f: Image, z: Inode, off: nat, done: seq<byte>,
      part: seq<byte>, n: nat)
    requires |x.addrs| == |y.addrs| == |z.addrs| == NDIRECT + 1
    requires off <= x.size <= MAXFILE * BSIZE && off + |done| + |part| <= MAXFILE * BSIZE
    requires n == BlocksFor(Max(x.size, off + |done|)) <= MAXFILE
    requires Spliced(d, x, e, y, off, done) && PartWritten(e, y, f, z, off + |done|, part, n)
    ensures Spliced(d, x, f, z, off, done + part)
  {
  }

  lemma Unchanged(d: Image, tab: Table, i: nat, n: nat)
    requires Shaped(tab) && i in tab && n <= MAXFILE
    ensures OthersKept(d, d, tab, i) && BytesKept(d, tab[i], d, tab[i], n)
  {
  }

  lemma KeptTrans(d: Image, tab: Table, e: Image, y: Inode, f: Image, z: Inode, i: nat, n: nat)
    requires Shaped(tab) && i in tab && |y.addrs| == |z.addrs| == NDIRECT + 1 && n <= MAXFILE
    requires OthersKept(d, e, tab, i) && BytesKept(d, tab[i], e, y, n)
    requires OthersKept(e, f, tab[i := y], i) && BytesKept(e, y, f, z, n)
    ensures OthersKept(d, f, tab, i) && BytesKept(d, tab[i], f, z, n)
  {
    OthersKeptTrans(d, e, f, tab, i, y);
  }

  lemma IndirectGrowth(sb: Super, d: Image, tab: Table, mid: Image, i: nat, j: nat, b: nat, n: nat)
    requires Conserved(sb, d, tab) && i in tab && j < NINDIRECT && tab[i].addrs[NDIRECT] != 0
    requires Slot(d, tab[i], NDIRECT + 1 + j) == 0 && n <= MAXFILE && DataUpTo(d, tab[i], n)
    requires Geometry(sb, mid) && |mid| == |d| && sb.nmeta <= b < sb.size && !Used(sb, d, b) && mid[b] == Zeros()
    requires forall c: nat :: c < sb.size ==> (Used(sb, mid, c) <==> Used(sb, d, c) || c == b)
    requires forall c: nat :: sb.nmeta <= c < |d| && c != b ==> mid[c] == d[c]
    ensures tab[i].addrs[NDIRECT] < |d| && b < UINT
    ensures var root := tab[i].addrs[NDIRECT];
      var e := mid[root := PutWord(mid[root], j, b)];
      && Geometry(sb, e) && Grew(sb, d, tab[i], e, tab[i], NDIRECT + 1 + j, b)
      && Conserved(sb, e, tab) && OthersKept(d, e, tab, i) && BytesKept(d, tab[i], e, tab[i], n)
      && FreeBlocks(sb, e) == FreeBlocks(sb, mid)
  {
    var root := tab[i].addrs[NDIRECT];
    assert Owns(d, tab, i, NDIRECT, root);
    var e := mid[root := PutWord(mid[root], j, b)];
    assert forall c: nat :: c < sb.size ==> sb.bmapstart + c / BPB < sb.nmeta;
    assert forall c: nat :: c < sb.size ==> (Used(sb, e, c) <==> Used(sb, mid, c));
    SameFreeBlocks(sb, mid, e);
    GrewIndirect(sb, d, tab[i], e, j, b);
    hide Grew;
    GrowthKept(sb, d, tab, e, i, tab[i], NDIRECT + 1 + j, b, n);
    assert tab[i := tab[i]] == tab;
  }

  lemma GrewIndirect(sb: Super, d: Image, x: Inode, e: Image, j: nat, b: nat)
    requires Geometry(sb, d) && |x.addrs| == NDIRECT + 1 && j < NINDIRECT
    requires var root := x.addrs[NDIRECT]; sb.nmeta <= root < |d| == |e| && root != b
    requires Slot(d, x, NDIRECT + 1 + j) == 0 && Geometry(sb, e)
    requires sb.nmeta <= b < sb.size && !Used(sb, d, b) && e[b] == Zeros()
    requires e[x.addrs[NDIRECT]] == PutWord(d[x.addrs[NDIRECT]], j, b)
    requires forall c: nat :: c < sb.size ==> (Used(sb, e, c) <==> Used(sb, d, c) || c == b)
    requires forall c: nat :: sb.nmeta <= c < |d| && c != b && c != x.addrs[NDIRECT] ==> e[c] == d[c]
    ensures Grew(sb, d, x, e, x, NDIRECT + 1 + j, b)
  {
  }

  lemma GrewDirect(sb: Super, d: Image, tab: Table, e: Image, i: nat, k: nat, b: nat)
    requires Conserved(sb, d, tab) && i in tab && k <= NDIRECT && tab[i].addrs[k] == 0
    requires Geometry(sb, e) && |e| == |d| && sb.nmeta <= b < sb.size && !Used(sb, d, b) && e[b] == Zeros()
    requires forall c: nat :: c < sb.size ==> (Used(sb, e, c) <==> Used(sb, d, c) || c == b)
    requires forall c: nat :: sb.nmeta <= c < |d| && c != b ==> e[c] == d[c]
    ensures Grew(sb, d, tab[i], e, tab[i].(addrs := tab[i].addrs[k := b]), k, b)
  {
    var x := tab[i];
    var y := x.(addrs := x.addrs[k := b]);
    forall m | 0 <= m < NSLOTS && m != k ensures Slot(e, y, m) == Slot(d, x, m) {
      if m > NDIRECT {
        if k == NDIRECT {
          ZeroWord(m - NDIRECT - 1);
        } else {
          assert x.addrs[NDIRECT] != 0 ==> Owns(d, tab, i, NDIRECT, x.addrs[NDIRECT]);
        }
      }
    }
  }
}
