/** fs.c and file.c as they run on inodes and blocks: the allocator, bmap, readi, writei, itrunc and the
    chunks of filewrite, over the cached view of the disk. */
module FileSystem {
  import opened Common
  import opened FileBlocks

  const IPB: nat := 8             // inodes per block
  const CHUNK: nat := ((MAXOPBLOCKS - 1 - 1 - 2) / 2) * 512   // what filewrite writes per transaction

  datatype Mapped = At(addr: nat) | OutOfBlocks | OutOfRange

  /** Inode i has gained blocks: empty slots may have been filled with zeroed blocks, nothing else. */
  ghost predicate Grown(fs: Fs, gs: Fs, i: nat) {
    && gs.nmeta == fs.nmeta && |gs.used| == |fs.used| && |gs.inodes| == |fs.inodes| && i < |fs.inodes|
    && gs.inodes == fs.inodes[i := fs.inodes[i].(addrs := gs.inodes[i].addrs)]
    && (forall i': nat, k': nat :: IsSlot(fs, i', k') && SlotAt(fs, i', k') != 0 ==> SlotAt(gs, i', k') == SlotAt(fs, i', k'))
    && SameBytes(fs, gs)
  }

  /** Only slot k of inode i differs and, for an entry of the indirect block, perhaps that block's own slot. */
  ghost predicate OnlySlot(fs: Fs, gs: Fs, i: nat, k: nat) {
    |gs.inodes| == |fs.inodes| && forall i': nat, k': nat ::
      IsSlot(fs, i', k') && (i', k') != (i, k) && !(k >= NDIRECT && (i', k') == (i, INDIRECT)) ==> SlotAt(gs, i', k') == SlotAt(fs, i', k')
  }

  lemma OnlyKept(fs: Fs, ms: Fs, gs: Fs, i: nat, k: nat)
    requires OnlySlot(fs, ms, i, k) && SameSlots(ms, gs)
    ensures OnlySlot(fs, gs, i, k)
  {
    hide Slot;
  }

  lemma GainedOnly(fs: Fs, gs: Fs, i: nat, k: nat, b: nat)
    requires Gained(fs, gs, i, k, b)
    ensures OnlySlot(fs, gs, i, k)
  {
    hide Slot;
  }

  lemma OnlySelf(fs: Fs, i: nat, k: nat)
    ensures OnlySlot(fs, fs, i, k)
  {
  }

  /** Filled slots stay as they are. */
  ghost predicate Kept(fs: Fs, gs: Fs) {
    && gs.nmeta == fs.nmeta && |gs.used| == |fs.used| && |gs.inodes| == |fs.inodes|
    && forall i: nat, k: nat :: IsSlot(fs, i, k) && SlotAt(fs, i, k) != 0 ==> SlotAt(gs, i, k) == SlotAt(fs, i, k)
  }

  /** Only slots lo to hi of inode i differ, and perhaps that of its indirect block. */
  ghost predicate OnlyRange(fs: Fs, gs: Fs, i: nat, lo: nat, hi: nat) {
    |gs.inodes| == |fs.inodes| && forall i': nat, k': nat ::
      IsSlot(fs, i', k') && !(i' == i && (lo <= k' < hi || k' == INDIRECT)) ==> SlotAt(gs, i', k') == SlotAt(fs, i', k')
  }

  /** Only the slot of inode i's indirect block differs. */
  ghost predicate SameData(fs: Fs, gs: Fs, i: nat) {
    |gs.inodes| == |fs.inodes| && forall i': nat, k': nat ::
      IsSlot(fs, i', k') && (i', k') != (i, INDIRECT) ==> SlotAt(gs, i', k') == SlotAt(fs, i', k')
  }

  /** The block after the last that [off, off + n) touches. */
  function EndBlock(off: nat, n: nat): nat {
    if n == 0 then off / BSIZE else (off + n - 1) / BSIZE + 1
  }

  lemma BlockEnd(off: nat, tot: nat, m: nat, n: nat)
    requires 0 < m && (off + tot) % BSIZE + m <= BSIZE && (tot == 0 || (off + tot) % BSIZE == 0) && tot + m <= n
    requires off + n <= MAXFILE * BSIZE
    ensures off / BSIZE <= (off + tot) / BSIZE < MAXFILE && EndBlock(off, tot) == (off + tot) / BSIZE
    ensures EndBlock(off, tot + m) == (off + tot) / BSIZE + 1 <= EndBlock(off, n)
  {
    var q, r := (off + tot) / BSIZE, (off + tot) % BSIZE;
    assert off + tot == q * BSIZE + r;
    assert off + tot + m - 1 == q * BSIZE + (r + m - 1);
    if tot > 0 {
      assert off + tot - 1 == (q - 1) * BSIZE + (BSIZE - 1);
    }
  }

  lemma NotYet(fs: Fs, gs: Fs, i: nat, lo: nat, hi: nat)
    requires OnlyRange(fs, gs, i, lo, hi) && i < |fs.inodes| && hi < MAXFILE
    ensures SlotAt(gs, i, hi) == SlotAt(fs, i, hi)
  {
    assert IsSlot(fs, i, hi);
  }

  lemma DataSelf(fs: Fs, i: nat)
    ensures SameData(fs, fs, i)
  {
  }

  /** With the indirect block's slot the only one changed, no data slot is. */
  lemma DataKept(fs: Fs, gs: Fs, i: nat)
    requires OnlySlot(fs, gs, i, INDIRECT)
    ensures SameData(fs, gs, i)
  {
    hide Slot;
  }

  lemma OnlyThrough(fs: Fs, ms: Fs, gs: Fs, i: nat, k: nat)
    requires SameData(fs, ms, i) && OnlySlot(ms, gs, i, k) && k >= NDIRECT
    ensures OnlySlot(fs, gs, i, k)
  {
    hide Slot;
  }

  lemma GainedGrown(fs: Fs, gs: Fs, i: nat, k: nat, b: nat)
    requires Gained(fs, gs, i, k, b) && IsSlot(fs, i, k) && SlotAt(fs, i, k) == 0
    ensures Grown(fs, gs, i)
  {
    hide Slot;
  }

  lemma GrownTrans(fs: Fs, gs: Fs, hs: Fs, i: nat)
    requires Grown(fs, gs, i) && Grown(gs, hs, i)
    ensures Grown(fs, hs, i)
  {
    hide Slot, ByteAt;
    assert hs.inodes == fs.inodes[i := fs.inodes[i].(addrs := hs.inodes[i].addrs)];
  }

  lemma GrownSelf(fs: Fs, i: nat)
    requires i < |fs.inodes|
    ensures Grown(fs, fs, i)
  {
  }

  ghost predicate FsOk(fs: Fs, owner: Owners) {
    Owns(fs, owner, {}) && forall i: nat :: i < |fs.inodes| ==> NoHoles(fs, i)
  }

  /** Slot k of inode i is at addr now; it was empty before exactly if `fresh'`, and if it was not,
      nothing has changed. */
  ghost predicate MapStep(fs: Fs, gs: Fs, i: nat, k: nat, addr: nat, fresh': bool) {
    && Grown(fs, gs, i) && IsSlot(fs, i, k) && SlotAt(gs, i, k) == addr != 0
    && fresh' == (SlotAt(fs, i, k) == 0) && (!fresh' ==> gs == fs)
  }

  /** A free inode owns nothing. */
  ghost predicate FreeAreEmpty(inodes: seq<Inode>) {
    forall i :: 0 <= i < |inodes| && inodes[i].typ == 0 ==> inodes[i].addrs == NoAddrs() && inodes[i].size == 0
  }

  class FileSystem {
    const nmeta: nat
    const bmapstart: nat
    const inodestart: nat
    var used: seq<bool>             // the free bitmap
    var blocks: seq<Block>
    var disk: seq<Inode>            // the inodes on disk
    var icache: map<nat, Inode>     // the valid entries of the inode cache
    ghost var owner: Owners
    ghost var logged: set<nat>      // blocks passed to log_write in this transaction

    /** The file system with one inode as its cache entry has it. */
    ghost function View(ip: nat): Fs
      requires ip in icache && ip < |disk|
      reads this
    {
      Fs(nmeta, used, blocks, disk[ip := icache[ip]])
    }

    ghost function OnDisk(): Fs
      reads this
    {
      Fs(nmeta, used, blocks, disk)
    }

    /** Between operations: every block accounted for, no holes, and the inode cache is write-through. */
    ghost predicate Valid()
      reads this
    {
      && FsOk(OnDisk(), owner) && FreeAreEmpty(disk)
      && forall i :: i in icache ==> i < |disk| && icache[i] == disk[i]
    }

    function BitmapBlock(b: nat): nat {
      b / BPB + bmapstart
    }

    function InodeBlock(i: nat): nat {
      i / IPB + inodestart
    }

    constructor (nmeta: nat, bmapstart: nat, inodestart: nat, used: seq<bool>, blocks: seq<Block>, disk: seq<Inode>,
                 ghost owner: Owners)
      requires FsOk(Fs(nmeta, used, blocks, disk), owner) && FreeAreEmpty(disk)
      ensures Valid() && OnDisk() == Fs(nmeta, used, blocks, disk) && icache == map[] && logged == {}
      ensures this.bmapstart == bmapstart && this.inodestart == inodestart
    {
      this.nmeta, this.bmapstart, this.inodestart := nmeta, bmapstart, inodestart;
      this.used, this.blocks, this.disk, this.icache := used, blocks, disk, map[];
      this.owner, this.logged := owner, {};
    }

    /** balloc: the first block whose bit is clear, now marked and zeroed. */
    method Balloc() returns (ok: bool, b: nat)
      requires |used| == |blocks|
      modifies this`used, this`blocks, this`logged
      ensures ok ==>
                && b < |old(used)| && !old(used)[b] && (forall j :: 0 <= j < b ==> old(used)[j])
                && used == old(used)[b := true] && blocks == old(blocks)[b := Zeros()]
                && logged == old(logged) + {BitmapBlock(b), b}
      ensures !ok ==> (forall j :: 0 <= j < |used| ==> used[j]) && used == old(used) && blocks == old(blocks)
    {
      b := 0;
      while b < |used|
        invariant used == old(used) && blocks == old(blocks) && logged == old(logged)
        invariant forall j :: 0 <= j < b && j < |used| ==> used[j]
      {
        var bi := 0;
        while bi < BPB && b + bi < |used|
          invariant 0 <= bi <= BPB
          invariant forall j :: 0 <= j < b + bi && j < |used| ==> used[j]
        {
          if !used[b + bi] {
            b := b + bi;
            used := used[b := true];
            blocks := blocks[b := Zeros()];
            logged := logged + {BitmapBlock(b), b};
            return true, b;
          }
          bi := bi + 1;
        }
        b := b + BPB;
      }
      return false, 0;
    }
  
    /** What a block-mapping step may have done: filled empty slots of ip, logging what it changed. */
    ghost predicate Mapping(ip: nat)
      reads this
    {
      ip < |disk| && ip in icache && Owns(View(ip), owner, {})
    }

    /** Every block is in use. */
    ghost predicate Full()
      reads this`used
    {
      forall b :: 0 <= b < |used| ==> used[b]
    }

    /** bmap for a direct block. */
    method MapDirect(ip: nat, bn: nat) returns (r: Mapped, ghost fresh': bool)
      requires Mapping(ip) && bn < NDIRECT
      modifies this`used, this`blocks, this`icache, this`owner, this`logged
      ensures r.At? || r == OutOfBlocks
      ensures SlotAt(old(View(ip)), ip, bn) != 0 ==> r.At?
      ensures r.At? ==>
                && Mapping(ip) && icache == old(icache)[ip := icache[ip]]
                && MapStep(old(View(ip)), View(ip), ip, bn, r.addr, fresh')
                && logged == old(logged) + (if fresh' then {BitmapBlock(r.addr), r.addr} else {})
      ensures r.At? ==> OnlySlot(old(View(ip)), View(ip), ip, bn)
      ensures r == OutOfBlocks ==> icache == old(icache) && View(ip) == old(View(ip)) && owner == old(owner) && Full()
      ensures r.At? && !fresh' ==> owner == old(owner)
    {
      hide Owns, Gained, Grown, SameBytes, OnlySlot;
      ghost var v := View(ip);
      fresh' := false;
      var addr := icache[ip].addrs[bn];
      GrownSelf(v, ip);
      OnlySelf(v, ip, bn);
      if addr == 0 {
        assert |used| == |blocks| by { OwnsShape(v, owner); }
        var ok;
        ok, addr := Balloc();
        if !ok {
          return OutOfBlocks, false;
        }
        fresh' := true;
        GainDirect(v, owner, ip, bn, addr);
        icache := icache[ip := icache[ip].(addrs := icache[ip].addrs[bn := addr])];
        owner := owner[addr := (ip, bn)];
        assert View(ip) == PutAddr(TakeBlock(v, addr), ip, bn, addr);
        GainedGrown(v, View(ip), ip, bn, addr);
        GainedSlot(v, View(ip), ip, bn, addr, owner);
        GainedOnly(v, View(ip), ip, bn, addr);
      }
      r := At(addr);
    }

    /** bmap's first step for a large file: the indirect block, allocated if there is none. */
    method MapIndirect(ip: nat) returns (r: Mapped, ghost fresh': bool)
      requires Mapping(ip)
      modifies this`used, this`blocks, this`icache, this`owner, this`logged
      ensures r.At? || r == OutOfBlocks
      ensures SlotAt(old(View(ip)), ip, INDIRECT) != 0 ==> r.At?
      ensures r.At? ==>
                && Mapping(ip) && icache == old(icache)[ip := icache[ip]]
                && MapStep(old(View(ip)), View(ip), ip, INDIRECT, r.addr, fresh')
                && logged == old(logged) + (if fresh' then {BitmapBlock(r.addr), r.addr} else {})
      ensures r.At? ==> OnlySlot(old(View(ip)), View(ip), ip, INDIRECT)
      ensures r == OutOfBlocks ==> icache == old(icache) && View(ip) == old(View(ip)) && owner == old(owner) && Full()
      ensures r.At? && !fresh' ==> owner == old(owner)
      ensures r.At? ==> forall k: nat :: k < MAXFILE ==> SlotAt(View(ip), ip, k) == SlotAt(old(View(ip)), ip, k)
    {
      hide Owns, Gained, Grown, SameBytes, OnlySlot;
      ghost var v := View(ip);
      fresh' := false;
      var addr := icache[ip].addrs[NDIRECT];
      GrownSelf(v, ip);
      OnlySelf(v, ip, INDIRECT);
      if addr == 0 {
        assert |used| == |blocks| by { OwnsShape(v, owner); }
        var ok;
        ok, addr := Balloc();
        if !ok {
          return OutOfBlocks, false;
        }
        fresh' := true;
        GainIndirect(v, owner, ip, addr);
        icache := icache[ip := icache[ip].(addrs := icache[ip].addrs[NDIRECT := addr])];
        owner := owner[addr := (ip, INDIRECT)];
        assert View(ip) == PutAddr(TakeBlock(v, addr), ip, NDIRECT, addr);
        GainedGrown(v, View(ip), ip, INDIRECT, addr);
        GainedSlot(v, View(ip), ip, INDIRECT, addr, owner);
        GainedOnly(v, View(ip), ip, INDIRECT, addr);
      }
      r := At(addr);
    }

    /** bmap's second step for a large file: the entry of the indirect block, allocated if empty. */
    method MapEntry(ip: nat, j: nat) returns (r: Mapped, ghost fresh': bool)
      requires Mapping(ip) && j < NINDIRECT && SlotAt(View(ip), ip, INDIRECT) != 0
      modifies this`used, this`blocks, this`icache, this`owner, this`logged
      ensures r.At? || r == OutOfBlocks
      ensures SlotAt(old(View(ip)), ip, NDIRECT + j) != 0 ==> r.At?
      ensures r.At? ==>
                && Mapping(ip) && icache == old(icache)
                && MapStep(old(View(ip)), View(ip), ip, NDIRECT + j, r.addr, fresh')
                && logged == old(logged) + (if fresh' then {BitmapBlock(r.addr), r.addr, SlotAt(View(ip), ip, INDIRECT)} else {})
      ensures r.At? ==> OnlySlot(old(View(ip)), View(ip), ip, NDIRECT + j)
      ensures r == OutOfBlocks ==> icache == old(icache) && View(ip) == old(View(ip)) && owner == old(owner) && Full()
      ensures r.At? && !fresh' ==> owner == old(owner)
    {
      hide Owns, Gained, Grown, SameBytes, OnlySlot, Word, SetWord, Slot;
      ghost var v := View(ip);
      fresh' := false;
      var ind := icache[ip].addrs[NDIRECT];
      IndirectSlot(v, owner, ip);
      EntrySlot(v, owner, ip, j);
      var addr := Word(blocks[ind], j);
      GrownSelf(v, ip);
      OnlySelf(v, ip, NDIRECT + j);
      if addr == 0 {
        assert |used| == |blocks| by { OwnsShape(v, owner); }
        var ok;
        ok, addr := Balloc();
        if !ok {
          return OutOfBlocks, false;
        }
        fresh' := true;
        GainEntry(v, owner, ip, j, addr);
        blocks := blocks[ind := SetWord(blocks[ind], j, addr)];
        logged := logged + {ind};
        owner := owner[addr := (ip, NDIRECT + j)];
        assert View(ip) == PutEntry(TakeBlock(v, addr), ip, j, addr);
        GainedGrown(v, View(ip), ip, NDIRECT + j, addr);
        GainedSlot(v, View(ip), ip, NDIRECT + j, addr, owner);
        GainedOnly(v, View(ip), ip, NDIRECT + j, addr);
        IndirectSlot(View(ip), owner, ip);
      }
      r := At(addr);
    }

    /** A block was wanted for slot bn and there was none: the slot is empty still, no data slot has changed, and
        the bitmap is full. */
    ghost predicate Failed(v: Fs, ip: nat, bn: nat)
      reads this
    {
      Mapping(ip) && Full() && Grown(v, View(ip), ip) && SameData(v, View(ip), ip) && SlotAt(View(ip), ip, bn) == 0
    }

    /** bmap: the block of a file, allocated if it was missing. What it logs: the bitmap block and the
        block itself for each allocation, and the indirect block if an entry was filled. */
    method Bmap(ip: nat, bn: nat) returns (r: Mapped, ghost newData: bool, ghost newInd: bool)
      requires Mapping(ip)
      modifies this`used, this`blocks, this`icache, this`owner, this`logged
      ensures r == OutOfRange <==> bn >= MAXFILE
      ensures bn < MAXFILE && SlotAt(old(View(ip)), ip, bn) != 0 ==> r.At?
      ensures r.At? ==>
                && Mapping(ip) && icache == old(icache)[ip := icache[ip]]
                && MapStep(old(View(ip)), View(ip), ip, bn, r.addr, newData)
                && newInd == (bn >= NDIRECT && SlotAt(old(View(ip)), ip, INDIRECT) == 0)
                && logged == old(logged) + Cost(r.addr, SlotAt(View(ip), ip, INDIRECT), bn, newData, newInd)
      ensures r.At? && !newData ==> owner == old(owner) && logged == old(logged)
      ensures r.At? ==> OnlySlot(old(View(ip)), View(ip), ip, bn)
      ensures r == OutOfBlocks ==> Failed(old(View(ip)), ip, bn)
    {
      hide Owns, Grown, SameBytes, Slot, OnlySlot, SameData, Full;
      newData, newInd := false, false;
      ghost var v := View(ip);
      GrownSelf(v, ip);
      DataSelf(v, ip);
      if bn < NDIRECT {
        r, newData := MapDirect(ip, bn);
        return;
      }
      var j := bn - NDIRECT;
      if j < NINDIRECT {
        NoIndirect(v, ip, bn);
        r, newInd := MapIndirect(ip);
        if r.At? {
          ghost var m, ind := View(ip), r.addr;
          DataKept(v, m, ip);
          r, newData := MapEntry(ip, j);
          if r.At? {
            MapTwice(v, m, View(ip), ip, bn, ind, newInd, r.addr, newData);
            OnlyThrough(v, m, View(ip), ip, bn);
          } else {
            assert SlotAt(m, ip, bn) == 0;
          }
        }
        return;
      }
      return OutOfRange, false, false;
    }

    function Cost(addr: nat, ind: nat, bn: nat, newData: bool, newInd: bool): set<nat> {
      (if newData then {BitmapBlock(addr), addr} else {}) + (if newData && bn >= NDIRECT then {ind} else {})
        + (if newInd then {BitmapBlock(ind)} else {})
    }

    /** What one turn of writei's loop logs: the block written and what mapping it cost. */
    function PieceCost(addr: nat, ind: nat, bn: nat, newData: bool, newInd: bool): set<nat> {
      {addr} + Cost(addr, ind, bn, newData, newInd)
    }

    /** A chunk that starts inside block 11 of a file and ends in block 14, with the indirect block new: the
        blocks a, b, c, d and the indirect block logged with their allocations, and the inode. */
    function WorstChunk(ip: nat, a: nat, b: nat, c: nat, d: nat, ind: nat, newA: bool): set<nat> {
      PieceCost(a, 0, 11, newA, false) + PieceCost(b, ind, 12, true, true) + PieceCost(c, ind, 13, true, false)
        + PieceCost(d, ind, 14, true, false) + {InodeBlock(ip)}
    }

    lemma PieceSet(x: nat, ind: nat, bn: nat)
      ensures PieceCost(x, ind, bn, false, false) == {x}
      ensures PieceCost(x, ind, bn, true, false) == if bn < NDIRECT then {x, BitmapBlock(x)} else {x, BitmapBlock(x), ind}
      ensures bn >= NDIRECT ==> PieceCost(x, ind, bn, true, true) == {x, BitmapBlock(x), ind, BitmapBlock(ind)}
    {
      hide BitmapBlock;
    }

    lemma WorstChunkSet(ip: nat, a: nat, b: nat, c: nat, d: nat, ind: nat)
      ensures WorstChunk(ip, a, b, c, d, ind, false) ==
              {a, b, c, d, ind} + {BitmapBlock(b), BitmapBlock(c), BitmapBlock(d), BitmapBlock(ind)} + {InodeBlock(ip)}
      ensures WorstChunk(ip, a, b, c, d, ind, true) ==
              {a, b, c, d, ind} + {BitmapBlock(a), BitmapBlock(b), BitmapBlock(c), BitmapBlock(d), BitmapBlock(ind)} + {InodeBlock(ip)}
    {
      hide BitmapBlock, InodeBlock, PieceCost, Cost;
      PieceSet(a, 0, 11);
      PieceSet(b, ind, 12);
      PieceSet(c, ind, 13);
      PieceSet(d, ind, 14);
    }

    /** With every block in a different bitmap block such a chunk logs MAXOPBLOCKS blocks, and only because
        block 11 is there already: allocating it too would take one more. */
    lemma WorstChunkIs(ip: nat, a: nat, b: nat, c: nat, d: nat, ind: nat)
      requires Different(a, b, c, d, ind)
      requires Different(BitmapBlock(a), BitmapBlock(b), BitmapBlock(c), BitmapBlock(d), BitmapBlock(ind))
      requires forall x :: x in {a, b, c, d, ind} ==> nmeta <= x && BitmapBlock(x) < nmeta && InodeBlock(ip) != BitmapBlock(x)
      requires InodeBlock(ip) < nmeta
      ensures |WorstChunk(ip, a, b, c, d, ind, false)| == MAXOPBLOCKS
      ensures |WorstChunk(ip, a, b, c, d, ind, true)| == MAXOPBLOCKS + 1
    {
      hide BitmapBlock, InodeBlock, WorstChunk, Different;
      WorstChunkSet(ip, a, b, c, d, ind);
      var x, y, z, w, v := BitmapBlock(a), BitmapBlock(b), BitmapBlock(c), BitmapBlock(d), BitmapBlock(ind);
      DifferentSize(a, b, c, d, ind);
      DifferentSize(x, y, z, w, v);
      UnionSize({a, b, c, d, ind}, {y, z, w, v}, InodeBlock(ip), nmeta);
      UnionSize({a, b, c, d, ind}, {x, y, z, w, v}, InodeBlock(ip), nmeta);
    }

    /** readi: the bytes of the file from off on, at most n of them. bmap never allocates here, so nothing
        changes. */
    method ReadI(ip: nat, off: nat, n: nat) returns (r: int, dst: seq<Byte>)
      requires Valid() && ip in icache && off < TWO_32 && n < TWO_32
      modifies this`used, this`blocks, this`icache, this`owner, this`logged
      ensures OnDisk() == old(OnDisk()) && icache == old(icache) && owner == old(owner) && logged == old(logged)
      ensures r == -1 <==> off > disk[ip].size || off + n >= TWO_32
      ensures r != -1 ==>
                var end := if off + n > disk[ip].size then disk[ip].size else off + n;
                r == end - off == |dst| && dst == Contents(OnDisk(), ip)[off..end]
    {
      hide Owns, NoHoles, Slot, Grown, SameBytes, ByteAt;
      if off > icache[ip].size || off + n >= TWO_32 {
        return -1, [];
      }
      var n := if off + n > icache[ip].size then icache[ip].size - off else n;
      ghost var fs := View(ip);
      assert fs == OnDisk() by { assert disk[ip := icache[ip]] == disk; }
      dst := [];
      var tot, at := 0, off;
      while tot < n
        invariant 0 <= tot <= n && at == off + tot && |dst| == tot
        invariant OnDisk() == old(OnDisk()) && icache == old(icache) && owner == old(owner) && logged == old(logged)
        invariant forall o :: 0 <= o < tot ==> dst[o] == ByteAt(fs, ip, off + o)
      {
        ReadStep(fs, owner, ip, at);
        var b, _, _ := Bmap(ip, at / BSIZE);
        var m := if n - tot < BSIZE - at % BSIZE then n - tot else BSIZE - at % BSIZE;
        PieceBytes(fs, ip, at, m, b.addr);
        dst := dst + blocks[b.addr][at % BSIZE..at % BSIZE + m];
        tot, at := tot + m, at + m;
      }
      assert dst == Contents(fs, ip)[off..off + n];
      r := n;
    }

    /** One turn of writei's loop: map the block, copy the piece into it, log it. */
    method WritePiece(ip: nat, off: nat, piece: seq<Byte>) returns (ok: bool, ghost newData: bool, ghost newInd: bool)
      requires Mapping(ip) && off / BSIZE < MAXFILE && off % BSIZE + |piece| <= BSIZE && piece != []
      modifies this`used, this`blocks, this`icache, this`owner, this`logged
      ensures ok ==>
                && Mapping(ip) && icache == old(icache)[ip := icache[ip]]
                && Wrote(old(View(ip)), View(ip), ip, off, piece)
                && newData == (SlotAt(old(View(ip)), ip, off / BSIZE) == 0)
                && newInd == (off / BSIZE >= NDIRECT && SlotAt(old(View(ip)), ip, INDIRECT) == 0)
                && (!newData ==> icache == old(icache))
                && logged == old(logged) +
                     PieceCost(SlotAt(View(ip), ip, off / BSIZE), SlotAt(View(ip), ip, INDIRECT), off / BSIZE, newData, newInd)
                && PieceLogged(old(View(ip)), View(ip), ip, off / BSIZE, old(logged), logged)
      ensures !ok ==> Failed(old(View(ip)), ip, off / BSIZE)
    {
      hide Owns, NoHoles, Slot, Grown, SameBytes, ByteAt, Overlaid, SameSlots, Patch, OnlySlot, Failed, Wrote, Kept;
      ghost var v := View(ip);
      var b;
      b, newData, newInd := Bmap(ip, off / BSIZE);
      if !b.At? {
        return false, newData, newInd;
      }
      ghost var w := View(ip);
      SlotInside(w, owner, ip, off / BSIZE);
      PutBytesOverlays(w, owner, ip, off / BSIZE, off % BSIZE, piece);
      blocks := blocks[b.addr := Patch(blocks[b.addr], off % BSIZE, piece)];
      logged := logged + {b.addr};
      assert View(ip) == PutBytes(w, b.addr, off % BSIZE, piece);
      PieceWrote(v, w, View(ip), ip, off, piece, b.addr, newData);
      OnlyKept(v, w, View(ip), ip, off / BSIZE);
      WroteKept(v, View(ip), ip, off, piece);
      ok := true;
    }

    /** iupdate: copy the cached inode to disk. */
    method IUpdate(ip: nat)
      requires ip in icache && ip < |disk|
      modifies this`disk, this`logged
      ensures disk == old(disk)[ip := icache[ip]] && logged == old(logged) + {InodeBlock(ip)}
    {
      disk := disk[ip := icache[ip]];
      logged := logged + {InodeBlock(ip)};
    }

    /** writei's loop: all of src lies in the file, through the cached inode; the disk copy of the inode
        still differs only if the write went past the end. */
    method WriteLoop(ip: nat, src: seq<Byte>, off: nat) returns (ok: bool)
      requires Valid() && ip in icache && off <= disk[ip].size && off + |src| <= MAXFILE * BSIZE
      modifies this`used, this`blocks, this`icache, this`owner, this`logged
      ensures ok ==>
                && Mapping(ip) && icache == old(icache)[ip := icache[ip]]
                && Wrote(old(OnDisk()), View(ip), ip, off, src) && icache[ip].size == disk[ip].size
                && (icache[ip] == disk[ip] || off + |src| > disk[ip].size)
                && (old(logged) == {} && |src| <= CHUNK ==> |logged| < MAXOPBLOCKS)
                && RangeLogged(old(OnDisk()), View(ip), ip, off / BSIZE, EndBlock(off, |src|), old(logged), logged)
      ensures !ok ==> Short(old(OnDisk()), ip, off / BSIZE, EndBlock(off, |src|))
    {
      hide Owns, NoHoles, Slot, Wrote, TallyOk, RangeLogged, PieceLogged, Failed, Short, EndBlock;
      ghost var fs, lo := View(ip), off / BSIZE;
      assert fs == OnDisk() by { assert disk[ip := icache[ip]] == disk; }
      RangeNone(fs, ip, off, logged);
      ghost var y := Tally({}, 0, 0, 0);
      WroteNone(fs, ip, off);
      assert TallyOk(y, {}, SlotAt(fs, ip, INDIRECT), off, 0) by { TallyNone(SlotAt(fs, ip, INDIRECT), off); }
      var tot := 0;
      assert src[..0] == [];
      while tot < |src|
        invariant 0 <= tot <= |src| && Mapping(ip) && icache == old(icache)[ip := icache[ip]]
        invariant Wrote(fs, View(ip), ip, off, src[..tot])
        invariant icache[ip] == disk[ip] || off + tot > disk[ip].size
        invariant old(logged) == {} ==> TallyOk(y, logged, SlotAt(View(ip), ip, INDIRECT), off, tot)
        invariant tot == |src| || tot == 0 || (off + tot) % BSIZE == 0
        invariant RangeLogged(fs, View(ip), ip, lo, EndBlock(off, tot), old(logged), logged)
      {
        ghost var v, mid := View(ip), logged;
        var m := if |src| - tot < BSIZE - (off + tot) % BSIZE then |src| - tot else BSIZE - (off + tot) % BSIZE;
        BlockEnd(off, tot, m, |src|);
        ok, y := WriteNext(ip, src, off, tot, m, fs, y);
        if !ok {
          FailedShort(fs, v, ip, lo, (off + tot) / BSIZE, EndBlock(off, |src|), old(logged), mid);
          return;
        }
        RangeNext(fs, v, View(ip), ip, lo, (off + tot) / BSIZE, old(logged), mid, logged);
        tot := tot + m;
      }
      assert src[..tot] == src;
      WroteInode(fs, View(ip), ip, off, src);
      if old(logged) == {} && |src| <= CHUNK {
        TallyBound(y, logged, SlotAt(View(ip), ip, INDIRECT), off, tot);
      }
      ok := true;
    }

    /** One block of the write is mapped, no other slot has changed but that of the indirect block, and exactly
        what that costs is logged. */
    ghost predicate PieceLogged(v: Fs, w: Fs, ip: nat, bn: nat, was: set<nat>, now: set<nat>) {
      && OnlySlot(v, w, ip, bn) && Kept(v, w) && ip < |v.inodes| && SlotAt(w, ip, bn) != 0
      && now == was + PieceCost(SlotAt(w, ip, bn), SlotAt(w, ip, INDIRECT), bn, SlotAt(v, ip, bn) == 0,
                                bn >= NDIRECT && SlotAt(v, ip, INDIRECT) == 0)
    }

    /** What writing the blocks from lo to hi logs: each block, the bitmap block of each that is new, and the
        indirect block with its bitmap block if entries or the block itself are. */
    ghost function Touched(fs: Fs, gs: Fs, ip: nat, lo: nat, hi: nat): set<nat>
      requires ip < |fs.inodes| == |gs.inodes|
    {
      if hi <= lo then {}
      else Touched(fs, gs, ip, lo, hi - 1) + PieceCost(SlotAt(gs, ip, hi - 1), SlotAt(gs, ip, INDIRECT), hi - 1,
             SlotAt(fs, ip, hi - 1) == 0, hi - 1 >= NDIRECT && SlotAt(fs, ip, INDIRECT) == 0)
    }

    /** The blocks lo to hi of ip are mapped and nothing else has changed; `now` is what was logged and the cost. */
    ghost predicate RangeLogged(fs: Fs, gs: Fs, ip: nat, lo: nat, hi: nat, was: set<nat>, now: set<nat>) {
      && Kept(fs, gs) && OnlyRange(fs, gs, ip, lo, hi) && ip < |fs.inodes|
      && (forall k: nat :: lo <= k < hi ==> SlotAt(gs, ip, k) != 0)
      && (hi <= NDIRECT || hi <= lo ==> SlotAt(gs, ip, INDIRECT) == SlotAt(fs, ip, INDIRECT))
      && now == was + Touched(fs, gs, ip, lo, hi)
    }

    lemma RangeNone(fs: Fs, ip: nat, off: nat, was: set<nat>)
      requires ip < |fs.inodes|
      ensures RangeLogged(fs, fs, ip, off / BSIZE, EndBlock(off, 0), was, was)
    {
      hide Slot;
    }

    /** A block of lo to hi is missing with the bitmap full, the slots before it filled and no others changed. */
    ghost predicate Short(fs: Fs, ip: nat, lo: nat, hi: nat)
      reads this
    {
      && Mapping(ip) && Full() && Kept(fs, View(ip)) && OnlyRange(fs, View(ip), ip, lo, hi)
      && exists k: nat :: lo <= k < hi && SlotAt(View(ip), ip, k) == 0
    }

    lemma FailedShort(fs: Fs, v: Fs, ip: nat, lo: nat, bn: nat, hi: nat, was: set<nat>, mid: set<nat>)
      requires RangeLogged(fs, v, ip, lo, bn, was, mid) && Failed(v, ip, bn) && lo <= bn < hi && bn < MAXFILE
      ensures Short(fs, ip, lo, hi)
    {
      hide Slot, Owns, Touched, SameBytes;
      assert SlotAt(View(ip), ip, bn) == 0;
    }

    lemma {:induction false} TouchedSame(fs: Fs, v: Fs, w: Fs, ip: nat, lo: nat, hi: nat)
      requires ip < |fs.inodes| == |v.inodes| == |w.inodes|
      requires forall k: nat :: lo <= k < hi ==> SlotAt(w, ip, k) == SlotAt(v, ip, k)
      requires hi <= NDIRECT || SlotAt(w, ip, INDIRECT) == SlotAt(v, ip, INDIRECT)
      ensures Touched(fs, w, ip, lo, hi) == Touched(fs, v, ip, lo, hi)
      decreases hi
    {
      hide Slot, BitmapBlock;
      if hi > lo {
        TouchedSame(fs, v, w, ip, lo, hi - 1);
      }
    }

    lemma RangeSlots(fs: Fs, v: Fs, w: Fs, ip: nat, lo: nat, bn: nat, was: set<nat>, mid: set<nat>, now: set<nat>)
      requires RangeLogged(fs, v, ip, lo, bn, was, mid) && PieceLogged(v, w, ip, bn, mid, now) && lo <= bn < MAXFILE
      ensures Kept(fs, w) && OnlyRange(fs, w, ip, lo, bn + 1)
      ensures forall k: nat :: lo <= k < bn ==> SlotAt(w, ip, k) == SlotAt(v, ip, k) != 0
      ensures bn + 1 <= NDIRECT ==> SlotAt(w, ip, INDIRECT) == SlotAt(fs, ip, INDIRECT)
    {
      hide Slot, PieceCost, Touched;
      assert forall k: nat :: lo <= k < bn ==> IsSlot(v, ip, k);
      assert IsSlot(v, ip, INDIRECT);
    }

    /** A block more of the write. */
    lemma RangeNext(fs: Fs, v: Fs, w: Fs, ip: nat, lo: nat, bn: nat, was: set<nat>, mid: set<nat>, now: set<nat>)
      requires RangeLogged(fs, v, ip, lo, bn, was, mid) && PieceLogged(v, w, ip, bn, mid, now) && lo <= bn < MAXFILE
      ensures RangeLogged(fs, w, ip, lo, bn + 1, was, now)
    {
      RangeSlots(fs, v, w, ip, lo, bn, was, mid, now);
      if bn > NDIRECT && lo < bn {
        IndirectThere(v, ip, bn - 1);
        assert IsSlot(v, ip, INDIRECT);
      }
      hide Slot, BitmapBlock, OnlyRange, OnlySlot;
      assert lo < bn ==> bn <= NDIRECT || SlotAt(w, ip, INDIRECT) == SlotAt(v, ip, INDIRECT);
      if lo < bn {
        TouchedSame(fs, v, w, ip, lo, bn);
      }
      assert Touched(fs, w, ip, lo, bn) == Touched(fs, v, ip, lo, bn);
      assert SlotAt(v, ip, bn) == SlotAt(fs, ip, bn) by { NotYet(fs, v, ip, lo, bn); }
    }

    /** One turn of the loop, with what it does to the whole write so far. */
    method WriteNext(ip: nat, src: seq<Byte>, off: nat, tot: nat, m: nat, ghost fs: Fs, ghost y: Tally)
        returns (ok: bool, ghost z: Tally)
      requires Mapping(ip) && tot < tot + m <= |src| && off + |src| <= MAXFILE * BSIZE && (off + tot) % BSIZE + m <= BSIZE
      requires tot == 0 || (off + tot) % BSIZE == 0
      requires ip < |fs.inodes| && NoHoles(fs, ip) && fs.inodes[ip] == disk[ip] && off <= disk[ip].size
      requires Wrote(fs, View(ip), ip, off, src[..tot])
      requires icache[ip] == disk[ip] || off + tot > disk[ip].size
      modifies this`used, this`blocks, this`icache, this`owner, this`logged
      ensures ok ==>
                && Mapping(ip) && icache == old(icache)[ip := icache[ip]]
                && Wrote(fs, View(ip), ip, off, src[..tot + m])
                && (icache[ip] == disk[ip] || off + tot + m > disk[ip].size)
                && (TallyOk(y, old(logged), SlotAt(old(View(ip)), ip, INDIRECT), off, tot) ==>
                      TallyOk(z, logged, SlotAt(View(ip), ip, INDIRECT), off, tot + m))
                && PieceLogged(old(View(ip)), View(ip), ip, (off + tot) / BSIZE, old(logged), logged)
      ensures !ok ==> Failed(old(View(ip)), ip, (off + tot) / BSIZE)
    {
      hide Owns, NoHoles, Slot, TallySets, TallyCounts, Overlaid, PieceLogged, Failed;
      var at := off + tot;
      ghost var v, l := View(ip), logged;
      ghost var newData, newInd;
      FirstBlockThere(fs, v, ip, off, src[..tot]);
      assert IsSlot(v, ip, INDIRECT);
      ok, newData, newInd := WritePiece(ip, at, src[tot..tot + m]);
      z := y;
      if !ok {
        return;
      }
      WroteMore(fs, v, View(ip), ip, off, src, tot, tot + m);
      ghost var addr, ind := SlotAt(View(ip), ip, at / BSIZE), SlotAt(View(ip), ip, INDIRECT);
      z := TallyNext(y, addr, ind, newData, newInd);
      IndirectThere(View(ip), ip, at / BSIZE);
      if TallyOk(y, l, SlotAt(v, ip, INDIRECT), off, tot) {
        ghost var bits := (if newData then {BitmapBlock(addr)} else {}) + (if newInd then {BitmapBlock(ind)} else {});
        TallySetsStep(y, l, SlotAt(v, ip, INDIRECT), z, logged, ind, addr, bits, newData, newInd);
        TallyCountsStep(y, SlotAt(v, ip, INDIRECT), off, tot, z, ind, m, newData, newInd);
      }
    }

    function TallyNext(y: Tally, addr: nat, ind: nat, newData: bool, newInd: bool): Tally {
      Tally(y.core + {addr} + ((if newData then {BitmapBlock(addr)} else {}) + (if newInd then {BitmapBlock(ind)} else {})),
            y.blocks + 1, y.news + (if newData then 1 else 0), y.inds + (if newInd then 1 else 0))
    }

    /** A write of n bytes at off has filled the slots under them and no others, and logged exactly what that costs
        and, if the file grew, the inode. */
    ghost predicate WriteLogged(fs: Fs, gs: Fs, ip: nat, off: nat, n: nat, was: set<nat>, now: set<nat>) {
      && ip < |fs.inodes| && Kept(fs, gs) && OnlyRange(fs, gs, ip, off / BSIZE, EndBlock(off, n))
      && (forall k: nat :: off / BSIZE <= k < EndBlock(off, n) ==> SlotAt(gs, ip, k) != 0)
      && now == was + Touched(fs, gs, ip, off / BSIZE, EndBlock(off, n))
                + (if n > 0 && off + n > fs.inodes[ip].size then {InodeBlock(ip)} else {})
    }

    lemma RangeDone(fs: Fs, gs: Fs, ip: nat, off: nat, n: nat, was: set<nat>, mid: set<nat>, now: set<nat>, grew: bool)
      requires RangeLogged(fs, gs, ip, off / BSIZE, EndBlock(off, n), was, mid)
      requires grew == (n > 0 && off + n > fs.inodes[ip].size) && now == mid + if grew then {InodeBlock(ip)} else {}
      ensures WriteLogged(fs, if grew then Resized(gs, ip, off + n) else gs, ip, off, n, was, now)
    {
      if grew {
        var hs := Resized(gs, ip, off + n);
        assert forall i: nat, k: nat :: i < |gs.inodes| ==> SlotAt(hs, i, k) == SlotAt(gs, i, k);
        hide Slot, InodeBlock;
        TouchedSame(fs, gs, hs, ip, off / BSIZE, EndBlock(off, n));
      }
    }

    /** writei: refused with nothing changed, or the file becomes its old contents with src laid over them at
        off; every other file keeps its bytes and its inode, the cached inode is on disk again, and a chunk
        of filewrite logs at most MAXOPBLOCKS blocks. `ok` is false for the panic "out of blocks". */
    method WriteI(ip: nat, src: seq<Byte>, off: nat) returns (r: int, ok: bool)
      requires Valid() && ip in icache && disk[ip].typ != 0 && off < TWO_32 && |src| < TWO_32
      modifies this`used, this`blocks, this`disk, this`icache, this`owner, this`logged
      ensures ok ==> Valid() && icache.Keys == old(icache).Keys && |disk| == |old(disk)|
      ensures ok ==> (r == -1 <==> off > old(disk)[ip].size || off + |src| >= TWO_32 || off + |src| > MAXFILE * BSIZE)
      ensures ok && r == -1 ==> OnDisk() == old(OnDisk()) && icache == old(icache)
      ensures ok && r != -1 ==>
                && r == |src|
                && Contents(OnDisk(), ip) == Spliced(Contents(old(OnDisk()), ip), off, src)
                && disk[ip].typ == old(disk)[ip].typ && disk[ip].nlink == old(disk)[ip].nlink
                && forall j: nat :: j < |disk| && j != ip ==>
                     disk[j] == old(disk)[j] && Contents(OnDisk(), j) == Contents(old(OnDisk()), j)
      ensures ok && old(logged) == {} && |src| <= CHUNK ==> |logged| <= MAXOPBLOCKS
      ensures ok && r != -1 ==> Written(old(OnDisk()), OnDisk(), ip, off, src)
      ensures ok && r != -1 ==> WriteLogged(old(OnDisk()), OnDisk(), ip, off, |src|, old(logged), logged)
      ensures !ok ==> off <= old(disk)[ip].size && Short(old(OnDisk()), ip, off / BSIZE, EndBlock(off, |src|))
    {
      hide Owns, NoHoles, Slot, ByteAt, Contents, Spliced, FsOk, WriteLogged, Short, EndBlock, Written;
      if off > icache[ip].size || off + |src| >= TWO_32 {
        return -1, true;
      }
      if off + |src| > MAXFILE * BSIZE {
        return -1, true;
      }
      ghost var fs := OnDisk();
      ok := WriteAll(ip, src, off);
      r := |src|;
      if ok {
        WrittenMeans(fs, OnDisk(), ip, off, src);
      }
    }

    /** writei once the request is found to be in range. */
    method WriteAll(ip: nat, src: seq<Byte>, off: nat) returns (ok: bool)
      requires Valid() && ip in icache && disk[ip].typ != 0 && off <= disk[ip].size && off + |src| <= MAXFILE * BSIZE
      modifies this`used, this`blocks, this`disk, this`icache, this`owner, this`logged
      ensures ok ==> Valid() && icache.Keys == old(icache).Keys && Written(old(OnDisk()), OnDisk(), ip, off, src)
      ensures ok && old(logged) == {} && |src| <= CHUNK ==> |logged| <= MAXOPBLOCKS
      ensures ok ==> WriteLogged(old(OnDisk()), OnDisk(), ip, off, |src|, old(logged), logged)
      ensures !ok ==> Short(old(OnDisk()), ip, off / BSIZE, EndBlock(off, |src|))
    {
      hide Owns, NoHoles, Slot, Wrote, ByteAt, Contents, Spliced, FsOk, RangeLogged, WriteLogged, Short, EndBlock, Written, FreeAreEmpty;
      ghost var fs, was := OnDisk(), owner;
      ok := WriteLoop(ip, src, off);
      if !ok {
        return;
      }
      ghost var gs := View(ip);
      WroteDone(fs, was, gs, owner, ip, off, src);
      ghost var mid, grew := logged, |src| > 0 && off + |src| > disk[ip].size;
      SetSize(ip, off, |src|);
      RangeDone(fs, gs, ip, off, |src|, old(logged), mid, logged, grew);
      assert OnDisk() == Resized(gs, ip, GrownSize(fs, ip, off + |src|)) by { SameSize(gs, ip); }
      hide Resized, GrownSize;
      StillEmpty(fs, OnDisk(), ip, off, src);
      ThroughKept(old(icache), icache, fs, OnDisk(), ip, off, src);
    }

    /** The end of writei: a file that grew gets its new size, in the cache and on disk. */
    method SetSize(ip: nat, off: nat, n: nat)
      requires ip in icache && ip < |disk| && icache[ip].size == disk[ip].size && (icache[ip] == disk[ip] || off + n > disk[ip].size)
      requires n == 0 ==> icache[ip] == disk[ip]
      modifies this`disk, this`icache, this`logged
      ensures var grew := n > 0 && off + n > old(disk)[ip].size;
              && ip in icache && OnDisk() == (if grew then Resized(old(View(ip)), ip, off + n) else old(View(ip)))
              && icache == old(icache)[ip := disk[ip]] && |disk| == |old(disk)|
              && logged == old(logged) + if grew then {InodeBlock(ip)} else {}
      ensures |logged| <= |old(logged)| + 1
    {
      AtMostOneMore(logged, InodeBlock(ip));
      if n > 0 && off + n > icache[ip].size {
        icache := icache[ip := icache[ip].(size := off + n)];
        IUpdate(ip);
      }
    }

    /** One chunk of filewrite: a transaction of its own, refused exactly if it starts past the end of the file or ends
        past the largest one. */
    method WriteChunk(ip: nat, src: seq<Byte>, off: nat, i: nat, n: nat, ghost fs: Fs) returns (r: int, ok: bool)
      requires Valid() && ip in icache && disk[ip].typ != 0 && off + i < TWO_32 && i + n <= |src| < TWO_32 && 0 < n <= CHUNK
      requires WroteSome(fs, OnDisk(), ip, off, src, i) && (i > 0 ==> off <= fs.inodes[ip].size)
      modifies this`used, this`blocks, this`disk, this`icache, this`owner, this`logged
      ensures !ok ==> off + i <= old(disk)[ip].size && Short(old(OnDisk()), ip, (off + i) / BSIZE, EndBlock(off + i, n))
      ensures ok ==>
                && Valid() && ip in icache && disk[ip].typ != 0 && |logged| <= MAXOPBLOCKS
                && r == (if off + i > old(disk)[ip].size || off + i + n > MAXFILE * BSIZE then -1 else n)
                && (r == -1 ==> OnDisk() == old(OnDisk()))
                && (r == n ==> WroteSome(fs, OnDisk(), ip, off, src, i + n) && disk[ip].size >= off + i + n)
    {
      hide FsOk, FreeAreEmpty, ByteAt, Slot, Spliced, Contents, WriteLogged, Short, EndBlock, WroteSome, Written;
      logged := {};   // begin_op
      ghost var before := OnDisk();
      r, ok := WriteI(ip, src[i..i + n], off + i);
      if ok && r != -1 {
        StartsInside(fs, before, ip, off, src, i);
        MoreWritten(fs, before, OnDisk(), ip, off, src, i, i + n);
      }
    }

    /** filewrite: chunk after chunk, each its own transaction. What has been written when it returns is a
        prefix of src, all of it exactly if it lies in range; otherwise it ends with the last whole chunk that does.
        `ok` is false for the panic "out of blocks": then a block of the next chunk is missing with none free, and
        `before` is the file system as the chunks before it left it. */
    method FileWrite(ip: nat, src: seq<Byte>, off: nat)
        returns (r: int, off': nat, ok: bool, ghost written: nat, ghost peak: nat, ghost before: Fs)
      requires Valid() && ip in icache && disk[ip].typ != 0 && off < TWO_32 && |src| < TWO_32
      modifies this`used, this`blocks, this`disk, this`icache, this`owner, this`logged
      ensures peak <= MAXOPBLOCKS && off' == off + written && written <= |src| && WroteSome(old(OnDisk()), before, ip, off, src, written)
      ensures ok ==> Valid() && before == OnDisk() && r == (if written == |src| then |src| else -1)
      ensures ok ==> (written == |src| <==> src == [] || (off <= old(disk)[ip].size && off + |src| <= MAXFILE * BSIZE))
      ensures ok && written < |src| ==>
                if off > old(disk)[ip].size then written == 0
                else written % CHUNK == 0 && off + written <= MAXFILE * BSIZE < off + written + CHUNK
      ensures !ok ==>
                && written < |src| && written % CHUNK == 0 && off <= old(disk)[ip].size
                && Short(before, ip, (off + written) / BSIZE, EndBlock(off + written, NextChunk(|src| - written)))
    {
      hide FsOk, FreeAreEmpty, ByteAt, Slot, Spliced, Contents, WriteLogged, Short, EndBlock, WroteSome;
      ghost var fs := OnDisk();
      var i := 0;
      off', peak, ok, r, before := off, 0, true, 0, OnDisk();
      NoneWritten(fs, ip, off, src);
      SizeInRange(fs, owner, ip);
      while i < |src|
        invariant 0 <= i <= |src| && off' == off + i && ok && peak <= MAXOPBLOCKS && off' < TWO_32
        invariant Valid() && ip in icache && disk[ip].typ != 0 && before == OnDisk()
        invariant WroteSome(fs, OnDisk(), ip, off, src, i)
        invariant i > 0 ==> off <= fs.inodes[ip].size
        invariant off <= fs.inodes[ip].size ==> off' <= disk[ip].size && off' <= MAXFILE * BSIZE
        invariant i == 0 ==> disk[ip].size == fs.inodes[ip].size
        invariant i == |src| || i % CHUNK == 0
      {
        written := i;
        var n1 := NextChunk(|src| - i);
        r, ok := WriteChunk(ip, src, off, i, n1, fs);
        if !ok {
          return;
        }
        peak := if |logged| > peak then |logged| else peak;
        before := OnDisk();
        if r < 0 {
          break;
        }
        off', i := off' + r, i + r;
      }
      written := i;
      r := if i == |src| then |src| else -1;
    }

    /** bfree: clear the bit; false is the panic "freeing free block". */
    method Bfree(b: nat) returns (ok: bool)
      requires b < |used|
      modifies this`used, this`logged
      ensures ok == old(used)[b]
      ensures ok ==> used == old(used)[b := false] && logged == old(logged) + {BitmapBlock(b)}
    {
      ok := used[b];
      if ok {
        used := used[b := false];
        logged := logged + {BitmapBlock(b)};
      }
    }

    /** itrunc's loop over the direct blocks. */
    method TruncDirect(ip: nat) returns (ok: bool)
      requires ip in icache && Mapping(ip)
      modifies this`used, this`icache, this`logged
      ensures ok && ip in icache
      ensures FreedBefore(old(View(ip)), owner, ip, NDIRECT, used)
      ensures icache == old(icache)[ip := icache[ip]]
      ensures icache[ip] == old(icache)[ip].(addrs := icache[ip].addrs)
      ensures forall k :: 0 <= k < NDIRECT ==> icache[ip].addrs[k] == 0
      ensures icache[ip].addrs[NDIRECT] == old(icache)[ip].addrs[NDIRECT]
    {
      hide Owns, FreedBefore, Slot;
      ghost var fs := View(ip);
      FreedNone(fs, owner, ip);
      var i := 0;
      while i < NDIRECT
        invariant 0 <= i <= NDIRECT && ip in icache && FreedBefore(fs, owner, ip, i, used)
        invariant icache == old(icache)[ip := icache[ip]]
        invariant icache[ip] == old(icache)[ip].(addrs := icache[ip].addrs)
        invariant forall k :: 0 <= k < NDIRECT ==> icache[ip].addrs[k] == if k < i then 0 else old(icache)[ip].addrs[k]
        invariant icache[ip].addrs[NDIRECT] == old(icache)[ip].addrs[NDIRECT]
      {
        FreeNext(fs, owner, ip, i, used);
        DirectSlot(fs, ip, i);
        var a := icache[ip].addrs[i];
        if a != 0 {
          ok := Bfree(a);
          assert ok;
          icache := icache[ip := icache[ip].(addrs := icache[ip].addrs[i := 0])];
        }
        i := i + 1;
      }
      ok := true;
    }

    /** itrunc's loop over the entries of the indirect block, and that block itself. */
    method TruncIndirect(ip: nat, ghost fs: Fs) returns (ok: bool)
      requires ip in icache && ip < |fs.inodes| && Owns(fs, owner, {}) && blocks == fs.blocks
      requires FreedBefore(fs, owner, ip, NDIRECT, used)
      requires icache[ip].addrs[NDIRECT] == fs.inodes[ip].addrs[NDIRECT]
      requires forall k :: 0 <= k < NDIRECT ==> icache[ip].addrs[k] == 0
      modifies this`used, this`icache, this`logged
      ensures ok && FreedBefore(fs, owner, ip, INDIRECT + 1, used)
      ensures icache == old(icache)[ip := old(icache)[ip].(addrs := NoAddrs())]
    {
      hide Owns, FreedBefore, Slot, Word;
      ghost var was := icache;
      var ind := icache[ip].addrs[NDIRECT];
      if ind != 0 {
        IndirectSlot(fs, owner, ip);
        var j := 0;
        while j < NINDIRECT
          invariant 0 <= j <= NINDIRECT && icache == was && FreedBefore(fs, owner, ip, NDIRECT + j, used)
        {
          FreeNext(fs, owner, ip, NDIRECT + j, used);
          EntrySlot(fs, owner, ip, j);
          var a := Word(blocks[ind], j);
          if a != 0 {
            ok := Bfree(a);
            assert ok;
          }
          j := j + 1;
        }
        FreeNext(fs, owner, ip, INDIRECT, used);
        ok := Bfree(ind);
        assert ok;
        icache := icache[ip := icache[ip].(addrs := icache[ip].addrs[NDIRECT := 0])];
      } else {
        FreedRest(fs, owner, ip, used);
      }
      assert icache[ip].addrs == NoAddrs();
      ok := true;
    }

    /** itrunc: every block of the file goes back to the bitmap, none of them twice, and no other file
        is touched. It cannot panic. */
    method ITrunc(ip: nat) returns (ok: bool)
      requires Valid() && ip in icache
      modifies this`used, this`icache, this`disk, this`owner, this`logged
      ensures ok && Valid() && |disk| == |old(disk)| && icache.Keys == old(icache).Keys
      ensures disk == old(disk)[ip := old(disk)[ip].(addrs := NoAddrs(), size := 0)]
      ensures forall b :: 0 <= b < |used| ==>
                used[b] == (old(used)[b] && !exists k: nat :: k <= INDIRECT && SlotAt(old(OnDisk()), ip, k) == b && b != 0)
      ensures forall j: nat :: j < |disk| && j != ip ==> Contents(OnDisk(), j) == Contents(old(OnDisk()), j)
    {
      hide Owns, FreedBefore, Slot, Contents, NoHoles;
      ghost var fs := View(ip);
      assert fs == OnDisk() by { assert disk[ip := icache[ip]] == disk; }
      ok := TruncDirect(ip);
      ok := TruncIndirect(ip, fs);
      TruncOwns(fs, owner, ip, used);
      TruncNoHoles(fs, ip, used);
      FreedExactly(fs, owner, ip, used);
      icache := icache[ip := icache[ip].(size := 0)];
      owner := WithoutInode(owner, ip);
      IUpdate(ip);
      assert OnDisk() == Truncated(fs, ip, used);
    }

    /** iput of the last reference to an inode without links: the file and the inode are freed. */
    method IPut(ip: nat, refs: nat) returns (ok: bool)
      requires Valid() && ip in icache && refs >= 1
      modifies this`used, this`icache, this`disk, this`owner, this`logged
      ensures ok && Valid() && |disk| == |old(disk)|
      ensures old(disk)[ip].nlink == 0 && refs == 1 ==> ip !in icache && disk[ip].typ == 0 && Contents(OnDisk(), ip) == []
      ensures !(old(disk)[ip].nlink == 0 && refs == 1) ==> OnDisk() == old(OnDisk()) && icache == old(icache)
      ensures forall j: nat :: j < |disk| && j != ip ==>
                disk[j] == old(disk)[j] && Contents(OnDisk(), j) == Contents(old(OnDisk()), j)
    {
      hide Owns, Slot, ByteAt, NoHoles;
      ok := true;
      if icache[ip].nlink == 0 && refs == 1 {
        ok := ITrunc(ip);
        ghost var fs := OnDisk();
        icache := icache[ip := icache[ip].(typ := 0)];
        IUpdate(ip);
        Retyped(fs, ip, 0, owner);
        assert OnDisk() == fs.(inodes := fs.inodes[ip := fs.inodes[ip].(typ := 0)]);
        icache := icache - {ip};
      }
    }

    /** ialloc: the first free inode gets the type. `inum` is 0 for the panic "no inodes". */
    method IAlloc(typ: nat) returns (inum: nat)
      requires Valid() && typ != 0
      modifies this`disk, this`icache, this`logged
      ensures inum == 0 ==> OnDisk() == old(OnDisk()) && forall i :: 1 <= i < |disk| ==> disk[i].typ != 0
      ensures inum != 0 ==>
                && inum < |old(disk)| && old(disk)[inum].typ == 0 && (forall i :: 1 <= i < inum ==> old(disk)[i].typ != 0)
                && disk == old(disk)[inum := Inode(typ, 0, 0, NoAddrs())] && Contents(OnDisk(), inum) == []
                && forall j: nat :: j < |disk| ==> Contents(OnDisk(), j) == Contents(old(OnDisk()), j)
      ensures Valid() && icache == if inum == 0 then old(icache) else old(icache) - {inum}
    {
      hide Owns, Slot, ByteAt, NoHoles;
      inum := 1;
      while inum < |disk|
        invariant 1 <= inum && OnDisk() == old(OnDisk()) && icache == old(icache) && Valid()
        invariant forall i :: 1 <= i < inum && i < |disk| ==> disk[i].typ != 0
      {
        if disk[inum].typ == 0 {
          ghost var fs := OnDisk();
          disk := disk[inum := Inode(typ, 0, 0, NoAddrs())];
          logged := logged + {InodeBlock(inum)};
          icache := icache - {inum};   // iget: the entry is not valid yet
          Renewed(fs, inum, typ, owner);
          assert OnDisk() == fs.(inodes := fs.inodes[inum := Inode(typ, 0, 0, NoAddrs())]);
          return;
        }
        inum := inum + 1;
      }
      inum := 0;
    }

    /** ilock: load the inode unless it is cached; false is the panic "no type". */
    method ILock(ip: nat) returns (ok: bool)
      requires Valid() && ip < |disk|
      modifies this`icache
      ensures Valid() && ip in icache && ok == (ip in old(icache) || disk[ip].typ != 0)
      ensures icache == old(icache)[ip := disk[ip]]
    {
      ok := true;
      if ip !in icache {
        icache := icache[ip := disk[ip]];
        ok := icache[ip].typ != 0;
      }
    }
  }

  function Truncated(fs: Fs, i: nat, used: seq<bool>): Fs
    requires i < |fs.inodes|
  {
    fs.(used := used, inodes := fs.inodes[i := fs.inodes[i].(addrs := NoAddrs(), size := 0)])
  }

  lemma FreedNone(fs: Fs, owner: Owners, i: nat)
    ensures FreedBefore(fs, owner, i, 0, fs.used)
  {
  }

  lemma DirectSlot(fs: Fs, i: nat, k: nat)
    requires i < |fs.inodes| && k < NDIRECT
    ensures SlotAt(fs, i, k) == fs.inodes[i].addrs[k]
  {
  }

  lemma IndirectSlot(fs: Fs, owner: Owners, i: nat)
    requires i < |fs.inodes| && Owns(fs, owner, {})
    ensures SlotAt(fs, i, INDIRECT) == fs.inodes[i].addrs[NDIRECT]
    ensures fs.inodes[i].addrs[NDIRECT] != 0 ==> fs.inodes[i].addrs[NDIRECT] < |fs.blocks|
  {
    if SlotAt(fs, i, INDIRECT) != 0 {
      SlotInside(fs, owner, i, INDIRECT);
    }
  }

  lemma EntrySlot(fs: Fs, owner: Owners, i: nat, j: nat)
    requires i < |fs.inodes| && Owns(fs, owner, {}) && j < NINDIRECT && fs.inodes[i].addrs[NDIRECT] != 0
    ensures fs.inodes[i].addrs[NDIRECT] < |fs.blocks|
    ensures SlotAt(fs, i, NDIRECT + j) == Word(fs.blocks[fs.inodes[i].addrs[NDIRECT]], j)
  {
    hide Word;
    IndirectSlot(fs, owner, i);
  }

  lemma FreedRest(fs: Fs, owner: Owners, i: nat, used: seq<bool>)
    requires Owns(fs, owner, {}) && i < |fs.inodes| && FreedBefore(fs, owner, i, NDIRECT, used)
    requires fs.inodes[i].addrs[NDIRECT] == 0
    ensures FreedBefore(fs, owner, i, INDIRECT + 1, used)
  {
    forall b | b in owner && owner[b].0 == i
      ensures owner[b].1 < NDIRECT
    {
      assert SlotAt(fs, i, owner[b].1) == b;
    }
  }

  lemma FreedExactly(fs: Fs, owner: Owners, i: nat, used: seq<bool>)
    requires Owns(fs, owner, {}) && i < |fs.inodes| && FreedBefore(fs, owner, i, INDIRECT + 1, used)
    ensures |used| == |fs.used|
    ensures forall b :: 0 <= b < |used| ==>
              used[b] == (fs.used[b] && !exists k: nat :: k <= INDIRECT && SlotAt(fs, i, k) == b && b != 0)
  {
    hide Slot;
    forall b | 0 <= b < |used|
      ensures (b in owner && owner[b].0 == i) <==> exists k: nat :: k <= INDIRECT && SlotAt(fs, i, k) == b && b != 0
    {
      if b in owner && owner[b].0 == i {
        assert SlotAt(fs, i, owner[b].1) == b;
      }
      if k: nat :| k <= INDIRECT && SlotAt(fs, i, k) == b && b != 0 {
        assert IsSlot(fs, i, k);
      }
    }
  }

  lemma TruncNoHoles(fs: Fs, i: nat, used: seq<bool>)
    requires i < |fs.inodes| && forall j: nat :: j < |fs.inodes| ==> NoHoles(fs, j)
    ensures forall j: nat :: j < |fs.inodes| ==> NoHoles(Truncated(fs, i, used), j)
  {
    var gs := Truncated(fs, i, used);
    forall j: nat | j < |fs.inodes|
      ensures NoHoles(gs, j)
    {
      assert NoHoles(fs, j);
      assert j != i ==> forall k: nat :: SlotAt(gs, j, k) == SlotAt(fs, j, k);
    }
  }

  /** The type and link count of an inode say nothing about blocks. */
  lemma Retyped(fs: Fs, i: nat, typ: nat, owner: Owners)
    requires FsOk(fs, owner) && i < |fs.inodes|
    ensures var gs := fs.(inodes := fs.inodes[i := fs.inodes[i].(typ := typ)]);
            FsOk(gs, owner) && forall j: nat :: j < |fs.inodes| ==> Contents(gs, j) == Contents(fs, j)
  {
    hide Slot;
    var gs := fs.(inodes := fs.inodes[i := fs.inodes[i].(typ := typ)]);
    SameSlotsOwn(fs, gs, owner, {});
    forall j: nat | j < |fs.inodes|
      ensures NoHoles(gs, j) && Contents(gs, j) == Contents(fs, j)
    {
      assert NoHoles(fs, j);
    }
  }

  lemma Renewed(fs: Fs, i: nat, typ: nat, owner: Owners)
    requires FsOk(fs, owner) && FreeAreEmpty(fs.inodes) && i < |fs.inodes| && fs.inodes[i].typ == 0
    ensures var gs := fs.(inodes := fs.inodes[i := Inode(typ, 0, 0, NoAddrs())]);
            && FsOk(gs, owner) && Contents(gs, i) == []
            && forall j: nat :: j < |fs.inodes| ==> Contents(gs, j) == Contents(fs, j)
  {
    hide Slot;
    var gs := fs.(inodes := fs.inodes[i := Inode(typ, 0, 0, NoAddrs())]);
    SameSlotsOwn(fs, gs, owner, {});
    forall j: nat | j < |fs.inodes|
      ensures NoHoles(gs, j) && Contents(gs, j) == Contents(fs, j)
    {
      assert NoHoles(fs, j);
    }
  }

  lemma SplicedNone(c: seq<Byte>, off: nat)
    requires off <= |c|
    ensures Spliced(c, off, []) == c
  {
  }

  lemma SplicedMore(c: seq<Byte>, off: nat, src: seq<Byte>, i: nat, k: nat)
    requires i <= k <= |src|
    ensures off <= |c| ==>
              off + i <= |Spliced(c, off, src[..i])| &&
              Spliced(Spliced(c, off, src[..i]), off + i, src[i..k]) == Spliced(c, off, src[..k])
  {
    if off <= |c| {
      var a, b := src[..i], src[i..k];
      assert src[..k] == a + b;
      assert Spliced(c, off, a)[..off + i] == c[..off] + a;
    }
  }

  function Resized(fs: Fs, i: nat, size: nat): Fs
    requires i < |fs.inodes|
  {
    fs.(inodes := fs.inodes[i := fs.inodes[i].(size := size)])
  }

  lemma ResizedSame(fs: Fs, i: nat, size: nat, owner: Owners)
    requires i < |fs.inodes| && Owns(fs, owner, {})
    ensures Owns(Resized(fs, i, size), owner, {}) && SameSlots(fs, Resized(fs, i, size)) && SameBytes(fs, Resized(fs, i, size))
  {
    hide Slot;
    SameSlotsOwn(fs, Resized(fs, i, size), owner, {});
  }

  function GrownSize(fs: Fs, i: nat, end: nat): nat
    requires i < |fs.inodes|
  {
    if end > fs.inodes[i].size then end else fs.inodes[i].size
  }

  lemma WroteNoHoles(fs: Fs, gs: Fs, i: nat, off: nat, src: seq<Byte>, j: nat)
    requires Wrote(fs, gs, i, off, src) && j < |fs.inodes| && NoHoles(fs, j) && off + |src| <= MAXFILE * BSIZE
    requires off <= fs.inodes[i].size
    ensures NoHoles(Resized(gs, i, GrownSize(fs, i, off + |src|)), j)
  {
    var hs := Resized(gs, i, GrownSize(fs, i, off + |src|));
    forall k: nat | k * BSIZE < hs.inodes[j].size
      ensures SlotAt(hs, j, k) != 0
    {
      assert SlotAt(hs, j, k) == SlotAt(gs, j, k);
      assert k < MAXFILE && IsSlot(fs, j, k);
      hide Slot;
      if k * BSIZE < fs.inodes[j].size {
        assert SlotAt(fs, j, k) != 0;
      }
    }
  }

  /** The file system after a completed write, with the size it gets. */
  /** src has been laid over file i at off; every other file and inode is as it was. */
  ghost predicate Written(fs: Fs, hs: Fs, i: nat, off: nat, src: seq<Byte>) {
    && i < |fs.inodes| == |hs.inodes| && off <= fs.inodes[i].size && Contents(hs, i) == Spliced(Contents(fs, i), off, src)
    && hs.inodes[i].typ == fs.inodes[i].typ && hs.inodes[i].nlink == fs.inodes[i].nlink
    && forall j: nat :: j < |fs.inodes| && j != i ==> hs.inodes[j] == fs.inodes[j] && Contents(hs, j) == Contents(fs, j)
  }

  /** How much filewrite hands to writei next. */
  function NextChunk(left: nat): nat {
    if left > CHUNK then CHUNK else left
  }

  /** The first n bytes of src have been laid over file i at off, or none if off is past its end; every other file
      is as it was. */
  ghost predicate WroteSome(fs: Fs, hs: Fs, i: nat, off: nat, src: seq<Byte>, n: nat) {
    && i < |fs.inodes| == |hs.inodes| && n <= |src|
    && (if off > fs.inodes[i].size then hs == fs && n == 0
        else Contents(hs, i) == Spliced(Contents(fs, i), off, src[..n]) && hs.inodes[i].typ == fs.inodes[i].typ)
    && forall j: nat :: j < |fs.inodes| && j != i ==> hs.inodes[j] == fs.inodes[j] && Contents(hs, j) == Contents(fs, j)
  }

  lemma NoneWritten(fs: Fs, i: nat, off: nat, src: seq<Byte>)
    requires i < |fs.inodes|
    ensures WroteSome(fs, fs, i, off, src, 0)
  {
    hide Contents;
    assert src[..0] == [];
    if off <= fs.inodes[i].size {
      SplicedNone(Contents(fs, i), off);
    }
  }

  lemma MoreWritten(fs: Fs, gs: Fs, hs: Fs, i: nat, off: nat, src: seq<Byte>, m: nat, n: nat)
    requires WroteSome(fs, gs, i, off, src, m) && m <= n <= |src| && off <= fs.inodes[i].size && Written(gs, hs, i, off + m, src[m..n])
    ensures WroteSome(fs, hs, i, off, src, n) && hs.inodes[i].size >= off + n
  {
    hide Contents;
    SplicedMore(Contents(fs, i), off, src, m, n);
  }

  lemma StartsInside(fs: Fs, gs: Fs, i: nat, off: nat, src: seq<Byte>, m: nat)
    requires WroteSome(fs, gs, i, off, src, m)
    ensures off <= fs.inodes[i].size <==> off + m <= gs.inodes[i].size
  {
    hide Contents;
    if off <= fs.inodes[i].size {
      assert |Contents(gs, i)| == |Spliced(Contents(fs, i), off, src[..m])|;
    }
  }

  lemma SizeInRange(fs: Fs, owner: Owners, i: nat)
    requires FsOk(fs, owner) && i < |fs.inodes|
    ensures fs.inodes[i].size <= MAXFILE * BSIZE
  {
    assert NoHoles(fs, i);
  }

  lemma WrittenMeans(fs: Fs, hs: Fs, i: nat, off: nat, src: seq<Byte>)
    requires Written(fs, hs, i, off, src)
    ensures i < |fs.inodes| == |hs.inodes| && off <= fs.inodes[i].size && Contents(hs, i) == Spliced(Contents(fs, i), off, src)
    ensures hs.inodes[i].typ == fs.inodes[i].typ && hs.inodes[i].nlink == fs.inodes[i].nlink
    ensures forall j: nat :: j < |fs.inodes| && j != i ==> hs.inodes[j] == fs.inodes[j] && Contents(hs, j) == Contents(fs, j)
  {
  }

  lemma StillEmpty(fs: Fs, hs: Fs, i: nat, off: nat, src: seq<Byte>)
    requires Written(fs, hs, i, off, src) && FreeAreEmpty(fs.inodes) && fs.inodes[i].typ != 0
    ensures FreeAreEmpty(hs.inodes)
  {
    hide Contents, Spliced;
  }

  /** The inode cache is write-through still. */
  lemma ThroughKept(c: map<nat, Inode>, d: map<nat, Inode>, fs: Fs, hs: Fs, i: nat, off: nat, src: seq<Byte>)
    requires Written(fs, hs, i, off, src) && i in c && d == c[i := hs.inodes[i]]
    requires forall j :: j in c ==> j < |fs.inodes| && c[j] == fs.inodes[j]
    ensures forall j :: j in d ==> j < |hs.inodes| && d[j] == hs.inodes[j]
  {
    hide Contents, Spliced;
  }

  lemma SameSize(gs: Fs, i: nat)
    requires i < |gs.inodes|
    ensures Resized(gs, i, gs.inodes[i].size) == gs
  {
  }

  lemma WroteDone(fs: Fs, was: Owners, gs: Fs, owner: Owners, i: nat, off: nat, src: seq<Byte>)
    requires FsOk(fs, was) && Wrote(fs, gs, i, off, src) && Owns(gs, owner, {})
    requires off <= fs.inodes[i].size && off + |src| <= MAXFILE * BSIZE
    ensures var hs := Resized(gs, i, GrownSize(fs, i, off + |src|));
            FsOk(hs, owner) && Written(fs, hs, i, off, src)
  {
    hide Owns, NoHoles, Slot, ByteAt, Contents, Spliced;
    var size := GrownSize(fs, i, off + |src|);
    var hs := Resized(gs, i, size);
    ResizedSame(gs, i, size, owner);
    OverlaidSame(fs, gs, hs, i, off, src);
    OverlaidContents(fs, hs, i, off, src);
    forall j: nat | j < |fs.inodes|
      ensures NoHoles(hs, j)
    {
      WroteNoHoles(fs, gs, i, off, src, j);
    }
    forall j: nat | j < |fs.inodes| && j != i
      ensures hs.inodes[j] == fs.inodes[j] && Contents(hs, j) == Contents(fs, j)
    {
      OverlaidOthers(fs, hs, i, off, src, j);
    }
  }

  /** An account of a transaction: the logged blocks but for the indirect block and the inode's; the file
      blocks touched, the data blocks allocated, the indirect blocks allocated. */
  datatype Tally = Tally(core: set<nat>, blocks: nat, news: nat, inds: nat)

  ghost predicate TallySets(y: Tally, logged: set<nat>, ind: nat) {
    && logged <= y.core + (if ind != 0 then {ind} else {})
    && |y.core| <= y.blocks + y.news + y.inds
  }

  ghost predicate TallyCounts(y: Tally, ind: nat, off: nat, tot: nat) {
    && y.inds <= 1 && (y.inds == 1 ==> ind != 0)
    && y.news + (if off % BSIZE != 0 && y.blocks > 0 then 1 else 0) <= y.blocks
    && (y.blocks == 0 <==> tot == 0)
    && (tot > 0 ==> off / BSIZE + y.blocks - 1 == (off + tot - 1) / BSIZE)
  }

  ghost predicate TallyOk(y: Tally, logged: set<nat>, ind: nat, off: nat, tot: nat) {
    TallySets(y, logged, ind) && TallyCounts(y, ind, off, tot)
  }

  lemma TallyNone(ind: nat, off: nat)
    ensures TallyOk(Tally({}, 0, 0, 0), {}, ind, off, 0)
  {
  }

  lemma IndirectThere(fs: Fs, i: nat, k: nat)
    requires i < |fs.inodes| && k < MAXFILE && SlotAt(fs, i, k) != 0
    ensures k >= NDIRECT ==> SlotAt(fs, i, INDIRECT) != 0
  {
  }

  lemma UnionSize(s: set<nat>, t: set<nat>, i: nat, n: nat)
    requires (forall x :: x in s ==> n <= x) && (forall x :: x in t ==> x < n) && i < n && i !in t
    ensures |s + t + {i}| == |s| + |t| + 1
  {
    assert s !! t && i !in s + t;
  }

  predicate Different(a: nat, b: nat, c: nat, d: nat, e: nat) {
    a !in {b, c, d, e} && b !in {c, d, e} && c !in {d, e} && d != e
  }

  lemma DifferentSize(a: nat, b: nat, c: nat, d: nat, e: nat)
    requires Different(a, b, c, d, e)
    ensures |{a, b, c, d, e}| == 5 && |{b, c, d, e}| == 4
  {
    assert {b, c, d, e} == {b} + ({c} + {d, e});
    assert {a, b, c, d, e} == {a} + {b, c, d, e};
  }

  lemma AtMostOneMore(s: set<nat>, x: nat)
    ensures |s + {x}| <= |s| + 1
  {
    assert s + {x} == s || |s + {x}| == |s| + 1;
  }

  lemma SubsetSize(s: set<nat>, t: set<nat>)
    requires s <= t
    ensures |s| <= |t|
  {
    assert t == s + (t - s);
  }

  lemma TallySetsStep(y: Tally, logged: set<nat>, ind: nat, z: Tally, logged': set<nat>, ind': nat,
                      addr: nat, bits: set<nat>, newData: bool, newInd: bool)
    requires TallySets(y, logged, ind) && (ind != 0 ==> ind' == ind)
    requires |bits| <= (if newData then 1 else 0) + (if newInd then 1 else 0)
    requires z.core == y.core + {addr} + bits && z.blocks == y.blocks + 1
    requires z.news == y.news + (if newData then 1 else 0) && z.inds == y.inds + (if newInd then 1 else 0)
    requires logged' <= logged + {addr} + bits + (if ind' != 0 then {ind'} else {})
    ensures TallySets(z, logged', ind')
  {
    AtMostOneMore(y.core, addr);
    var c := y.core + {addr};
    assert |c + bits| + |c * bits| == |c| + |bits|;
  }

  lemma TallyCountsStep(y: Tally, ind: nat, off: nat, tot: nat, z: Tally, ind': nat, m: nat, newData: bool, newInd: bool)
    requires TallyCounts(y, ind, off, tot) && 0 < m && (off + tot) % BSIZE + m <= BSIZE
    requires tot == 0 || (off + tot) % BSIZE == 0
    requires (ind != 0 ==> ind' == ind) && (newInd ==> ind == 0 && ind' != 0)
    requires off % BSIZE != 0 && tot == 0 ==> !newData
    requires z.blocks == y.blocks + 1
    requires z.news == y.news + (if newData then 1 else 0) && z.inds == y.inds + (if newInd then 1 else 0)
    ensures TallyCounts(z, ind', off, tot + m)
  {
    assert tot > 0 ==> (off + tot + m - 1) / BSIZE == (off + tot - 1) / BSIZE + 1;
  }

  /** A chunk of filewrite touches at most four blocks, and at most three if it starts at a block boundary;
      of four the first is already there. */
  lemma TallyBound(y: Tally, logged: set<nat>, ind: nat, off: nat, tot: nat)
    requires TallyOk(y, logged, ind, off, tot) && tot <= CHUNK
    ensures |logged| < MAXOPBLOCKS
  {
    AtMostOneMore(y.core, ind);
    SubsetSize(logged, y.core + {ind});
  }

  lemma WroteKept(fs: Fs, gs: Fs, i: nat, off: nat, src: seq<Byte>)
    requires Wrote(fs, gs, i, off, src)
    ensures Kept(fs, gs)
  {
    hide Slot;
  }

  lemma WroteInode(fs: Fs, gs: Fs, i: nat, off: nat, src: seq<Byte>)
    requires Wrote(fs, gs, i, off, src)
    ensures gs.inodes[i].size == fs.inodes[i].size
  {
  }

  lemma WroteNone(fs: Fs, i: nat, off: nat)
    requires i < |fs.inodes| && NoHoles(fs, i) && off <= fs.inodes[i].size
    ensures Wrote(fs, fs, i, off, [])
  {
    hide Slot, ByteAt;
  }

  lemma WroteMore(fs: Fs, ms: Fs, gs: Fs, i: nat, off: nat, src: seq<Byte>, m: nat, k: nat)
    requires m < k <= |src| && Wrote(fs, ms, i, off, src[..m]) && Wrote(ms, gs, i, off + m, src[m..k])
    ensures Wrote(fs, gs, i, off, src[..k])
  {
    hide Slot, ByteAt;
    OverlaidMore(fs, ms, gs, i, off, src, m, k);
    hide Overlaid;
    assert gs.inodes == fs.inodes[i := fs.inodes[i].(addrs := gs.inodes[i].addrs)];
    forall i': nat, k': nat | IsSlot(fs, i', k') && SlotAt(fs, i', k') != 0
      ensures SlotAt(gs, i', k') == SlotAt(fs, i', k')
    {
      assert IsSlot(ms, i', k');
    }
    forall j: nat | off < (j + 1) * BSIZE && j * BSIZE < off + k
      ensures SlotAt(gs, i, j) != 0
    {
      WroteSlot(fs, ms, gs, i, off, m, k, j);
    }
  }

  lemma WroteSlot(fs: Fs, ms: Fs, gs: Fs, i: nat, off: nat, m: nat, k: nat, j: nat)
    requires i < |fs.inodes| == |ms.inodes| == |gs.inodes| && m <= k
    requires forall i': nat, k': nat :: IsSlot(ms, i', k') && SlotAt(ms, i', k') != 0 ==> SlotAt(gs, i', k') == SlotAt(ms, i', k')
    requires forall l: nat :: off < (l + 1) * BSIZE && l * BSIZE < off + m ==> SlotAt(ms, i, l) != 0
    requires forall l: nat :: off + m < (l + 1) * BSIZE && l * BSIZE < off + k ==> SlotAt(gs, i, l) != 0
    requires off < (j + 1) * BSIZE && j * BSIZE < off + k
    ensures SlotAt(gs, i, j) != 0
  {
    if j * BSIZE < off + m {
      assert SlotAt(ms, i, j) != 0;
      if j > INDIRECT {
        assert false;
      }
      hide Slot;
      assert IsSlot(ms, i, j);
    } else {
      hide Slot;
      assert off + m < (j + 1) * BSIZE;
    }
  }

  /** Blocks below an unaligned offset inside the file are there, so the first piece allocates nothing. */
  lemma FirstBlockThere(fs: Fs, v: Fs, i: nat, off: nat, done: seq<Byte>)
    requires i < |fs.inodes| && NoHoles(fs, i) && off <= fs.inodes[i].size && Wrote(fs, v, i, off, done)
    ensures off % BSIZE != 0 ==> SlotAt(v, i, off / BSIZE) != 0
    ensures forall k: nat :: k * BSIZE < fs.inodes[i].size ==> SlotAt(v, i, k) != 0
  {
    forall k: nat | k * BSIZE < fs.inodes[i].size
      ensures SlotAt(v, i, k) != 0
    {
      assert k < MAXFILE && SlotAt(fs, i, k) != 0;
      hide Slot;
      assert IsSlot(fs, i, k);
    }
    if off % BSIZE != 0 {
      assert off / BSIZE * BSIZE < off;
    }
  }

  /** `src` has been written to file i at `off`: its bytes and no others changed, the blocks under it are
      there, and inode i is the same but for new block addresses. */
  ghost predicate Wrote(fs: Fs, gs: Fs, i: nat, off: nat, src: seq<Byte>) {
    && gs.nmeta == fs.nmeta && |gs.used| == |fs.used| && |gs.inodes| == |fs.inodes| && i < |fs.inodes|
    && gs.inodes == fs.inodes[i := fs.inodes[i].(addrs := gs.inodes[i].addrs)]
    && (forall i': nat, k': nat :: IsSlot(fs, i', k') && SlotAt(fs, i', k') != 0 ==> SlotAt(gs, i', k') == SlotAt(fs, i', k'))
    && (forall k: nat :: off < (k + 1) * BSIZE && k * BSIZE < off + |src| ==> SlotAt(gs, i, k) != 0)
    && Overlaid(fs, gs, i, off, src)
  }

  lemma PieceWrote(fs: Fs, ms: Fs, gs: Fs, i: nat, off: nat, piece: seq<Byte>, addr: nat, newData: bool)
    requires MapStep(fs, ms, i, off / BSIZE, addr, newData) && off % BSIZE + |piece| <= BSIZE && off / BSIZE < MAXFILE
    requires gs.nmeta == ms.nmeta && gs.used == ms.used && gs.inodes == ms.inodes && SameSlots(ms, gs)
    requires Overlaid(ms, gs, i, off / BSIZE * BSIZE + off % BSIZE, piece)
    ensures Wrote(fs, gs, i, off, piece)
    ensures SlotAt(gs, i, off / BSIZE) == addr && SlotAt(gs, i, INDIRECT) == SlotAt(ms, i, INDIRECT)
  {
    hide Slot, ByteAt;
    assert off / BSIZE * BSIZE + off % BSIZE == off;
    assert IsSlot(ms, i, INDIRECT) && IsSlot(ms, i, off / BSIZE);
    forall i': nat, k': nat | IsSlot(fs, i', k') && SlotAt(fs, i', k') != 0
      ensures SlotAt(gs, i', k') == SlotAt(fs, i', k')
    {
      assert IsSlot(ms, i', k');
    }
    forall k: nat | off < (k + 1) * BSIZE && k * BSIZE < off + |piece|
      ensures SlotAt(gs, i, k) != 0
    {
      assert k == off / BSIZE;
    }
    assert SameBytes(fs, ms);
  }

  /** Inside the file, the block is there. */
  lemma ReadStep(fs: Fs, owner: Owners, i: nat, at: nat)
    requires FsOk(fs, owner) && i < |fs.inodes| && at < fs.inodes[i].size
    ensures at / BSIZE < MAXFILE && 0 < SlotAt(fs, i, at / BSIZE) < |fs.blocks|
  {
    hide Slot;
    assert NoHoles(fs, i);
    SlotInside(fs, owner, i, at / BSIZE);
  }

  lemma PieceBytes(fs: Fs, i: nat, at: nat, m: nat, a: nat)
    requires i < |fs.inodes| && at / BSIZE < MAXFILE && at % BSIZE + m <= BSIZE && SlotAt(fs, i, at / BSIZE) == a
    requires 0 < a < |fs.blocks|
    ensures var piece := fs.blocks[a][at % BSIZE..at % BSIZE + m];
            forall o :: 0 <= o < m ==> piece[o] == ByteAt(fs, i, at + o)
  {
    hide Slot;
    var piece := fs.blocks[a][at % BSIZE..at % BSIZE + m];
    forall o | 0 <= o < m
      ensures piece[o] == ByteAt(fs, i, at + o)
    {
      assert (at + o) / BSIZE == at / BSIZE && (at + o) % BSIZE == at % BSIZE + o;
    }
  }

  lemma NoIndirect(fs: Fs, i: nat, k: nat)
    requires i < |fs.inodes| && NDIRECT <= k < MAXFILE
    ensures SlotAt(fs, i, INDIRECT) == 0 ==> SlotAt(fs, i, k) == 0
  {
  }

  lemma MapTwice(fs: Fs, ms: Fs, gs: Fs, i: nat, bn: nat, ind: nat, newInd: bool, addr: nat, newData: bool)
    requires MapStep(fs, ms, i, INDIRECT, ind, newInd) && MapStep(ms, gs, i, bn, addr, newData)
    requires NDIRECT <= bn < MAXFILE && SlotAt(ms, i, bn) == SlotAt(fs, i, bn)
    requires newInd ==> newData
    ensures MapStep(fs, gs, i, bn, addr, newData) && SlotAt(gs, i, INDIRECT) == ind
  {
    hide Slot, SameBytes;
    GrownTrans(fs, ms, gs, i);
    assert IsSlot(ms, i, INDIRECT);
  }

  lemma OwnsShape(fs: Fs, owner: Owners)
    requires Owns(fs, owner, {})
    ensures 0 < fs.nmeta <= |fs.used| == |fs.blocks|
  {
  }

  lemma SlotInside(fs: Fs, owner: Owners, i: nat, k: nat)
    requires Owns(fs, owner, {}) && IsSlot(fs, i, k) && SlotAt(fs, i, k) != 0
    ensures fs.nmeta <= SlotAt(fs, i, k) < |fs.blocks|
  {
  }

  lemma GainedSlot(fs: Fs, gs: Fs, i: nat, k: nat, b: nat, owner: Owners)
    requires Gained(fs, gs, i, k, b) && IsSlot(fs, i, k) && Owns(gs, owner, {}) && b in owner
    ensures SlotAt(gs, i, k) == b != 0
    ensures k == INDIRECT ==> forall k': nat :: k' < MAXFILE ==> SlotAt(gs, i, k') == SlotAt(fs, i, k')
  {
    hide Slot;
    forall k': nat | k' < MAXFILE
      ensures k == INDIRECT ==> SlotAt(gs, i, k') == SlotAt(fs, i, k')
    {
      assert IsSlot(fs, i, k');
    }
  }
}
