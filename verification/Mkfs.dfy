/** mkfs.c: the image a file system starts from. */
module Mkfs {
  import opened Common
  import opened FileBlocks
  import opened FileSystem

  /** The bitmap mkfs writes last: the first `n` blocks are in use. */
  function FirstUsed(size: nat, n: nat): (r: seq<bool>)
    ensures |r| == size && forall b :: 0 <= b < size ==> r[b] == (b < n)
  {
    seq(size, b => b < n)
  }

  /** Exactly the blocks a file's size calls for. */
  ghost predicate Exact(fs: Fs, i: nat)
    requires i < |fs.inodes|
  {
    forall k: nat :: k < MAXFILE ==> (SlotAt(fs, i, k) != 0 <==> k * BSIZE < fs.inodes[i].size)
  }

  /** Past its end the file's last block holds zeros. */
  ghost predicate ZeroTail(fs: Fs, i: nat)
    requires i < |fs.inodes|
  {
    forall o: nat :: fs.inodes[i].size <= o ==> ByteAt(fs, i, o) == 0
  }

  /** mkfs rounds a size up to a block boundary, and past it if it is already on one. */
  function Rounded(size: nat): (r: nat)
    ensures size < r <= size + BSIZE && r % BSIZE == 0
  {
    (size / BSIZE + 1) * BSIZE
  }

  /** The rounded directory has all its blocks exactly if the size was not a multiple of the block size. */
  lemma RootRoundedIff(fs: Fs, i: nat)
    requires i < |fs.inodes| && Exact(fs, i) && fs.inodes[i].size <= MAXFILE * BSIZE
    ensures NoHoles(Resized(fs, i, Rounded(fs.inodes[i].size)), i) <==> fs.inodes[i].size % BSIZE != 0
  {
    var s := fs.inodes[i].size;
    var gs := Resized(fs, i, Rounded(s));
    assert forall k: nat :: SlotAt(gs, i, k) == SlotAt(fs, i, k);
    hide Slot;
    var k := s / BSIZE;
    if s % BSIZE == 0 {
      if k < MAXFILE {
        assert k * BSIZE < gs.inodes[i].size && SlotAt(gs, i, k) == 0;
      }
    } else {
      forall k': nat | k' * BSIZE < gs.inodes[i].size
        ensures SlotAt(gs, i, k') != 0
      {
        assert k' <= k;
      }
    }
  }

  /** The image with the rounded root is what the kernel needs exactly if the size was not a multiple of the
      block size; either way every file keeps its bytes and the directory is padded with zeros. */
  lemma RoundedOkIff(fs: Fs, i: nat, owner: Owners)
    requires i < |fs.inodes| && FsOk(fs, owner) && Exact(fs, i) && ZeroTail(fs, i)
    ensures var gs := Resized(fs, i, Rounded(fs.inodes[i].size));
            && Owns(gs, owner, {}) && (FsOk(gs, owner) <==> fs.inodes[i].size % BSIZE != 0)
            && (forall j: nat :: j < |fs.inodes| && j != i ==> Contents(gs, j) == Contents(fs, j))
            && Contents(gs, i) == Contents(fs, i) + seq(Rounded(fs.inodes[i].size) - fs.inodes[i].size, _ => 0)
  {
    hide Owns, Slot, ByteAt;
    var s := fs.inodes[i].size;
    var gs := Resized(fs, i, Rounded(s));
    ResizedSame(fs, i, Rounded(s), owner);
    assert NoHoles(fs, i);
    RootRoundedIff(fs, i);
    forall j: nat | j < |fs.inodes| && j != i
      ensures NoHoles(gs, j)
    {
      assert NoHoles(fs, j);
      assert forall k: nat :: k <= INDIRECT ==> IsSlot(fs, j, k);
    }
  }

  class Image {
    const nmeta: nat
    const size: nat
    var blocks: seq<Block>
    var inodes: seq<Inode>
    var freeblock: nat
    var freeinode: nat
    ghost var owner: Owners

    ghost function View(): Fs
      reads this
    {
      Fs(nmeta, FirstUsed(size, freeblock), blocks, inodes)
    }

    ghost predicate Mapped()
      reads this
    {
      && Owns(View(), owner, {}) && nmeta <= freeblock <= size && |blocks| == size
      && forall b :: freeblock <= b < size ==> blocks[b] == Zeros()
    }

    /** The image so far is a file system whose bitmap is "everything below freeblock". */
    ghost predicate Valid()
      reads this
    {
      && Mapped() && FsOk(View(), owner) && FreeAreEmpty(inodes) && 1 <= freeinode
      && (forall i: nat :: i < |inodes| ==> Exact(View(), i) && ZeroTail(View(), i))
      && forall i :: freeinode <= i < |inodes| ==> inodes[i].typ == 0
    }

    /** An empty image: all sectors zero. */
    constructor (nmeta: nat, size: nat, ninodes: nat)
      requires 0 < nmeta <= size < TWO_32
      ensures Valid() && this.nmeta == nmeta && this.size == size && |inodes| == ninodes && freeblock == nmeta && freeinode == 1
      ensures forall i :: 0 <= i < ninodes ==> inodes[i] == Inode(0, 0, 0, NoAddrs())
    {
      this.nmeta, this.size, this.freeblock, this.freeinode := nmeta, size, nmeta, 1;
      blocks := seq(size, _ => Zeros());
      inodes := seq(ninodes, _ => Inode(0, 0, 0, NoAddrs()));
      owner := map[];
    }

    /** ialloc: the next inode, empty, with one link. */
    method IAlloc(typ: nat) returns (inum: nat)
      requires Valid() && typ != 0 && freeinode < |inodes|
      modifies this`inodes, this`freeinode
      ensures Valid() && inum == old(freeinode) && freeinode == inum + 1
      ensures inodes == old(inodes)[inum := Inode(typ, 1, 0, NoAddrs())] && Contents(View(), inum) == []
      ensures forall j: nat :: j < |inodes| && j != inum ==> Contents(View(), j) == Contents(old(View()), j)
    {
      hide Owns, Slot, NoHoles, FirstUsed, Exact, ZeroTail;
      inum := freeinode;
      freeinode := freeinode + 1;
      ghost var fs := View();
      assert Exact(fs, inum);
      Linked(fs, inum, typ, owner);
      inodes := inodes[inum := Inode(typ, 1, 0, NoAddrs())];
      assert View() == fs.(inodes := inodes);
    }

    /** Take the next block of the image for a slot of an inode. */
    method Next() returns (ok: bool, b: nat)
      requires Mapped()
      modifies this`freeblock
      ensures ok == (old(freeblock) < size)
      ensures ok ==>
                && b == old(freeblock) && freeblock == b + 1 && b < |old(View()).used| && !old(View()).used[b]
                && |old(View()).used| == |blocks| && View() == TakeBlock(old(View()), b)
      ensures !ok ==> freeblock == size
    {
      ok, b := freeblock < size, freeblock;
      if ok {
        freeblock := freeblock + 1;
        assert FirstUsed(size, b + 1) == FirstUsed(size, b)[b := true];
        assert blocks[b := Zeros()] == blocks;
      }
    }

    method MapDirect(inum: nat, fbn: nat) returns (ok: bool, x: nat, ghost fresh': bool)
      requires Mapped() && inum < |inodes| && fbn < NDIRECT
      modifies this`inodes, this`freeblock, this`owner
      ensures ok ==>
                && Mapped() && MapStep(old(View()), View(), inum, fbn, x, fresh')
                && OnlySlot(old(View()), View(), inum, fbn)
      ensures !ok ==> freeblock == size
    {
      hide Owns, Gained, Grown, SameBytes, Slot, FirstUsed;
      ghost var v := View();
      x, ok, fresh' := inodes[inum].addrs[fbn], true, false;
      DirectSlot(v, inum, fbn);
      GrownSelf(v, inum);
      if x == 0 {
        ok, x := Next();
        if ok {
          fresh' := true;
          GainDirect(v, owner, inum, fbn, x);
          inodes := inodes[inum := inodes[inum].(addrs := inodes[inum].addrs[fbn := x])];
          owner := owner[x := (inum, fbn)];
          assert View() == PutAddr(TakeBlock(v, x), inum, fbn, x);
          GainedGrown(v, View(), inum, fbn, x);
          GainedSlot(v, View(), inum, fbn, x, owner);
          GainedOnly(v, View(), inum, fbn, x);
        }
      }
    }

    method MapIndirect(inum: nat) returns (ok: bool, x: nat, ghost fresh': bool)
      requires Mapped() && inum < |inodes|
      modifies this`inodes, this`freeblock, this`owner
      ensures ok ==>
                && Mapped() && MapStep(old(View()), View(), inum, INDIRECT, x, fresh')
                && OnlySlot(old(View()), View(), inum, INDIRECT)
      ensures !ok ==> freeblock == size
    {
      hide Owns, Gained, Grown, SameBytes, Slot, FirstUsed;
      ghost var v := View();
      x, ok, fresh' := inodes[inum].addrs[NDIRECT], true, false;
      IndirectSlot(v, owner, inum);
      GrownSelf(v, inum);
      if x == 0 {
        ok, x := Next();
        if ok {
          fresh' := true;
          GainIndirect(v, owner, inum, x);
          inodes := inodes[inum := inodes[inum].(addrs := inodes[inum].addrs[NDIRECT := x])];
          owner := owner[x := (inum, INDIRECT)];
          assert View() == PutAddr(TakeBlock(v, x), inum, NDIRECT, x);
          GainedGrown(v, View(), inum, INDIRECT, x);
          GainedSlot(v, View(), inum, INDIRECT, x, owner);
          GainedOnly(v, View(), inum, INDIRECT, x);
        }
      }
    }

    method MapEntry(inum: nat, j: nat) returns (ok: bool, x: nat, ghost fresh': bool)
      requires Mapped() && inum < |inodes| && j < NINDIRECT && SlotAt(View(), inum, INDIRECT) != 0
      modifies this`blocks, this`freeblock, this`owner
      ensures ok ==>
                && Mapped() && MapStep(old(View()), View(), inum, NDIRECT + j, x, fresh')
                && OnlySlot(old(View()), View(), inum, NDIRECT + j)
      ensures !ok ==> freeblock == size
    {
      hide Owns, Gained, Grown, SameBytes, Slot, FirstUsed, Word, SetWord;
      ghost var v := View();
      var ind := inodes[inum].addrs[NDIRECT];
      IndirectSlot(v, owner, inum);
      EntrySlot(v, owner, inum, j);
      IndirectBelow(v, owner, inum, freeblock);
      x, ok, fresh' := Word(blocks[ind], j), true, false;
      GrownSelf(v, inum);
      if x == 0 {
        ok, x := Next();
        if ok {
          fresh' := true;
          GainEntry(v, owner, inum, j, x);
          blocks := blocks[ind := SetWord(blocks[ind], j, x)];
          owner := owner[x := (inum, NDIRECT + j)];
          assert View() == PutEntry(TakeBlock(v, x), inum, j, x);
          GainedGrown(v, View(), inum, NDIRECT + j, x);
          GainedSlot(v, View(), inum, NDIRECT + j, x, owner);
          GainedOnly(v, View(), inum, NDIRECT + j, x);
        }
      }
    }

    /** iappend's choice of the sector for file block fbn. */
    method Map(inum: nat, fbn: nat) returns (ok: bool, x: nat, ghost fresh': bool)
      requires Mapped() && inum < |inodes| && fbn < MAXFILE
      modifies this`blocks, this`inodes, this`freeblock, this`owner
      ensures ok ==>
                && Mapped() && MapStep(old(View()), View(), inum, fbn, x, fresh')
                && OnlySlot(old(View()), View(), inum, fbn)
      ensures !ok ==> freeblock == size
    {
      hide Owns, Grown, SameBytes, Slot;
      if fbn < NDIRECT {
        ok, x, fresh' := MapDirect(inum, fbn);
        return;
      }
      ghost var v := View();
      NoIndirect(v, inum, fbn);
      var ind;
      ghost var newInd;
      ok, ind, newInd := MapIndirect(inum);
      x, fresh' := 0, false;
      if ok {
        ghost var m := View();
        ok, x, fresh' := MapEntry(inum, fbn - NDIRECT);
        if ok {
          MapTwice(v, m, View(), inum, fbn, ind, newInd, x, fresh');
        }
      }
    }

    /** iappend: the file grows by src at its end; no other file changes. `ok` is false where mkfs would
        stop at an assertion or run past the image: the file would be too large, or every block is taken. */
    method IAppend(inum: nat, src: seq<Byte>) returns (ok: bool)
      requires Valid() && inum < |inodes| && inodes[inum].typ != 0
      modifies this`blocks, this`inodes, this`freeblock, this`owner
      ensures ok ==>
                && Valid() && |inodes| == |old(inodes)|
                && Contents(View(), inum) == Contents(old(View()), inum) + src
                && inodes[inum].typ == old(inodes)[inum].typ && inodes[inum].nlink == old(inodes)[inum].nlink
                && forall j: nat :: j < |inodes| && j != inum ==>
                     inodes[j] == old(inodes)[j] && Contents(View(), j) == Contents(old(View()), j)
      ensures ok ==> old(inodes)[inum].size + |src| <= MAXFILE * BSIZE
      ensures !ok ==> freeblock == size || old(inodes)[inum].size + |src| > MAXFILE * BSIZE
    {
      hide Owns, NoHoles, Slot, Wrote, Contents, Spliced, Exact, ZeroTail;
      ghost var fs, was := View(), owner;
      var off := inodes[inum].size;
      ok := AppendLoop(inum, src);
      if !ok {
        return;
      }
      ghost var gs := View();
      assert off + |src| <= MAXFILE * BSIZE;
      WroteDone(fs, was, gs, owner, inum, off, src);
      WroteInode(fs, gs, inum, off, src);
      inodes := inodes[inum := inodes[inum].(size := off + |src|)];
      assert View() == Resized(gs, inum, off + |src|);
      AppendedExact(fs, gs, inum, src);
      AppendedTail(fs, gs, inum, src, owner);
      SplicedEnd(Contents(fs, inum), src);
      assert FreeAreEmpty(inodes);
    }

    /** iappend's loop. */
    method AppendLoop(inum: nat, src: seq<Byte>) returns (ok: bool)
      requires Valid() && inum < |inodes|
      modifies this`blocks, this`inodes, this`freeblock, this`owner
      ensures ok ==>
                && Mapped() && Wrote(old(View()), View(), inum, old(inodes)[inum].size, src)
                && old(inodes)[inum].size + |src| <= MAXFILE * BSIZE
                && OnlyAppended(old(View()), View(), inum, old(inodes)[inum].size + |src|)
      ensures !ok ==> freeblock == size || old(inodes)[inum].size + |src| > MAXFILE * BSIZE
    {
      hide Owns, NoHoles, Slot, Wrote, OnlyAppended;
      ghost var fs := View();
      ghost var off := inodes[inum].size;
      var at := inodes[inum].size;
      var done := 0;
      WroteNone(fs, inum, off);
      assert src[..0] == [];
      OnlyNone(fs, inum, off);
      assert NoHoles(fs, inum);
      BoundedSize(fs, inum);
      while done < |src|
        invariant 0 <= done <= |src| && at == off + done <= MAXFILE * BSIZE && Mapped() && inum < |inodes|
        invariant Wrote(fs, View(), inum, off, src[..done]) && OnlyAppended(fs, View(), inum, at)
      {
        var fbn := at / BSIZE;
        if fbn >= MAXFILE {
          return false;
        }
        ghost var v := View();
        var x;
        ghost var fresh';
        ok, x, fresh' := Map(inum, fbn);
        if !ok {
          return;
        }
        var n1 := if |src| - done < (fbn + 1) * BSIZE - at then |src| - done else (fbn + 1) * BSIZE - at;
        Put(inum, at, src[done..done + n1], x, v, fresh');
        WroteMore(fs, v, View(), inum, off, src, done, done + n1);
        OnlyMore(fs, v, View(), inum, at, n1);
        at, done := at + n1, done + n1;
      }
      assert src[..done] == src;
      ok := true;
    }

    /** The last step: the root directory's size is rounded up. The image is then one the kernel can start
        from exactly if that size was not a multiple of the block size. */
    method Finish(root: nat)
      requires Valid() && root < |inodes| && inodes[root].typ != 0
      modifies this`inodes
      ensures inodes == old(inodes)[root := old(inodes)[root].(size := Rounded(old(inodes)[root].size))]
      ensures FreeAreEmpty(inodes) && (FsOk(View(), owner) <==> old(inodes)[root].size % BSIZE != 0)
      ensures forall j: nat :: j < |inodes| && j != root ==> Contents(View(), j) == Contents(old(View()), j)
      ensures Contents(View(), root) ==
              Contents(old(View()), root) + seq(Rounded(old(inodes)[root].size) - old(inodes)[root].size, _ => 0)
    {
      hide Owns, NoHoles, Slot, ByteAt, Contents, FirstUsed, Exact, ZeroTail;
      ghost var fs := View();
      var off := inodes[root].size;
      assert Exact(fs, root) && ZeroTail(fs, root);
      RoundedOkIff(fs, root, owner);
      inodes := inodes[root := inodes[root].(size := Rounded(off))];
      assert View() == Resized(fs, root, Rounded(off));
    }

    /** The kernel's first look at a finished image: nothing cached, nothing logged. */
    method Mount(bmapstart: nat, inodestart: nat) returns (f: FileSystem)
      requires FsOk(View(), owner) && FreeAreEmpty(inodes)
      ensures fresh(f) && f.Valid() && f.OnDisk() == View() && f.icache == map[] && f.logged == {}
    {
      f := new FileSystem(nmeta, bmapstart, inodestart, FirstUsed(size, freeblock), blocks, inodes, owner);
    }

    /** Copy one piece into its sector. */
    method Put(inum: nat, at: nat, piece: seq<Byte>, x: nat, ghost v: Fs, ghost fresh': bool)
      requires Mapped() && inum < |inodes| && at / BSIZE < MAXFILE && at % BSIZE + |piece| <= BSIZE
      requires MapStep(v, View(), inum, at / BSIZE, x, fresh') && OnlySlot(v, View(), inum, at / BSIZE)
      modifies this`blocks
      ensures Mapped() && Wrote(v, View(), inum, at, piece) && OnlySlot(v, View(), inum, at / BSIZE)
    {
      hide Owns, Slot, Grown, SameBytes, ByteAt, Overlaid, Patch, FirstUsed;
      ghost var w := View();
      PutBytesOverlays(w, owner, inum, at / BSIZE, at % BSIZE, piece);
      SlotBelow(w, owner, inum, at / BSIZE, freeblock);
      blocks := blocks[x := Patch(blocks[x], at % BSIZE, piece)];
      assert View() == PutBytes(w, x, at % BSIZE, piece);
      PieceWrote(v, w, View(), inum, at, piece, x, fresh');
      OnlyKept(v, w, View(), inum, at / BSIZE);
    }
  }

  /** Only slots of inode i below `end` bytes differ. */
  ghost predicate OnlyAppended(fs: Fs, gs: Fs, i: nat, end: nat) {
    |gs.inodes| == |fs.inodes| && forall i': nat, k': nat ::
      i' < |fs.inodes| && k' < MAXFILE && !(i' == i && k' * BSIZE < end) ==> SlotAt(gs, i', k') == SlotAt(fs, i', k')
  }

  lemma OnlyNone(fs: Fs, i: nat, end: nat)
    ensures OnlyAppended(fs, fs, i, end)
  {
  }

  lemma OnlyMore(fs: Fs, ms: Fs, gs: Fs, i: nat, at: nat, n: nat)
    requires OnlyAppended(fs, ms, i, at) && OnlySlot(ms, gs, i, at / BSIZE) && n > 0
    ensures OnlyAppended(fs, gs, i, at + n)
  {
    hide Slot;
    assert at / BSIZE * BSIZE <= at;
  }

  lemma SlotBelow(fs: Fs, owner: Owners, i: nat, k: nat, n: nat)
    requires Owns(fs, owner, {}) && IsSlot(fs, i, k) && fs.used == FirstUsed(|fs.used|, n)
    ensures SlotAt(fs, i, k) != 0 ==> SlotAt(fs, i, k) < n
  {
  }

  lemma IndirectBelow(fs: Fs, owner: Owners, i: nat, n: nat)
    requires Owns(fs, owner, {}) && i < |fs.inodes| && fs.used == FirstUsed(|fs.used|, n)
    requires SlotAt(fs, i, INDIRECT) != 0
    ensures fs.inodes[i].addrs[NDIRECT] < n
  {
    SlotBelow(fs, owner, i, INDIRECT, n);
  }

  lemma BoundedSize(fs: Fs, i: nat)
    requires i < |fs.inodes| && NoHoles(fs, i)
    ensures fs.inodes[i].size <= MAXFILE * BSIZE
  {
  }

  lemma SplicedEnd(c: seq<Byte>, src: seq<Byte>)
    ensures Spliced(c, |c|, src) == c + src
  {
  }

  lemma AppendedExact(fs: Fs, gs: Fs, i: nat, src: seq<Byte>)
    requires i < |fs.inodes| && Wrote(fs, gs, i, fs.inodes[i].size, src)
    requires OnlyAppended(fs, gs, i, fs.inodes[i].size + |src|)
    requires forall j: nat :: j < |fs.inodes| ==> Exact(fs, j)
    ensures var hs := Resized(gs, i, fs.inodes[i].size + |src|);
            forall j: nat :: j < |fs.inodes| ==> Exact(hs, j)
  {
    var s := fs.inodes[i].size;
    var hs := Resized(gs, i, s + |src|);
    forall j: nat, k: nat | j < |fs.inodes| && k < MAXFILE
      ensures SlotAt(hs, j, k) != 0 <==> k * BSIZE < hs.inodes[j].size
    {
      assert SlotAt(hs, j, k) == SlotAt(gs, j, k);
      hide Slot;
      assert Exact(fs, j) && IsSlot(fs, j, k);
    }
  }

  lemma AppendedTail(fs: Fs, gs: Fs, i: nat, src: seq<Byte>, owner: Owners)
    requires i < |fs.inodes| && Wrote(fs, gs, i, fs.inodes[i].size, src) && Owns(gs, owner, {})
    requires forall j: nat :: j < |fs.inodes| ==> ZeroTail(fs, j)
    ensures var hs := Resized(gs, i, fs.inodes[i].size + |src|);
            forall j: nat :: j < |fs.inodes| ==> ZeroTail(hs, j)
  {
    hide Slot, ByteAt, Owns;
    ResizedSame(gs, i, fs.inodes[i].size + |src|, owner);
    forall j: nat, o: nat | j < |fs.inodes| && Resized(gs, i, fs.inodes[i].size + |src|).inodes[j].size <= o
      ensures ByteAt(gs, j, o) == 0
    {
      assert ZeroTail(fs, j);
    }
  }

  lemma Linked(fs: Fs, i: nat, typ: nat, owner: Owners)
    requires FsOk(fs, owner) && FreeAreEmpty(fs.inodes) && i < |fs.inodes| && fs.inodes[i].typ == 0 && Exact(fs, i)
    ensures var gs := fs.(inodes := fs.inodes[i := Inode(typ, 1, 0, NoAddrs())]);
            FsOk(gs, owner) && (forall j: nat :: j < |fs.inodes| && Exact(fs, j) ==> Exact(gs, j))
            && (forall j: nat :: j < |fs.inodes| && ZeroTail(fs, j) ==> ZeroTail(gs, j))
  {
    var gs := fs.(inodes := fs.inodes[i := Inode(typ, 1, 0, NoAddrs())]);
    assert SameSlots(fs, gs) && SameBytes(fs, gs);
    hide Slot, ByteAt;
    SameSlotsOwn(fs, gs, owner, {});
    forall j: nat | j < |fs.inodes|
      ensures NoHoles(gs, j) && (Exact(fs, j) ==> Exact(gs, j))
    {
      assert NoHoles(fs, j);
      assert forall k: nat :: k < MAXFILE ==> IsSlot(fs, j, k);
    }
  }
}
