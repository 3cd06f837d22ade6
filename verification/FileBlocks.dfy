/** How files own disk blocks (fs.c, fs.h): block maps with an indirect block, the free bitmap, and the
    bytes of a file, on values. */
module FileBlocks {
  import opened Common

  const NDIRECT: nat := 12
  const NINDIRECT: nat := 128     // BSIZE / sizeof(uint)
  const MAXFILE: nat := 140       // NDIRECT + NINDIRECT
  const INDIRECT: nat := 140      // the slot of the indirect block itself, after the data slots
  const TWO_32: nat := 0x1_0000_0000

  type Byte = x: int | 0 <= x < 256
  type Block = b: seq<Byte> | |b| == BSIZE witness seq(BSIZE, _ => 0)

  function Zeros(): (b: Block)
    ensures forall i :: 0 <= i < BSIZE ==> b[i] == 0
  {
    seq(BSIZE, _ => 0)
  }

  // ---------- the indirect block as 32-bit little-endian words ----------

  function Word(b: Block, j: nat): nat
    requires j < NINDIRECT
  {
    Join(b[4 * j], b[4 * j + 1], b[4 * j + 2], b[4 * j + 3])
  }

  function Join(b0: int, b1: int, b2: int, b3: int): (r: nat)
    requires b0 >= 0 && b1 >= 0 && b2 >= 0 && b3 >= 0
  {
    b0 + 0x100 * b1 + 0x1_0000 * b2 + 0x100_0000 * b3
  }

  lemma JoinSplit(v: nat)
    requires v < TWO_32
    ensures Join(v % 0x100, v / 0x100 % 0x100, v / 0x1_0000 % 0x100, v / 0x100_0000 % 0x100) == v
  {
    assert v / 0x1_0000 == v / 0x100 / 0x100 && v / 0x100_0000 == v / 0x1_0000 / 0x100;
  }

  function SetWord(b: Block, j: nat, v: nat): Block
    requires j < NINDIRECT
  {
    b[4 * j := v % 0x100][4 * j + 1 := v / 0x100 % 0x100][4 * j + 2 := v / 0x1_0000 % 0x100][4 * j + 3 := v / 0x100_0000 % 0x100]
  }

  lemma WordSet(b: Block, j: nat, v: nat, k: nat)
    requires j < NINDIRECT && k < NINDIRECT && v < TWO_32
    ensures Word(SetWord(b, j, v), k) == if k == j then v else Word(b, k)
  {
    hide Join;
    JoinSplit(v);
  }

  // ---------- inodes and what they own ----------

  type Addrs = a: seq<nat> | |a| == NDIRECT + 1 witness seq(NDIRECT + 1, _ => 0)

  datatype Inode = Inode(typ: nat, nlink: nat, size: nat, addrs: Addrs)

  /** The file system as the kernel sees it: the bitmap, the blocks, and the inodes with their cached
      contents where cached. Blocks below nmeta hold the boot block, superblock, log, inodes and bitmap. */
  datatype Fs = Fs(nmeta: nat, used: seq<bool>, blocks: seq<Block>, inodes: seq<Inode>)

  /** Slot k of an inode: data block k, or the indirect block. 0 is "none". */
  function Slot(blocks: seq<Block>, addrs: Addrs, k: nat): nat {
    if k < NDIRECT then addrs[k]
    else if k == INDIRECT then addrs[NDIRECT]
    else if k < MAXFILE && 0 < addrs[NDIRECT] < |blocks| then Word(blocks[addrs[NDIRECT]], k - NDIRECT)
    else 0
  }

  function SlotAt(fs: Fs, i: nat, k: nat): nat
    requires i < |fs.inodes|
  {
    Slot(fs.blocks, fs.inodes[i].addrs, k)
  }

  /** Which slot of which inode owns a block. */
  type Owners = map<nat, (nat, nat)>

  predicate IsSlot(fs: Fs, i: nat, k: nat) {
    i < |fs.inodes| && k <= INDIRECT
  }

  ghost predicate Shape(fs: Fs) {
    0 < fs.nmeta <= |fs.used| == |fs.blocks| < TWO_32 && forall b :: 0 <= b < fs.nmeta ==> fs.used[b]
  }

  ghost predicate SlotsOwn(fs: Fs, owner: Owners) {
    forall i: nat, k: nat :: IsSlot(fs, i, k) && SlotAt(fs, i, k) != 0 ==>
      SlotAt(fs, i, k) in owner && owner[SlotAt(fs, i, k)] == (i, k)
  }

  ghost predicate OwnersReal(fs: Fs, owner: Owners) {
    forall a :: a in owner ==>
      && fs.nmeta <= a < |fs.used| && fs.used[a]
      && IsSlot(fs, owner[a].0, owner[a].1) && SlotAt(fs, owner[a].0, owner[a].1) == a
  }

  /** Block conservation: the bitmap marks the metadata blocks, the blocks owned by exactly one slot, and
      those in `spare`, which are just being allocated or freed. */
  ghost predicate Owns(fs: Fs, owner: Owners, spare: set<nat>) {
    && Shape(fs) && SlotsOwn(fs, owner) && OwnersReal(fs, owner)
    && (forall b :: b in spare ==> fs.nmeta <= b < |fs.used| && fs.used[b] && b !in owner)
    && (forall b :: fs.nmeta <= b < |fs.used| && fs.used[b] ==> b in owner || b in spare)
  }

  ghost predicate SameSlots(fs: Fs, gs: Fs) {
    |gs.inodes| == |fs.inodes| && forall i: nat, k: nat :: IsSlot(fs, i, k) ==> SlotAt(gs, i, k) == SlotAt(fs, i, k)
  }

  // ---------- allocating and freeing ----------

  function TakeBlock(fs: Fs, b: nat): Fs
    requires b < |fs.used| == |fs.blocks|
  {
    fs.(used := fs.used[b := true], blocks := fs.blocks[b := Zeros()])
  }

  lemma TakeSameSlots(fs: Fs, owner: Owners, spare: set<nat>, b: nat)
    requires Owns(fs, owner, spare) && b < |fs.used| && !fs.used[b]
    ensures SameSlots(fs, TakeBlock(fs, b))
  {
    hide Word;
    forall i: nat, k: nat | IsSlot(fs, i, k)
      ensures SlotAt(TakeBlock(fs, b), i, k) == SlotAt(fs, i, k)
    {
      assert SlotAt(fs, i, INDIRECT) != 0 ==> SlotAt(fs, i, INDIRECT) in owner;
    }
  }

  /** balloc hands out a block that nobody owns and that is not metadata, zeroed. */
  lemma TakeOwns(fs: Fs, owner: Owners, spare: set<nat>, b: nat)
    requires Owns(fs, owner, spare) && b < |fs.used| && !fs.used[b]
    ensures b >= fs.nmeta && b !in owner && b !in spare
    ensures Owns(TakeBlock(fs, b), owner, spare + {b}) && SameSlots(fs, TakeBlock(fs, b))
  {
    hide Slot;
    TakeSameSlots(fs, owner, spare, b);
    var gs := TakeBlock(fs, b);
    forall i: nat, k: nat | IsSlot(gs, i, k) && SlotAt(gs, i, k) != 0
      ensures SlotAt(gs, i, k) in owner && owner[SlotAt(gs, i, k)] == (i, k)
    {
      assert SlotAt(gs, i, k) == SlotAt(fs, i, k);
    }
  }

  /** An update that puts a spare block into one empty slot and leaves every other slot alone. */
  lemma AttachOwns(fs: Fs, owner: Owners, spare: set<nat>, gs: Fs, i: nat, k: nat, b: nat)
    requires Owns(fs, owner, spare) && b in spare && IsSlot(fs, i, k) && SlotAt(fs, i, k) == 0
    requires gs.nmeta == fs.nmeta && gs.used == fs.used && |gs.blocks| == |fs.blocks| && |gs.inodes| == |fs.inodes|
    requires forall i': nat, k': nat :: IsSlot(fs, i', k') ==>
               SlotAt(gs, i', k') == if (i', k') == (i, k) then b else SlotAt(fs, i', k')
    ensures Owns(gs, owner[b := (i, k)], spare - {b})
  {
    hide Slot;
    var owner' := owner[b := (i, k)];
    forall i': nat, k': nat | IsSlot(gs, i', k') && SlotAt(gs, i', k') != 0
      ensures SlotAt(gs, i', k') in owner' && owner'[SlotAt(gs, i', k')] == (i', k')
    {
      assert IsSlot(fs, i', k');
    }
    forall a | a in owner'
      ensures gs.nmeta <= a < |gs.used| && gs.used[a]
      ensures IsSlot(gs, owner'[a].0, owner'[a].1) && SlotAt(gs, owner'[a].0, owner'[a].1) == a
    {
      if a != b {
        assert IsSlot(fs, owner[a].0, owner[a].1) && SlotAt(fs, owner[a].0, owner[a].1) == a;
      } else {
        assert IsSlot(fs, i, k);
      }
    }
  }

  function PutAddr(fs: Fs, i: nat, k: nat, b: nat): Fs
    requires i < |fs.inodes| && k <= NDIRECT
  {
    fs.(inodes := fs.inodes[i := fs.inodes[i].(addrs := fs.inodes[i].addrs[k := b])])
  }

  function PutEntry(fs: Fs, i: nat, j: nat, b: nat): Fs
    requires i < |fs.inodes| && j < NINDIRECT && fs.inodes[i].addrs[NDIRECT] < |fs.blocks|
  {
    var ind := fs.inodes[i].addrs[NDIRECT];
    fs.(blocks := fs.blocks[ind := SetWord(fs.blocks[ind], j, b)])
  }

  lemma PutDirectOwns(fs: Fs, owner: Owners, spare: set<nat>, i: nat, k: nat, b: nat)
    requires Owns(fs, owner, spare) && b in spare && i < |fs.inodes| && k < NDIRECT && SlotAt(fs, i, k) == 0
    ensures Owns(PutAddr(fs, i, k, b), owner[b := (i, k)], spare - {b})
  {
    hide Word;
    AttachOwns(fs, owner, spare, PutAddr(fs, i, k, b), i, k, b);
  }

  lemma ZeroWords(j: nat)
    requires j < NINDIRECT
    ensures Word(Zeros(), j) == 0
  {
  }

  /** A zeroed block becomes the indirect block: it holds no entries yet. */
  lemma PutIndirectOwns(fs: Fs, owner: Owners, spare: set<nat>, i: nat, b: nat)
    requires Owns(fs, owner, spare) && b in spare && i < |fs.inodes| && SlotAt(fs, i, INDIRECT) == 0
    requires fs.blocks[b] == Zeros()
    ensures Owns(PutAddr(fs, i, NDIRECT, b), owner[b := (i, INDIRECT)], spare - {b})
  {
    hide Word;
    var gs := PutAddr(fs, i, NDIRECT, b);
    forall i': nat, k': nat | IsSlot(fs, i', k')
      ensures SlotAt(gs, i', k') == if (i', k') == (i, INDIRECT) then b else SlotAt(fs, i', k')
    {
      if i' == i && NDIRECT <= k' < MAXFILE {
        ZeroWords(k' - NDIRECT);
      }
    }
    AttachOwns(fs, owner, spare, gs, i, INDIRECT, b);
  }

  lemma PutEntrySlots(fs: Fs, owner: Owners, spare: set<nat>, i: nat, j: nat, b: nat, i': nat, k': nat)
    requires Owns(fs, owner, spare) && i < |fs.inodes| && j < NINDIRECT && SlotAt(fs, i, INDIRECT) != 0 && b < TWO_32
    requires IsSlot(fs, i', k')
    ensures fs.inodes[i].addrs[NDIRECT] < |fs.blocks|
    ensures SlotAt(PutEntry(fs, i, j, b), i', k') == if (i', k') == (i, NDIRECT + j) then b else SlotAt(fs, i', k')
  {
    hide Word, SetWord;
    var ind := fs.inodes[i].addrs[NDIRECT];
    assert IsSlot(fs, i, INDIRECT) && SlotAt(fs, i, INDIRECT) == ind;
    assert IsSlot(fs, i', INDIRECT) && SlotAt(fs, i', INDIRECT) == fs.inodes[i'].addrs[NDIRECT];
    if i' == i && NDIRECT <= k' < MAXFILE {
      WordSet(fs.blocks[ind], j, b, k' - NDIRECT);
    }
  }

  lemma PutEntryOwns(fs: Fs, owner: Owners, spare: set<nat>, i: nat, j: nat, b: nat)
    requires Owns(fs, owner, spare) && b in spare && i < |fs.inodes| && j < NINDIRECT
    requires SlotAt(fs, i, INDIRECT) != 0 && SlotAt(fs, i, NDIRECT + j) == 0
    ensures fs.inodes[i].addrs[NDIRECT] < |fs.blocks|
    ensures Owns(PutEntry(fs, i, j, b), owner[b := (i, NDIRECT + j)], spare - {b})
  {
    hide Word, SetWord;
    PutEntrySlots(fs, owner, spare, i, j, b, i, NDIRECT + j);
    forall i': nat, k': nat | IsSlot(fs, i', k')
      ensures SlotAt(PutEntry(fs, i, j, b), i', k') == if (i', k') == (i, NDIRECT + j) then b else SlotAt(fs, i', k')
    {
      PutEntrySlots(fs, owner, spare, i, j, b, i', k');
    }
    AttachOwns(fs, owner, spare, PutEntry(fs, i, j, b), i, NDIRECT + j, b);
  }

  /** Writing a data block changes no slot: a data block is nobody's indirect block. */
  lemma PutDataOwns(fs: Fs, owner: Owners, spare: set<nat>, i: nat, k: nat, x: Block)
    requires Owns(fs, owner, spare) && i < |fs.inodes| && k < MAXFILE && SlotAt(fs, i, k) != 0
    ensures SlotAt(fs, i, k) < |fs.blocks|
    ensures var gs := fs.(blocks := fs.blocks[SlotAt(fs, i, k) := x]);
            Owns(gs, owner, spare) && SameSlots(fs, gs)
  {
    hide Word;
    var a := SlotAt(fs, i, k);
    assert IsSlot(fs, i, k) && a in owner && owner[a] == (i, k);
    var gs := fs.(blocks := fs.blocks[a := x]);
    forall i': nat, k': nat | IsSlot(fs, i', k')
      ensures SlotAt(gs, i', k') == SlotAt(fs, i', k')
    {
      assert IsSlot(fs, i', INDIRECT) && SlotAt(fs, i', INDIRECT) == fs.inodes[i'].addrs[NDIRECT];
    }
    SameSlotsOwn(fs, gs, owner, spare);
  }

  lemma SameSlotsOwn(fs: Fs, gs: Fs, owner: Owners, spare: set<nat>)
    requires Owns(fs, owner, spare) && SameSlots(fs, gs)
    requires gs.nmeta == fs.nmeta && gs.used == fs.used && |gs.blocks| == |fs.blocks|
    ensures Owns(gs, owner, spare)
  {
    hide Slot;
    forall i: nat, k: nat | IsSlot(gs, i, k) && SlotAt(gs, i, k) != 0
      ensures SlotAt(gs, i, k) in owner && owner[SlotAt(gs, i, k)] == (i, k)
    {
      assert IsSlot(fs, i, k);
    }
    forall a | a in owner
      ensures IsSlot(gs, owner[a].0, owner[a].1) && SlotAt(gs, owner[a].0, owner[a].1) == a
    {
      assert IsSlot(fs, owner[a].0, owner[a].1);
    }
  }

  // ---------- the bytes of a file ----------

  /** The byte at offset o; a hole reads as zero, as a freshly allocated block does. */
  function ByteAt(fs: Fs, i: nat, o: nat): Byte
    requires i < |fs.inodes|
  {
    var a := SlotAt(fs, i, o / BSIZE);
    if o < MAXFILE * BSIZE && 0 < a < |fs.blocks| then fs.blocks[a][o % BSIZE] else 0
  }

  function Contents(fs: Fs, i: nat): (r: seq<Byte>)
    requires i < |fs.inodes|
    ensures |r| == fs.inodes[i].size
  {
    seq(fs.inodes[i].size, o requires 0 <= o => ByteAt(fs, i, o))
  }

  ghost predicate SameBytes(fs: Fs, gs: Fs) {
    |gs.inodes| == |fs.inodes| && forall i: nat, o: nat :: i < |fs.inodes| ==> ByteAt(gs, i, o) == ByteAt(fs, i, o)
  }

  /** Every block of the file is there. */
  ghost predicate NoHoles(fs: Fs, i: nat)
    requires i < |fs.inodes|
  {
    && fs.inodes[i].size <= MAXFILE * BSIZE
    && forall k: nat :: k * BSIZE < fs.inodes[i].size ==> SlotAt(fs, i, k) != 0
  }

  /** Data slots keep their blocks and those their contents, or go from empty to a zeroed block. */
  lemma BytesKept(fs: Fs, gs: Fs)
    requires |gs.inodes| == |fs.inodes| && |gs.blocks| == |fs.blocks|
    requires forall i: nat, k: nat :: i < |fs.inodes| && k < MAXFILE ==>
               var a, b := SlotAt(fs, i, k), SlotAt(gs, i, k);
               if b == a then 0 < a < |fs.blocks| ==> gs.blocks[a] == fs.blocks[a]
               else a == 0 && b < |fs.blocks| && gs.blocks[b] == Zeros()
    ensures SameBytes(fs, gs)
  {
    hide Slot;
    forall i: nat, o: nat | i < |fs.inodes|
      ensures ByteAt(gs, i, o) == ByteAt(fs, i, o)
    {
      if o < MAXFILE * BSIZE {
        assert o / BSIZE < MAXFILE;
      }
    }
  }

  /** Inode i has gained block b in slot k; nothing else about inodes, slots or bytes has changed. */
  ghost predicate Gained(fs: Fs, gs: Fs, i: nat, k: nat, b: nat) {
    && gs.nmeta == fs.nmeta && |gs.used| == |fs.used| && |gs.inodes| == |fs.inodes| && i < |fs.inodes|
    && gs.inodes == fs.inodes[i := fs.inodes[i].(addrs := gs.inodes[i].addrs)]
    && b < |fs.used| && gs.used == fs.used[b := true]
    && (forall i': nat, k': nat :: IsSlot(fs, i', k') ==>
          SlotAt(gs, i', k') == if (i', k') == (i, k) then b else SlotAt(fs, i', k'))
    && SameBytes(fs, gs)
  }

  lemma GainDirect(fs: Fs, owner: Owners, i: nat, k: nat, b: nat)
    requires Owns(fs, owner, {}) && i < |fs.inodes| && k < NDIRECT && SlotAt(fs, i, k) == 0
    requires b < |fs.used| && !fs.used[b]
    ensures var gs := PutAddr(TakeBlock(fs, b), i, k, b);
            Owns(gs, owner[b := (i, k)], {}) && Gained(fs, gs, i, k, b)
  {
    hide Word;
    TakeOwns(fs, owner, {}, b);
    var ts := TakeBlock(fs, b);
    PutDirectOwns(ts, owner, {b}, i, k, b);
    var gs := PutAddr(ts, i, k, b);
    assert {b} - {b} == {};
    forall i': nat, k': nat | i' < |fs.inodes| && k' < MAXFILE
      ensures SlotAt(gs, i', k') == if (i', k') == (i, k) then b else SlotAt(fs, i', k')
      ensures SlotAt(fs, i', k') != b
    {
      assert IsSlot(fs, i', k') && SlotAt(ts, i', k') == SlotAt(fs, i', k');
    }
    BytesKept(fs, gs);
    forall i': nat, k': nat | IsSlot(fs, i', k')
      ensures SlotAt(gs, i', k') == if (i', k') == (i, k) then b else SlotAt(fs, i', k')
    {
      assert SlotAt(ts, i', k') == SlotAt(fs, i', k');
    }
  }

  lemma GainIndirect(fs: Fs, owner: Owners, i: nat, b: nat)
    requires Owns(fs, owner, {}) && i < |fs.inodes| && SlotAt(fs, i, INDIRECT) == 0
    requires b < |fs.used| && !fs.used[b]
    ensures var gs := PutAddr(TakeBlock(fs, b), i, NDIRECT, b);
            Owns(gs, owner[b := (i, INDIRECT)], {}) && Gained(fs, gs, i, INDIRECT, b)
  {
    hide Word;
    TakeOwns(fs, owner, {}, b);
    var ts := TakeBlock(fs, b);
    PutIndirectOwns(ts, owner, {b}, i, b);
    var gs := PutAddr(ts, i, NDIRECT, b);
    assert {b} - {b} == {};
    forall i': nat, k': nat | IsSlot(fs, i', k')
      ensures SlotAt(gs, i', k') == if (i', k') == (i, INDIRECT) then b else SlotAt(fs, i', k')
      ensures SlotAt(fs, i', k') != b
    {
      assert SlotAt(ts, i', k') == SlotAt(fs, i', k');
      if i' == i && NDIRECT <= k' < MAXFILE {
        ZeroWords(k' - NDIRECT);
      }
    }
    forall i': nat, k': nat | i' < |fs.inodes| && k' < MAXFILE
      ensures SlotAt(gs, i', k') == SlotAt(fs, i', k') && SlotAt(fs, i', k') != b
    {
      assert IsSlot(fs, i', k');
    }
    BytesKept(fs, gs);
  }

  lemma GainEntry(fs: Fs, owner: Owners, i: nat, j: nat, b: nat)
    requires Owns(fs, owner, {}) && i < |fs.inodes| && j < NINDIRECT
    requires SlotAt(fs, i, INDIRECT) != 0 && SlotAt(fs, i, NDIRECT + j) == 0
    requires b < |fs.used| && !fs.used[b]
    ensures fs.inodes[i].addrs[NDIRECT] < |fs.blocks|
    ensures var gs := PutEntry(TakeBlock(fs, b), i, j, b);
            Owns(gs, owner[b := (i, NDIRECT + j)], {}) && Gained(fs, gs, i, NDIRECT + j, b)
  {
    hide Word, SetWord;
    TakeOwns(fs, owner, {}, b);
    var ts := TakeBlock(fs, b);
    assert IsSlot(fs, i, INDIRECT) && IsSlot(fs, i, NDIRECT + j);
    PutEntryOwns(ts, owner, {b}, i, j, b);
    var gs := PutEntry(ts, i, j, b);
    assert {b} - {b} == {};
    forall i': nat, k': nat | IsSlot(fs, i', k')
      ensures SlotAt(gs, i', k') == if (i', k') == (i, NDIRECT + j) then b else SlotAt(fs, i', k')
      ensures SlotAt(fs, i', k') != b && (k' < MAXFILE ==> SlotAt(fs, i', k') != SlotAt(fs, i, INDIRECT))
    {
      assert SlotAt(ts, i', k') == SlotAt(fs, i', k');
      PutEntrySlots(ts, owner, {b}, i, j, b, i', k');
    }
    forall i': nat, k': nat | i' < |fs.inodes| && k' < MAXFILE
      ensures SlotAt(gs, i', k') == if (i', k') == (i, NDIRECT + j) then b else SlotAt(fs, i', k')
      ensures SlotAt(fs, i', k') != b && SlotAt(fs, i', k') != SlotAt(fs, i, INDIRECT)
    {
      assert IsSlot(fs, i', k');
    }
    BytesKept(fs, gs);
  }

  // ---------- writing and truncating ----------

  function Patch(b: Block, lo: nat, src: seq<Byte>): Block
    requires lo + |src| <= BSIZE
  {
    b[..lo] + src + b[lo + |src|..]
  }

  function PutBytes(fs: Fs, a: nat, lo: nat, src: seq<Byte>): Fs
    requires a < |fs.blocks| && lo + |src| <= BSIZE
  {
    fs.(blocks := fs.blocks[a := Patch(fs.blocks[a], lo, src)])
  }

  /** The bytes of `gs` are those of `fs` with `src` laid over file i at offset `off`. */
  ghost predicate Overlaid(fs: Fs, gs: Fs, i: nat, off: nat, src: seq<Byte>) {
    && |gs.inodes| == |fs.inodes|
    && forall i': nat, o: nat :: i' < |fs.inodes| ==>
         ByteAt(gs, i', o) == if i' == i && off <= o < off + |src| then src[o - off] else ByteAt(fs, i', o)
  }

  /** Writing inside one data block changes those bytes of that file and no other byte of any file. */
  lemma PutBytesOverlays(fs: Fs, owner: Owners, i: nat, k: nat, lo: nat, src: seq<Byte>)
    requires Owns(fs, owner, {}) && i < |fs.inodes| && k < MAXFILE && SlotAt(fs, i, k) != 0 && lo + |src| <= BSIZE
    ensures SlotAt(fs, i, k) < |fs.blocks|
    ensures var gs := PutBytes(fs, SlotAt(fs, i, k), lo, src);
            Owns(gs, owner, {}) && SameSlots(fs, gs) && Overlaid(fs, gs, i, k * BSIZE + lo, src)
  {
    hide Word;
    var a := SlotAt(fs, i, k);
    assert IsSlot(fs, i, k) && a in owner && owner[a] == (i, k);
    PutDataOwns(fs, owner, {}, i, k, Patch(fs.blocks[a], lo, src));
    var gs := PutBytes(fs, a, lo, src);
    forall i': nat, o: nat | i' < |fs.inodes|
      ensures ByteAt(gs, i', o) ==
              if i' == i && k * BSIZE + lo <= o < k * BSIZE + lo + |src| then src[o - (k * BSIZE + lo)] else ByteAt(fs, i', o)
    {
      if o < MAXFILE * BSIZE {
        assert IsSlot(fs, i', o / BSIZE) && SlotAt(gs, i', o / BSIZE) == SlotAt(fs, i', o / BSIZE);
      }
    }
  }

  lemma OverlaidMore(fs: Fs, gs: Fs, hs: Fs, i: nat, off: nat, src: seq<Byte>, m: nat, k: nat)
    requires m <= k <= |src| && Overlaid(fs, gs, i, off, src[..m]) && Overlaid(gs, hs, i, off + m, src[m..k])
    ensures Overlaid(fs, hs, i, off, src[..k])
  {
    hide Slot;
  }

  lemma OverlaidSame(fs: Fs, gs: Fs, hs: Fs, i: nat, off: nat, src: seq<Byte>)
    requires Overlaid(fs, gs, i, off, src) && SameBytes(gs, hs)
    ensures Overlaid(fs, hs, i, off, src)
  {
    hide Slot;
  }

  /** The file of inode i after src has been written at off. */
  function Spliced(old': seq<Byte>, off: nat, src: seq<Byte>): seq<Byte>
    requires off <= |old'|
  {
    old'[..off] + src + if off + |src| < |old'| then old'[off + |src|..] else []
  }

  lemma OverlaidContents(fs: Fs, gs: Fs, i: nat, off: nat, src: seq<Byte>)
    requires Overlaid(fs, gs, i, off, src) && i < |fs.inodes| && off <= fs.inodes[i].size
    requires gs.inodes[i].size == if off + |src| > fs.inodes[i].size then off + |src| else fs.inodes[i].size
    ensures Contents(gs, i) == Spliced(Contents(fs, i), off, src)
  {
    hide Slot;
  }

  lemma OverlaidOthers(fs: Fs, gs: Fs, i: nat, off: nat, src: seq<Byte>, j: nat)
    requires Overlaid(fs, gs, i, off, src) && j < |fs.inodes| && j != i && gs.inodes[j].size == fs.inodes[j].size
    ensures Contents(gs, j) == Contents(fs, j)
  {
    hide Slot;
  }

  /** The bitmap when the blocks of inode i in slots before k have been freed. */
  ghost predicate FreedBefore(fs: Fs, owner: Owners, i: nat, k: nat, used: seq<bool>) {
    |used| == |fs.used| && forall b :: 0 <= b < |used| ==>
      used[b] == (fs.used[b] && !(b in owner && owner[b].0 == i && owner[b].1 < k))
  }

  /** The next block to free is still marked: itrunc never reaches "freeing free block". */
  lemma FreeNext(fs: Fs, owner: Owners, i: nat, k: nat, used: seq<bool>)
    requires Owns(fs, owner, {}) && IsSlot(fs, i, k) && FreedBefore(fs, owner, i, k, used)
    ensures var a := SlotAt(fs, i, k);
            if a == 0 then FreedBefore(fs, owner, i, k + 1, used)
            else a < |used| && used[a] && FreedBefore(fs, owner, i, k + 1, used[a := false])
  {
    hide Slot;
    var a := SlotAt(fs, i, k);
    if a == 0 {
      forall b | b in owner && owner[b] == (i, k)
        ensures false
      {
      }
    } else {
      assert a in owner && owner[a] == (i, k);
      forall b | b in owner && owner[b] == (i, k)
        ensures b == a
      {
      }
    }
  }

  function NoAddrs(): Addrs {
    seq(NDIRECT + 1, _ => 0)
  }

  ghost function WithoutInode(owner: Owners, i: nat): Owners {
    map b | b in owner && owner[b].0 != i :: owner[b]
  }

  /** Truncation gives back exactly the blocks of inode i and leaves every other file alone. */
  lemma TruncOwns(fs: Fs, owner: Owners, i: nat, used: seq<bool>)
    requires Owns(fs, owner, {}) && i < |fs.inodes| && FreedBefore(fs, owner, i, INDIRECT + 1, used)
    ensures var gs := fs.(used := used, inodes := fs.inodes[i := fs.inodes[i].(addrs := NoAddrs(), size := 0)]);
            && Owns(gs, WithoutInode(owner, i), {})
            && forall j: nat :: j < |fs.inodes| && j != i ==> Contents(gs, j) == Contents(fs, j)
  {
    hide Word;
    var gs := fs.(used := used, inodes := fs.inodes[i := fs.inodes[i].(addrs := NoAddrs(), size := 0)]);
    var owner' := WithoutInode(owner, i);
    forall j: nat, k: nat | IsSlot(gs, j, k) && SlotAt(gs, j, k) != 0
      ensures SlotAt(gs, j, k) in owner' && owner'[SlotAt(gs, j, k)] == (j, k)
    {
      assert j != i;
      assert IsSlot(fs, j, k) && SlotAt(fs, j, k) == SlotAt(gs, j, k);
    }
    forall a | a in owner'
      ensures gs.nmeta <= a < |gs.used| && gs.used[a]
      ensures IsSlot(gs, owner'[a].0, owner'[a].1) && SlotAt(gs, owner'[a].0, owner'[a].1) == a
    {
    }
    forall b | gs.nmeta <= b < |gs.used| && gs.used[b]
      ensures b in owner'
    {
      assert b in owner;
    }
    forall j: nat | j < |fs.inodes| && j != i
      ensures Contents(gs, j) == Contents(fs, j)
    {
      assert forall o: nat :: ByteAt(gs, j, o) == ByteAt(fs, j, o);
    }
  }
}
