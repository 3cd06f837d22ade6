/** A file system in which one chunk of filewrite logs as many blocks as a transaction may (file.c, fs.c). */
module WriteCost {
  import opened Common
  import opened FileBlocks
  import opened FileSystem

  const NMETA: nat := 300
  const BITMAP: nat := 200        // where the bitmap starts
  const INODES: nat := 2          // and the inodes
  const FILES: nat := 1300
  const TOTAL: nat := 15900       // NMETA + 12 * FILES

  /** Four blocks are free, each under another block of the bitmap: the twelfth block of every 400th file. */
  predicate FreeAt(j: nat) {
    j % 12 == 11 && j / 12 % 400 == 1
  }

  /** Slot k of file i: its files lie one after another, twelve direct blocks each. */
  function Place(i: nat, k: nat): nat {
    if k < 12 && !FreeAt(12 * i + k) then NMETA + 12 * i + k else 0
  }

  function SizeOf(i: nat): nat {
    if i == 0 then 11 * BSIZE + 1 else if i % 400 == 1 then 11 * BSIZE else 12 * BSIZE
  }

  function InodeOf(i: nat): Inode {
    if i == 0 then Inode(0, 0, 0, NoAddrs())
    else Inode(2, 1, SizeOf(i - 1), seq(NDIRECT + 1, k requires 0 <= k <= NDIRECT => Place(i - 1, k)))
  }

  /** A data block in use, and whose it is. */
  predicate InUse(b: nat) {
    NMETA <= b < TOTAL && !FreeAt(b - NMETA)
  }

  predicate IsFree(b: nat) {
    NMETA <= b < TOTAL && !InUse(b)
  }

  function OwnerOf(b: nat): (nat, nat)
    requires NMETA <= b
  {
    ((b - NMETA) / 12 + 1, (b - NMETA) % 12)
  }

  function Used(): (u: seq<bool>)
    ensures |u| == TOTAL && forall b :: 0 <= b < TOTAL ==> u[b] == (b < NMETA || InUse(b))
  {
    seq(TOTAL, b requires 0 <= b < TOTAL => b < NMETA || InUse(b))
  }

  function Blocks(): (bs: seq<Block>)
    ensures |bs| == TOTAL && forall b :: 0 <= b < TOTAL ==> bs[b] == Zeros()
  {
    seq(TOTAL, _ => Zeros())
  }

  function Inodes(): (r: seq<Inode>)
    ensures |r| == FILES + 1 && forall i :: 0 <= i <= FILES ==> r[i] == InodeOf(i)
  {
    seq(FILES + 1, i requires 0 <= i <= FILES => InodeOf(i))
  }

  function Example(): Fs {
    Fs(NMETA, Used(), Blocks(), Inodes())
  }

  function ExampleOwners(): (m: Owners)
    ensures forall b: nat :: (b in m <==> InUse(b)) && (b in m ==> m[b] == OwnerOf(b))
  {
    map b: nat | b < TOTAL && InUse(b) :: OwnerOf(b)
  }

  lemma SlotIs(i: nat, k: nat)
    requires i <= FILES && k <= INDIRECT
    ensures SlotAt(Example(), i, k) == if i == 0 then 0 else Place(i - 1, k)
  {
  }

  lemma PlaceIs(i: nat, k: nat)
    requires i < FILES && Place(i, k) != 0
    ensures InUse(Place(i, k)) && OwnerOf(Place(i, k)) == (i + 1, k)
  {
    assert (12 * i + k) / 12 == i && (12 * i + k) % 12 == k;
  }

  lemma OwnerPlace(b: nat)
    requires InUse(b)
    ensures 1 <= OwnerOf(b).0 <= FILES && OwnerOf(b).1 < 12 && Place(OwnerOf(b).0 - 1, OwnerOf(b).1) == b
  {
    var j := b - NMETA;
    assert j == 12 * (j / 12) + j % 12;
  }

  lemma SlotOwned(i: nat, k: nat)
    requires i <= FILES && k <= INDIRECT
    ensures var b := SlotAt(Example(), i, k); b != 0 ==> b in ExampleOwners() && ExampleOwners()[b] == (i, k)
  {
    hide Slot, Place, InUse, OwnerOf, ExampleOwners;
    SlotIs(i, k);
    if SlotAt(Example(), i, k) != 0 {
      PlaceIs(i - 1, k);
    }
  }

  lemma ExampleSlotsOwn()
    ensures SlotsOwn(Example(), ExampleOwners())
  {
    hide Slot, ExampleOwners;
    assert |Example().inodes| == FILES + 1;
    hide Example;
    forall i: nat, k: nat | IsSlot(Example(), i, k)
      ensures var b := SlotAt(Example(), i, k); b != 0 ==> b in ExampleOwners() && ExampleOwners()[b] == (i, k)
    {
      SlotOwned(i, k);
    }
  }

  lemma ExampleOwnersReal()
    ensures OwnersReal(Example(), ExampleOwners())
  {
    var fs, owner := Example(), ExampleOwners();
    forall a | a in owner
      ensures fs.nmeta <= a < |fs.used| && fs.used[a]
      ensures IsSlot(fs, owner[a].0, owner[a].1) && SlotAt(fs, owner[a].0, owner[a].1) == a
    {
      assert InUse(a);
      hide Slot, Place, OwnerOf, FreeAt;
      OwnerPlace(a);
      SlotIs(owner[a].0, owner[a].1);
    }
  }

  lemma ExampleOwns()
    ensures Owns(Example(), ExampleOwners(), {})
  {
    hide SlotsOwn, OwnersReal, FreeAt;
    ExampleSlotsOwn();
    ExampleOwnersReal();
    assert Shape(Example());
  }

  /** The example is a file system without holes. */
  lemma ExampleOk()
    ensures FsOk(Example(), ExampleOwners()) && FreeAreEmpty(Example().inodes)
  {
    ExampleOwns();
    var fs := Example();
    hide Owns, Slot;
    forall i: nat | i < |fs.inodes|
      ensures NoHoles(fs, i)
    {
      forall k: nat | k * BSIZE < fs.inodes[i].size
        ensures SlotAt(fs, i, k) != 0
      {
        SlotIs(i, k);
        Reaches(i - 1, k);
      }
    }
  }

  lemma Reaches(i: nat, k: nat)
    requires k * BSIZE < SizeOf(i)
    ensures k < 12 && Place(i, k) != 0
  {
    assert (12 * i + k) / 12 == i && (12 * i + k) % 12 == k;
  }

  // ---------- the write ----------

  /** The file written to, and where: inside its twelfth block, the last one that is there. */
  const FILE: nat := 1
  const OFFSET: nat := 5633       // 11 * BSIZE + 1

  /** The j-th free block. */
  function FreeBlock(j: nat): (b: nat)
    requires j < 4
    ensures IsFree(b) && b / BPB == j
  {
    NMETA + 12 * (400 * j + 1) + 11
  }

  lemma FreeIsOne(b: nat)
    requires IsFree(b)
    ensures b == FreeBlock(b / BPB)
  {
    var i := (b - NMETA) / 12;
    assert b - NMETA == 12 * i + 11 && i == 400 * (i / 400) + 1;
  }

  /** A slot that held nothing and now holds b: it is one of the four the write fills. */
  lemma FilledSlot(gs: Fs, owner: Owners, b: nat) returns (k: nat)
    requires Owns(gs, owner, {}) && Kept(Example(), gs) && OnlyRange(Example(), gs, FILE, 11, 15)
    requires IsFree(b) && gs.used[b]
    ensures k in {12, 13, 14, INDIRECT} && SlotAt(gs, FILE, k) == b
  {
    assert b in owner;
    var i := owner[b].0;
    k := owner[b].1;
    hide Owns, Slot, Place, InUse;
    assert IsSlot(Example(), i, k);
    SlotIs(i, k);
    if i > 0 && Place(i - 1, k) != 0 {
      PlaceIs(i - 1, k);
    }
    SlotIs(FILE, 11);
    assert Place(0, 11) != 0 by { Reaches(0, 11); }
  }

  /** The four free blocks are enough. */
  lemma NeverShort(gs: Fs, owner: Owners, k: nat)
    requires Owns(gs, owner, {}) && Kept(Example(), gs) && OnlyRange(Example(), gs, FILE, 11, 15)
    requires forall b :: 0 <= b < |gs.used| ==> gs.used[b]
    requires 11 <= k < 15
    ensures SlotAt(gs, FILE, k) != 0
  {
    hide Owns, Slot, OnlyRange, InUse;
    var k0 := FilledSlot(gs, owner, FreeBlock(0));
    var k1 := FilledSlot(gs, owner, FreeBlock(1));
    var k2 := FilledSlot(gs, owner, FreeBlock(2));
    var k3 := FilledSlot(gs, owner, FreeBlock(3));
    assert IsSlot(Example(), FILE, 11);
    SlotIs(FILE, 11);
    assert Place(0, 11) != 0 by { Reaches(0, 11); }
    hide Place, FreeBlock;
  }

  /** What a slot gained was free. */
  lemma WasFree(gs: Fs, owner: Owners, k: nat)
    requires Owns(gs, owner, {}) && Kept(Example(), gs) && k in {12, 13, 14, INDIRECT} && SlotAt(gs, FILE, k) != 0
    ensures IsFree(SlotAt(gs, FILE, k))
  {
    var b := SlotAt(gs, FILE, k);
    assert IsSlot(gs, FILE, k);
    assert b in owner && owner[b] == (FILE, k) && NMETA <= b < TOTAL;
    hide Owns, Slot, Place;
    SlotIs(FILE, k);
    assert Place(0, k) == 0 by { NoPlace(k); }
    if InUse(b) {
      OwnerPlace(b);
      SlotIs(OwnerOf(b).0, OwnerOf(b).1);
      assert IsSlot(Example(), OwnerOf(b).0, OwnerOf(b).1);
      OneSlot(gs, owner, OwnerOf(b).0, OwnerOf(b).1, FILE, k);
    }
  }

  lemma NoPlace(k: nat)
    requires k >= 12
    ensures Place(0, k) == 0
  {
  }

  lemma OneSlot(gs: Fs, owner: Owners, i: nat, k: nat, i': nat, k': nat)
    requires Owns(gs, owner, {}) && IsSlot(gs, i, k) && IsSlot(gs, i', k') && SlotAt(gs, i, k) == SlotAt(gs, i', k') != 0
    ensures i == i' && k == k'
  {
  }

  lemma Range()
    ensures OFFSET / BSIZE == 11 && EndBlock(OFFSET, CHUNK) == 15 && OFFSET + CHUNK > SizeOf(0) >= OFFSET
  {
  }

  /** The blocks the write logs, spelt out. */
  lemma Spelt(f: FileSystem, gs: Fs, a: nat, b: nat, c: nat, d: nat, ind: nat)
    requires |gs.inodes| == FILES + 1
    requires a == SlotAt(gs, FILE, 11) && b == SlotAt(gs, FILE, 12) && c == SlotAt(gs, FILE, 13) && d == SlotAt(gs, FILE, 14)
    requires ind == SlotAt(gs, FILE, INDIRECT)
    ensures f.Touched(Example(), gs, FILE, 11, 15) ==
            {a, b, c, d, ind} + {f.BitmapBlock(b), f.BitmapBlock(c), f.BitmapBlock(d), f.BitmapBlock(ind)}
  {
    hide Slot, f.BitmapBlock, f.PieceCost, Place;
    var fs := Example();
    SlotIs(FILE, 11);
    SlotIs(FILE, 12);
    SlotIs(FILE, 13);
    SlotIs(FILE, 14);
    SlotIs(FILE, INDIRECT);
    assert Place(0, 11) != 0 by { Reaches(0, 11); }
    NoPlace(12);
    NoPlace(13);
    NoPlace(14);
    NoPlace(INDIRECT);
    f.PieceSet(a, ind, 11);
    f.PieceSet(b, ind, 12);
    f.PieceSet(c, ind, 13);
    f.PieceSet(d, ind, 14);
    hide Example;
    assert f.Touched(fs, gs, FILE, 11, 11) == {};
    assert f.Touched(fs, gs, FILE, 11, 12) == {a};
    assert f.Touched(fs, gs, FILE, 11, 13) == {a, b, ind, f.BitmapBlock(b), f.BitmapBlock(ind)};
    assert f.Touched(fs, gs, FILE, 11, 14) == f.Touched(fs, gs, FILE, 11, 13) + {c, f.BitmapBlock(c), ind, f.BitmapBlock(ind)};
    assert f.Touched(fs, gs, FILE, 11, 15) == f.Touched(fs, gs, FILE, 11, 14) + {d, f.BitmapBlock(d), ind, f.BitmapBlock(ind)};
  }

  lemma FourSize(a: nat, b: nat, c: nat, d: nat)
    requires a !in {b, c, d} && b !in {c, d} && c != d
    ensures |{a, b, c, d}| == 4
  {
    assert {a, b, c, d} == {a} + ({b} + {c, d});
  }

  /** The free blocks lie under different bitmap blocks. */
  lemma BitsApart(f: FileSystem, x: nat, y: nat)
    requires IsFree(x) && IsFree(y) && x != y
    ensures f.BitmapBlock(x) != f.BitmapBlock(y)
  {
    FreeIsOne(x);
    FreeIsOne(y);
    hide FreeBlock, InUse;
  }

  lemma NewBlocks(gs: Fs, owner: Owners) returns (a: nat, b: nat, c: nat, d: nat, ind: nat)
    requires Owns(gs, owner, {}) && Kept(Example(), gs) && forall k: nat :: 11 <= k < 15 ==> SlotAt(gs, FILE, k) != 0
    ensures a == SlotAt(gs, FILE, 11) && b == SlotAt(gs, FILE, 12) && c == SlotAt(gs, FILE, 13) && d == SlotAt(gs, FILE, 14)
    ensures ind == SlotAt(gs, FILE, INDIRECT) && Different(a, b, c, d, ind) && NMETA <= a < TOTAL
    ensures IsFree(b) && IsFree(c) && IsFree(d) && IsFree(ind)
  {
    IndirectThere(gs, FILE, 12);
    hide Slot, InUse;
    a, b, c, d := SlotAt(gs, FILE, 11), SlotAt(gs, FILE, 12), SlotAt(gs, FILE, 13), SlotAt(gs, FILE, 14);
    ind := SlotAt(gs, FILE, INDIRECT);
    assert IsSlot(gs, FILE, 11) && IsSlot(gs, FILE, 12) && IsSlot(gs, FILE, 13) && IsSlot(gs, FILE, 14) && IsSlot(gs, FILE, INDIRECT);
    WasFree(gs, owner, 12);
    WasFree(gs, owner, 13);
    WasFree(gs, owner, 14);
    WasFree(gs, owner, INDIRECT);
  }

  lemma TenCount(a: nat, b: nat, c: nat, d: nat, e: nat, w: nat, x: nat, y: nat, z: nat, i: nat)
    requires Different(a, b, c, d, e) && a >= NMETA && b >= NMETA && c >= NMETA && d >= NMETA && e >= NMETA
    requires w !in {x, y, z} && x !in {y, z} && y != z && w < NMETA && x < NMETA && y < NMETA && z < NMETA
    requires i < NMETA && i !in {w, x, y, z}
    ensures |{a, b, c, d, e} + {w, x, y, z} + {i}| == 10
  {
    DifferentSize(a, b, c, d, e);
    FourSize(w, x, y, z);
    hide Different;
    UnionSize({a, b, c, d, e}, {w, x, y, z}, i, NMETA);
  }

  lemma TenBlocks(f: FileSystem, gs: Fs, owner: Owners, now: set<nat>)
    requires f.nmeta == NMETA && f.bmapstart == BITMAP && f.inodestart == INODES
    requires Owns(gs, owner, {}) && f.WriteLogged(Example(), gs, FILE, OFFSET, CHUNK, {}, now)
    ensures |now| == MAXOPBLOCKS
  {
    hide Owns, Slot, f.Touched, InUse, Different;
    Range();
    var a, b, c, d, ind := NewBlocks(gs, owner);
    Spelt(f, gs, a, b, c, d, ind);
    BitsDiffer(f, a, b, c, d, ind);
    var w, x, y, z, i := f.BitmapBlock(b), f.BitmapBlock(c), f.BitmapBlock(d), f.BitmapBlock(ind), f.InodeBlock(FILE);
    assert BITMAP <= w < NMETA && BITMAP <= x < NMETA && BITMAP <= y < NMETA && BITMAP <= z < NMETA && i < BITMAP;
    assert now == {} + ({a, b, c, d, ind} + {w, x, y, z}) + {i};
    hide f.BitmapBlock, f.InodeBlock, f.WriteLogged, Example;
    TenCount(a, b, c, d, ind, w, x, y, z, i);
    assert now == {a, b, c, d, ind} + {w, x, y, z} + {i};
  }

  lemma BitsDiffer(f: FileSystem, a: nat, b: nat, c: nat, d: nat, ind: nat)
    requires Different(a, b, c, d, ind) && IsFree(b) && IsFree(c) && IsFree(d) && IsFree(ind)
    ensures f.BitmapBlock(b) !in {f.BitmapBlock(c), f.BitmapBlock(d), f.BitmapBlock(ind)}
    ensures f.BitmapBlock(c) !in {f.BitmapBlock(d), f.BitmapBlock(ind)} && f.BitmapBlock(d) != f.BitmapBlock(ind)
  {
    hide InUse, f.BitmapBlock;
    BitsApart(f, b, c);
    BitsApart(f, b, d);
    BitsApart(f, b, ind);
    BitsApart(f, c, d);
    BitsApart(f, c, ind);
    BitsApart(f, d, ind);
  }

  /** One chunk of filewrite, on a file system with room for it, that logs MAXOPBLOCKS blocks. */
  method LogsMost() returns (f: FileSystem, r: int)
    ensures fresh(f) && f.Valid() && r == CHUNK && |f.logged| == MAXOPBLOCKS
  {
    hide Owns, FsOk, FreeAreEmpty, Example, ExampleOwners, Contents, Spliced, FileSystem.Short, FileSystem.WriteLogged, EndBlock;
    f := Start();
    var src := seq(CHUNK, _ => 1);
    Range();
    var ok;
    r, ok := f.WriteI(FILE, src, OFFSET);
    if !ok {
      NotShort(f);
      assert false;
    }
    assert Owns(f.OnDisk(), f.owner, {}) by { ValidOwns(f); }
    TenBlocks(f, f.OnDisk(), f.owner, f.logged);
  }

  method Start() returns (f: FileSystem)
    ensures fresh(f) && f.Valid() && f.OnDisk() == Example() && f.logged == {} && FILE in f.icache
    ensures f.disk[FILE] == InodeOf(FILE) && f.nmeta == NMETA && f.bmapstart == BITMAP && f.inodestart == INODES
  {
    hide Owns, FsOk, FreeAreEmpty, ExampleOwners;
    ExampleOk();
    f := new FileSystem(NMETA, BITMAP, INODES, Used(), Blocks(), Inodes(), ExampleOwners());
    var loaded := f.ILock(FILE);
  }

  lemma ValidOwns(f: FileSystem)
    requires f.Valid()
    ensures Owns(f.OnDisk(), f.owner, {})
  {
  }

  lemma NotShort(f: FileSystem)
    ensures !f.Short(Example(), FILE, OFFSET / BSIZE, EndBlock(OFFSET, CHUNK))
  {
    Range();
    hide Owns, Slot, OnlyRange, Kept, Example;
    if f.Short(Example(), FILE, 11, 15) {
      forall k: nat | 11 <= k < 15
        ensures SlotAt(f.View(FILE), FILE, k) != 0
      {
        NeverShort(f.View(FILE), f.owner, k);
      }
    }
  }
}
