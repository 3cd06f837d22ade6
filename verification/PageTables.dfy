/** Two-level page tables (vm.c) on values: who owns each page frame, and the flat map the tables stand for. */
module PageTables {
  import opened Layout

  const ENTRIES: nat := 1024
  /** Pages in the 32-bit address space, and below KERNBASE. */
  const PAGES: nat := 0x10_0000
  const USER: nat := 0x8_0000

  const PTE_P: nat := 1
  const PTE_W: nat := 2
  const PTE_U: nat := 4

  /** A table entry: frame number and the twelve flag bits. */
  datatype Entry = Entry(frame: nat, flags: Flags)

  type Flags = x: nat | x < PGSIZE

  /** The word an entry is stored as, and PTE_ADDR and PTE_FLAGS of a word. */
  function Packed(e: Entry): nat {
    e.frame * PGSIZE + e.flags
  }

  function Unpacked(w: nat): Entry {
    Entry(w / PGSIZE, w % PGSIZE)
  }

  lemma UnpackPacked(e: Entry)
    ensures Unpacked(Packed(e)) == e && (Packed(e) % 2 == 1 <==> Present(e))
  {
  }

  const ZERO := Entry(0, 0)

  predicate Present(e: Entry) {
    e.flags % 2 == 1
  }

  type Table = t: seq<Entry> | |t| == ENTRIES witness seq(ENTRIES, i => Entry(0, 0))

  function ZeroTable(): (t: Table)
    ensures forall i :: 0 <= i < ENTRIES ==> t[i] == ZERO
  {
    seq(ENTRIES, i => ZERO)
  }

  /** What an allocated frame is: a page directory, its i-th page table, its page for user page v, or something else. */
  datatype Slot = Root(dir: nat) | Tab(dir: nat, i: nat) | Page(dir: nat, v: nat) | Other

  datatype Mem = Mem(free: seq<nat>, tables: map<nat, Table>, dirs: set<nat>, owner: map<nat, Slot>)

  /** Entry i of the table in frame f. */
  function Word(m: Mem, f: nat, i: nat): Entry {
    if f in m.tables && i < ENTRIES then m.tables[f][i] else ZERO
  }

  /** The flat map: the entry that directory d holds for page v. */
  function Pte(m: Mem, d: nat, v: nat): Entry {
    var e := Word(m, d, v / ENTRIES);
    if Present(e) then Word(m, e.frame, v % ENTRIES) else ZERO
  }

  // ---------- ownership ----------

  ghost predicate RootsOk(m: Mem) {
    forall d :: d in m.dirs ==> d in m.tables && d in m.owner && m.owner[d] == Root(d)
  }

  predicate IsTab(m: Mem, f: nat, d: nat, i: nat) {
    f in m.tables && f in m.owner && m.owner[f] == Tab(d, i)
  }

  ghost predicate TabsOk(m: Mem) {
    forall d, i: nat :: d in m.dirs && i < ENTRIES && Present(Word(m, d, i)) ==> IsTab(m, Word(m, d, i).frame, d, i)
  }

  predicate IsPage(m: Mem, f: nat, d: nat, v: nat) {
    f in m.owner && m.owner[f] == Page(d, v)
  }

  ghost predicate PagesOk(m: Mem) {
    forall d, v: nat :: d in m.dirs && v < USER && Present(Pte(m, d, v)) ==> IsPage(m, Pte(m, d, v).frame, d, v)
  }

  /** A frame's owner does point at it. */
  ghost predicate Used(m: Mem, f: nat)
    requires f in m.owner
  {
    match m.owner[f]
    case Root(d) => d == f && d in m.dirs
    case Tab(d, i) => d in m.dirs && i < ENTRIES && Present(Word(m, d, i)) && Word(m, d, i).frame == f
    case Page(d, v) => d in m.dirs && v < USER && Present(Pte(m, d, v)) && Pte(m, d, v).frame == f
    case Other => true
  }

  ghost predicate OwnersOk(m: Mem) {
    forall f :: f in m.owner ==> Used(m, f)
  }

  ghost predicate FreeOk(m: Mem) {
    && (forall i, j :: 0 <= i < j < |m.free| ==> m.free[i] != m.free[j])
    && (forall f :: f in m.free ==> f !in m.owner)
  }

  ghost predicate Owns(m: Mem) {
    RootsOk(m) && TabsOk(m) && PagesOk(m) && OwnersOk(m) && FreeOk(m)
  }

  /** Every frame is free or owned. */
  ghost predicate Complete(m: Mem, frames: set<nat>) {
    forall f :: f in frames <==> f in m.free || f in m.owner
  }

  // ---------- changes ----------

  predicate IsOther(m: Mem, f: nat) {
    f in m.owner && m.owner[f] == Other
  }

  function Take(m: Mem): Mem
    requires m.free != []
  {
    m.(free := m.free[1..], owner := m.owner[m.free[0] := Other])
  }

  /** A frame goes back; what it held is overwritten. */
  function Give(m: Mem, f: nat): Mem {
    m.(free := [f] + m.free, owner := m.owner - {f}, tables := m.tables - {f})
  }

  /** A fresh, zeroed table for entry i of directory d. */
  function AddTable(m: Mem, d: nat, i: nat, f: nat): Mem
    requires d in m.tables && i < ENTRIES
  {
    m.(tables := m.tables[f := ZeroTable()][d := m.tables[d][i := Entry(f, PTE_P + PTE_W + PTE_U)]], owner := m.owner[f := Tab(d, i)])
  }

  function SetPte(m: Mem, d: nat, v: nat, e: Entry): Mem
    requires Word(m, d, v / ENTRIES).frame in m.tables
  {
    var t := Word(m, d, v / ENTRIES).frame;
    m.(tables := m.tables[t := m.tables[t][v % ENTRIES := e]])
  }

  function NewDir(m: Mem, f: nat): Mem {
    m.(tables := m.tables[f := ZeroTable()], dirs := m.dirs + {f}, owner := m.owner[f := Root(f)])
  }

  // ---------- what the changes do to the flat map ----------

  ghost predicate SameDir(m: Mem, n: Mem, d: nat) {
    && (forall i: nat :: i < ENTRIES ==> Word(n, d, i) == Word(m, d, i))
    && (forall v: nat :: v < PAGES ==> Pte(n, d, v) == Pte(m, d, v))
  }

  /** A directory whose own frames hold what they held is the same. */
  lemma SameFrames(m: Mem, n: Mem, d: nat)
    requires d in m.dirs && TabsOk(m)
    requires forall i: nat :: Word(n, d, i) == Word(m, d, i)
    requires forall f, i: nat, j: nat :: IsTab(m, f, d, i) ==> Word(n, f, j) == Word(m, f, j)
    ensures SameDir(m, n, d)
  {
    forall v: nat | v < PAGES
      ensures Pte(n, d, v) == Pte(m, d, v)
    {
      var e := Word(m, d, v / ENTRIES);
      if Present(e) {
        assert IsTab(m, e.frame, d, v / ENTRIES);
      }
    }
  }

  /** Changing one frame that belongs to no table of d leaves d alone. */
  lemma SameElsewhere(m: Mem, n: Mem, d: nat, t: nat)
    requires d in m.dirs && RootsOk(m) && TabsOk(m)
    requires t in m.owner ==> m.owner[t] != Root(d) && (m.owner[t].Tab? ==> m.owner[t].dir != d)
    requires forall f, j: nat :: f != t ==> Word(n, f, j) == Word(m, f, j)
    ensures SameDir(m, n, d)
  {
    forall f, i: nat, j: nat | IsTab(m, f, d, i)
      ensures Word(n, f, j) == Word(m, f, j)
    {
    }
    SameFrames(m, n, d);
  }

  lemma SetPteWords(m: Mem, d: nat, v: nat, e: Entry)
    requires Word(m, d, v / ENTRIES).frame in m.tables
    ensures var n, t := SetPte(m, d, v, e), Word(m, d, v / ENTRIES).frame;
            forall f, j: nat :: Word(n, f, j) == if f == t && j == v % ENTRIES then e else Word(m, f, j)
  {
  }

  /** Writing one entry changes the flat map at one page of one directory. */
  lemma SetPteFlat(m: Mem, d: nat, v: nat, e: Entry)
    requires RootsOk(m) && TabsOk(m) && d in m.dirs && v < PAGES && Present(Word(m, d, v / ENTRIES))
    ensures Word(m, d, v / ENTRIES).frame in m.tables
    ensures var n := SetPte(m, d, v, e);
            && (forall i: nat :: Word(n, d, i) == Word(m, d, i))
            && (forall w: nat :: w < PAGES ==> Pte(n, d, w) == if w == v then e else Pte(m, d, w))
  {
    var i := v / ENTRIES;
    var t := Word(m, d, i).frame;
    assert IsTab(m, t, d, i);
    SetPteWords(m, d, v, e);
    var n := SetPte(m, d, v, e);
    hide SetPte;
    forall w: nat | w < PAGES
      ensures Pte(n, d, w) == if w == v then e else Pte(m, d, w)
    {
      var x := Word(m, d, w / ENTRIES);
      if Present(x) {
        assert IsTab(m, x.frame, d, w / ENTRIES);
        SamePage(v, w);
      }
    }
  }

  lemma SamePage(v: nat, w: nat)
    ensures v / ENTRIES == w / ENTRIES && v % ENTRIES == w % ENTRIES ==> v == w
  {
  }

  lemma SetPteElsewhere(m: Mem, d: nat, v: nat, e: Entry, d': nat)
    requires RootsOk(m) && TabsOk(m) && d in m.dirs && v < PAGES && Present(Word(m, d, v / ENTRIES)) && d' in m.dirs && d' != d
    ensures Word(m, d, v / ENTRIES).frame in m.tables && SameDir(m, SetPte(m, d, v, e), d')
  {
    var t := Word(m, d, v / ENTRIES).frame;
    assert IsTab(m, t, d, v / ENTRIES);
    SetPteWords(m, d, v, e);
    SameElsewhere(m, SetPte(m, d, v, e), d', t);
  }

  // ---------- ownership kept ----------

  /** All directories are the same, and so are the frames the owners point at. */
  ghost predicate SameDirs(m: Mem, n: Mem) {
    n.dirs == m.dirs && forall d :: d in m.dirs ==> SameDir(m, n, d)
  }

  lemma UsedSame(m: Mem, n: Mem, f: nat)
    requires SameDirs(m, n) && f in m.owner && f in n.owner && n.owner[f] == m.owner[f] && Used(m, f)
    ensures Used(n, f)
  {
    hide Pte, Word, Present;
  }

  lemma TakeOwns(m: Mem)
    requires Owns(m) && m.free != []
    ensures Owns(Take(m)) && SameDirs(m, Take(m)) && IsOther(Take(m), m.free[0])
  {
    var n := Take(m);
    assert m.free[0] in m.free;
    assert forall f, i: nat :: Word(n, f, i) == Word(m, f, i);
    assert SameDirs(m, n);
    hide Word, Present;
    forall f | f in n.owner
      ensures Used(n, f)
    {
      if f != m.free[0] {
        UsedSame(m, n, f);
      }
    }
  }

  /** Frames whose owner is not a directory or one of its tables play no part in the tables. */
  lemma GiveOwns(m: Mem, f: nat)
    requires Owns(m) && IsOther(m, f)
    ensures Owns(Give(m, f)) && SameDirs(m, Give(m, f))
  {
    var n := Give(m, f);
    forall d | d in m.dirs
      ensures SameDir(m, n, d)
    {
      SameElsewhere(m, n, d, f);
    }
    hide Word, Present, Pte;
    GiveRoots(m, f);
    forall g | g in n.owner
      ensures Used(n, g)
    {
      UsedSame(m, n, g);
    }
    GiveTabs(m, f);
    GivePages(m, f);
  }

  lemma GiveRoots(m: Mem, f: nat)
    requires Owns(m) && IsOther(m, f)
    ensures RootsOk(Give(m, f)) && FreeOk(Give(m, f))
  {
    hide TabsOk, PagesOk, OwnersOk;
  }

  lemma GiveTabs(m: Mem, f: nat)
    requires Owns(m) && IsOther(m, f) && SameDirs(m, Give(m, f))
    ensures TabsOk(Give(m, f))
  {
    hide PagesOk, OwnersOk, FreeOk, Pte, Present;
    var n := Give(m, f);
    forall d, i: nat | d in n.dirs && i < ENTRIES && Present(Word(n, d, i))
      ensures IsTab(n, Word(n, d, i).frame, d, i)
    {
      assert SameDir(m, n, d);
      assert IsTab(m, Word(m, d, i).frame, d, i);
    }
  }

  lemma GivePages(m: Mem, f: nat)
    requires Owns(m) && IsOther(m, f) && SameDirs(m, Give(m, f))
    ensures PagesOk(Give(m, f))
  {
    hide TabsOk, OwnersOk, FreeOk, Pte, Present, Word;
    var n := Give(m, f);
    forall d, v: nat | d in n.dirs && v < USER && Present(Pte(n, d, v))
      ensures IsPage(n, Pte(n, d, v).frame, d, v)
    {
      assert SameDir(m, n, d);
      assert IsPage(m, Pte(m, d, v).frame, d, v);
    }
  }

  // ---------- a new table ----------

  lemma AddTableWords(m: Mem, d: nat, i: nat, f: nat)
    requires d in m.tables && i < ENTRIES && f != d
    ensures var n := AddTable(m, d, i, f);
            && (forall j: nat :: Word(n, f, j) == ZERO)
            && (forall j: nat :: Word(n, d, j) == if j == i then Entry(f, 7) else Word(m, d, j))
            && (forall g, j: nat :: g != f && g != d ==> Word(n, g, j) == Word(m, g, j))
  {
  }

  ghost predicate CanAdd(m: Mem, d: nat, i: nat, f: nat) {
    Owns(m) && d in m.dirs && i < ENTRIES && !Present(Word(m, d, i)) && IsOther(m, f)
  }

  /** The flat map of every directory is as it was: the new table is empty. */
  lemma AddTableFlat(m: Mem, d: nat, i: nat, f: nat)
    requires CanAdd(m, d, i, f)
    ensures d in m.tables && f != d
    ensures var n := AddTable(m, d, i, f);
            && Word(n, d, i) == Entry(f, 7) && (forall j: nat :: j != i ==> Word(n, d, j) == Word(m, d, j))
            && (forall v: nat :: v < PAGES ==> Pte(n, d, v) == Pte(m, d, v))
  {
    assert m.owner[d] == Root(d);
    AddTableWords(m, d, i, f);
    var n := AddTable(m, d, i, f);
    hide AddTable;
    forall v: nat | v < PAGES
      ensures Pte(n, d, v) == Pte(m, d, v)
    {
      var e := Word(m, d, v / ENTRIES);
      if Present(e) {
        assert IsTab(m, e.frame, d, v / ENTRIES);
      }
    }
  }

  lemma AddTableElsewhere(m: Mem, d: nat, i: nat, f: nat, d': nat)
    requires CanAdd(m, d, i, f) && d' in m.dirs && d' != d
    ensures d in m.tables && SameDir(m, AddTable(m, d, i, f), d')
  {
    assert m.owner[d] == Root(d) && m.owner[d'] == Root(d');
    AddTableWords(m, d, i, f);
    var n := AddTable(m, d, i, f);
    forall g, k: nat, j: nat | IsTab(m, g, d', k)
      ensures Word(n, g, j) == Word(m, g, j)
    {
    }
    SameFrames(m, n, d');
  }

  lemma AddTableOwns(m: Mem, d: nat, i: nat, f: nat)
    requires CanAdd(m, d, i, f)
    ensures d in m.tables && Owns(AddTable(m, d, i, f))
  {
    AddTableFlat(m, d, i, f);
    var n := AddTable(m, d, i, f);
    forall d' | d' in m.dirs && d' != d
      ensures SameDir(m, n, d')
    {
      AddTableElsewhere(m, d, i, f, d');
    }
    AddTableTabs(m, d, i, f);
    AddTablePages(m, d, i, f);
    AddTableOwners(m, d, i, f);
    hide TabsOk, PagesOk, OwnersOk, Pte, Word, SameDir;
  }

  lemma AddTableTabs(m: Mem, d: nat, i: nat, f: nat)
    requires CanAdd(m, d, i, f) && d in m.tables && f != d
    requires var n := AddTable(m, d, i, f);
             && Word(n, d, i) == Entry(f, 7) && (forall j: nat :: j != i ==> Word(n, d, j) == Word(m, d, j))
             && forall d' :: d' in m.dirs && d' != d ==> SameDir(m, n, d')
    ensures TabsOk(AddTable(m, d, i, f))
  {
    var n := AddTable(m, d, i, f);
    hide Word, Pte, PagesOk, OwnersOk, FreeOk, RootsOk;
    forall e, j: nat | e in n.dirs && j < ENTRIES && Present(Word(n, e, j))
      ensures IsTab(n, Word(n, e, j).frame, e, j)
    {
      if e == d && j == i {
      } else {
        assert e != d ==> SameDir(m, n, e);
        assert IsTab(m, Word(m, e, j).frame, e, j);
      }
    }
  }

  lemma AddTablePages(m: Mem, d: nat, i: nat, f: nat)
    requires CanAdd(m, d, i, f) && d in m.tables
    requires var n := AddTable(m, d, i, f);
             && (forall v: nat :: v < PAGES ==> Pte(n, d, v) == Pte(m, d, v))
             && forall d' :: d' in m.dirs && d' != d ==> SameDir(m, n, d')
    ensures PagesOk(AddTable(m, d, i, f))
  {
    var n := AddTable(m, d, i, f);
    hide Word, Pte, TabsOk, OwnersOk, FreeOk, RootsOk;
    forall e, v: nat | e in n.dirs && v < USER && Present(Pte(n, e, v))
      ensures IsPage(n, Pte(n, e, v).frame, e, v)
    {
      assert e != d ==> SameDir(m, n, e);
      assert IsPage(m, Pte(m, e, v).frame, e, v);
    }
  }

  lemma AddTableOwners(m: Mem, d: nat, i: nat, f: nat)
    requires CanAdd(m, d, i, f) && d in m.tables
    requires var n := AddTable(m, d, i, f);
             && Word(n, d, i) == Entry(f, 7) && (forall j: nat :: j != i ==> Word(n, d, j) == Word(m, d, j))
             && (forall v: nat :: v < PAGES ==> Pte(n, d, v) == Pte(m, d, v))
             && forall d' :: d' in m.dirs && d' != d ==> SameDir(m, n, d')
    ensures OwnersOk(AddTable(m, d, i, f))
  {
    var n := AddTable(m, d, i, f);
    hide Word, Pte, TabsOk, PagesOk, FreeOk, RootsOk;
    forall g | g in n.owner
      ensures Used(n, g)
    {
      if g != f {
        assert Used(m, g);
        assert !m.owner[g].Other? && m.owner[g].dir != d && m.owner[g].dir in m.dirs ==> SameDir(m, n, m.owner[g].dir);
      }
    }
  }

  // ---------- mapping and unmapping a page ----------

  /** One entry written, and the owners as they are then. */
  function Rewrite(m: Mem, d: nat, v: nat, e: Entry, own: map<nat, Slot>): Mem
    requires Word(m, d, v / ENTRIES).frame in m.tables
  {
    SetPte(m, d, v, e).(owner := own)
  }

  /** Directories and tables stay with their owners. */
  ghost predicate SameTabs(own: map<nat, Slot>, own': map<nat, Slot>) {
    && own'.Keys == own.Keys
    && forall f :: f in own && (own[f].Root? || own[f].Tab? || own'[f].Root? || own'[f].Tab?) ==> own'[f] == own[f]
  }

  ghost predicate CanRewrite(m: Mem, d: nat, v: nat, own: map<nat, Slot>) {
    Owns(m) && d in m.dirs && v < PAGES && Present(Word(m, d, v / ENTRIES)) && SameTabs(m.owner, own)
  }

  lemma RewriteFlat(m: Mem, d: nat, v: nat, e: Entry, own: map<nat, Slot>)
    requires CanRewrite(m, d, v, own)
    ensures Word(m, d, v / ENTRIES).frame in m.tables
    ensures var n := Rewrite(m, d, v, e, own);
            && n.dirs == m.dirs
            && (forall d', i: nat :: d' in m.dirs && i < ENTRIES ==> Word(n, d', i) == Word(m, d', i))
            && (forall d', w: nat :: d' in m.dirs && w < PAGES ==> Pte(n, d', w) == if d' == d && w == v then e else Pte(m, d', w))
  {
    SetPteFlat(m, d, v, e);
    var k, n := SetPte(m, d, v, e), Rewrite(m, d, v, e, own);
    assert n.tables == k.tables;
    assert forall g, i: nat :: Word(n, g, i) == Word(k, g, i);
    forall d', w: nat | d' in m.dirs && w < PAGES
      ensures Pte(n, d', w) == if d' == d && w == v then e else Pte(m, d', w)
    {
      if d' != d {
        SetPteElsewhere(m, d, v, e, d');
      }
    }
    forall d', i: nat | d' in m.dirs && i < ENTRIES
      ensures Word(n, d', i) == Word(m, d', i)
    {
      if d' != d {
        SetPteElsewhere(m, d, v, e, d');
      }
    }
  }

  lemma RewriteTabs(m: Mem, d: nat, v: nat, e: Entry, own: map<nat, Slot>)
    requires CanRewrite(m, d, v, own)
    ensures Word(m, d, v / ENTRIES).frame in m.tables
    ensures var n := Rewrite(m, d, v, e, own); RootsOk(n) && TabsOk(n) && FreeOk(n)
  {
    RewriteFlat(m, d, v, e, own);
    var n := Rewrite(m, d, v, e, own);
    hide Pte, Word, PagesOk, OwnersOk;
    forall d', i: nat | d' in n.dirs && i < ENTRIES && Present(Word(n, d', i))
      ensures IsTab(n, Word(n, d', i).frame, d', i)
    {
      assert IsTab(m, Word(m, d', i).frame, d', i);
    }
  }

  /** A frame becomes the page behind a user mapping. */
  lemma MapOwns(m: Mem, d: nat, v: nat, e: Entry)
    requires Owns(m) && d in m.dirs && v < USER && Present(Word(m, d, v / ENTRIES))
    requires IsOther(m, e.frame) && Present(e) && !Present(Pte(m, d, v))
    ensures Word(m, d, v / ENTRIES).frame in m.tables && Owns(Rewrite(m, d, v, e, m.owner[e.frame := Page(d, v)]))
  {
    var own := m.owner[e.frame := Page(d, v)];
    RewriteTabs(m, d, v, e, own);
    RewriteFlat(m, d, v, e, own);
    var n := Rewrite(m, d, v, e, own);
    assert n.owner == own;
    hide Pte, Word, Rewrite, RootsOk, TabsOk, FreeOk;
    forall d', w: nat | d' in n.dirs && w < USER && Present(Pte(n, d', w))
      ensures IsPage(n, Pte(n, d', w).frame, d', w)
    {
      assert (d' == d && w == v) || IsPage(m, Pte(m, d', w).frame, d', w);
    }
    forall g | g in n.owner
      ensures Used(n, g)
    {
      assert g == e.frame || Used(m, g);
    }
  }

  /** The page behind a user mapping is let go. */
  lemma UnmapOwns(m: Mem, d: nat, v: nat)
    requires Owns(m) && d in m.dirs && v < USER && Present(Pte(m, d, v))
    ensures var f := Pte(m, d, v).frame;
            && IsPage(m, f, d, v) && Present(Word(m, d, v / ENTRIES)) && Word(m, d, v / ENTRIES).frame in m.tables
            && Owns(Rewrite(m, d, v, ZERO, m.owner[f := Other]))
  {
    var f := Pte(m, d, v).frame;
    assert IsPage(m, f, d, v);
    var own := m.owner[f := Other];
    RewriteTabs(m, d, v, ZERO, own);
    RewriteFlat(m, d, v, ZERO, own);
    var n := Rewrite(m, d, v, ZERO, own);
    assert n.owner == own;
    hide Pte, Word, Rewrite, RootsOk, TabsOk, FreeOk;
    forall d', w: nat | d' in n.dirs && w < USER && Present(Pte(n, d', w))
      ensures IsPage(n, Pte(n, d', w).frame, d', w)
    {
      assert IsPage(m, Pte(m, d', w).frame, d', w);
    }
    forall g | g in n.owner
      ensures Used(n, g)
    {
      assert g == f || Used(m, g);
    }
  }

  /** A kernel mapping owns nothing. */
  lemma MapKernelOwns(m: Mem, d: nat, v: nat, e: Entry)
    requires Owns(m) && d in m.dirs && USER <= v < PAGES && Present(Word(m, d, v / ENTRIES))
    ensures Word(m, d, v / ENTRIES).frame in m.tables && Owns(Rewrite(m, d, v, e, m.owner))
  {
    RewriteTabs(m, d, v, e, m.owner);
    RewriteFlat(m, d, v, e, m.owner);
    var n := Rewrite(m, d, v, e, m.owner);
    assert n.owner == m.owner;
    hide Pte, Word, Rewrite, RootsOk, TabsOk, FreeOk;
    forall d', w: nat | d' in n.dirs && w < USER && Present(Pte(n, d', w))
      ensures IsPage(n, Pte(n, d', w).frame, d', w)
    {
      assert IsPage(m, Pte(m, d', w).frame, d', w);
    }
    forall g | g in n.owner
      ensures Used(n, g)
    {
      assert Used(m, g);
    }
  }

  // ---------- a new directory, and one taken apart ----------

  lemma NewDirOwns(m: Mem, f: nat)
    requires Owns(m) && IsOther(m, f)
    ensures var n := NewDir(m, f);
            && f !in m.dirs && Owns(n) && (forall d :: d in m.dirs ==> SameDir(m, n, d))
            && (forall i: nat :: Word(n, f, i) == ZERO) && (forall v: nat :: Pte(n, f, v) == ZERO)
  {
    var n := NewDir(m, f);
    assert f !in m.dirs;
    assert forall i: nat :: Word(n, f, i) == ZERO;
    assert forall v: nat :: Pte(n, f, v) == ZERO;
    forall d | d in m.dirs
      ensures SameDir(m, n, d)
    {
      SameElsewhere(m, n, d, f);
    }
    hide Pte, Word;
    forall d, i: nat | d in n.dirs && i < ENTRIES && Present(Word(n, d, i))
      ensures IsTab(n, Word(n, d, i).frame, d, i)
    {
      assert d != f && SameDir(m, n, d);
      assert IsTab(m, Word(m, d, i).frame, d, i);
    }
    forall d, v: nat | d in n.dirs && v < USER && Present(Pte(n, d, v))
      ensures IsPage(n, Pte(n, d, v).frame, d, v)
    {
      assert d != f && SameDir(m, n, d);
      assert IsPage(m, Pte(m, d, v).frame, d, v);
    }
    forall g | g in n.owner
      ensures Used(n, g)
    {
      assert g == f || Used(m, g);
      assert g != f && !m.owner[g].Other? && m.owner[g].dir in m.dirs ==> SameDir(m, n, m.owner[g].dir);
    }
  }

  function Disowned(slot: Slot, d: nat): Slot {
    if !slot.Other? && slot.dir == d then Other else slot
  }

  /** Directory d given up: its frames are no longer anyone's part of a table. */
  function Retire(m: Mem, d: nat): Mem {
    m.(dirs := m.dirs - {d}, owner := map f | f in m.owner :: Disowned(m.owner[f], d))
  }

  lemma RetireOwns(m: Mem, d: nat)
    requires Owns(m)
    ensures Owns(Retire(m, d)) && forall d' :: d' in m.dirs && d' != d ==> SameDir(m, Retire(m, d), d')
  {
    var n := Retire(m, d);
    assert forall f, i: nat :: Word(n, f, i) == Word(m, f, i);
    assert forall e, v: nat :: Pte(n, e, v) == Pte(m, e, v);
    hide Pte, Word, Present;
    forall e, i: nat | e in n.dirs && i < ENTRIES && Present(Word(n, e, i))
      ensures IsTab(n, Word(n, e, i).frame, e, i)
    {
      assert IsTab(m, Word(m, e, i).frame, e, i);
    }
    forall e, v: nat | e in n.dirs && v < USER && Present(Pte(n, e, v))
      ensures IsPage(n, Pte(n, e, v).frame, e, v)
    {
      assert IsPage(m, Pte(m, e, v).frame, e, v);
    }
    forall g | g in n.owner
      ensures Used(n, g)
    {
      assert Used(m, g);
    }
  }

  // ---------- conservation ----------

  ghost predicate SameOthers(m: Mem, n: Mem) {
    forall f: nat :: IsOther(n, f) <==> IsOther(m, f)
  }

  /** The same directories and the same other allocations leave the same frames free: nothing leaks and nothing is freed twice. */
  lemma SameFree(m: Mem, n: Mem, frames: set<nat>)
    requires Owns(m) && Owns(n) && SameDirs(m, n) && SameOthers(m, n) && Complete(m, frames) && Complete(n, frames)
    ensures forall f :: f in n.free <==> f in m.free
  {
    forall f | f in frames
      ensures f in n.owner <==> f in m.owner
    {
      if f in m.owner {
        StillOwned(m, n, f);
      }
      if f in n.owner {
        SameDirsBack(m, n);
        StillOwned(n, m, f);
      }
    }
    hide Owns, SameDirs, SameOthers;
    assert FreeOk(m) && FreeOk(n) by { FreeOf(m); FreeOf(n); }
  }

  lemma FreeOf(m: Mem)
    requires Owns(m)
    ensures FreeOk(m)
  {
  }

  lemma SameDirsBack(m: Mem, n: Mem)
    requires SameDirs(m, n)
    ensures SameDirs(n, m)
  {
    hide Word, Pte;
  }

  lemma StillOwned(m: Mem, n: Mem, f: nat)
    requires Owns(m) && Owns(n) && SameDirs(m, n) && SameOthers(m, n) && f in m.owner
    ensures f in n.owner
  {
    hide Word, Pte, Present;
    assert Used(m, f);
    match m.owner[f]
    case Root(d) =>
    case Tab(d, i) => assert SameDir(m, n, d) && IsTab(n, Word(n, d, i).frame, d, i);
    case Page(d, v) => assert SameDir(m, n, d) && IsPage(n, Pte(n, d, v).frame, d, v);
    case Other => assert IsOther(m, f);
  }

  // ---------- runs of changes to one directory ----------

  /** Only directory d changed, and it kept the tables it had. */
  ghost predicate Extends(m: Mem, n: Mem, d: nat) {
    && n.dirs == m.dirs && (forall d' :: d' in m.dirs && d' != d ==> SameDir(m, n, d'))
    && (forall i: nat :: i < ENTRIES && Present(Word(m, d, i)) ==> Word(n, d, i) == Word(m, d, i))
  }

  ghost predicate SameFlat(m: Mem, n: Mem, d: nat) {
    forall v: nat :: v < PAGES ==> Pte(n, d, v) == Pte(m, d, v)
  }

  lemma ExtendsTrans(m: Mem, n: Mem, o: Mem, d: nat)
    requires Extends(m, n, d) && Extends(n, o, d)
    ensures Extends(m, o, d)
  {
    hide Word, Pte, Present;
    forall d' | d' in m.dirs && d' != d
      ensures SameDir(m, o, d')
    {
      assert SameDir(m, n, d') && SameDir(n, o, d');
    }
  }

  lemma SameExtends(m: Mem, n: Mem, d: nat)
    requires SameDirs(m, n) && d in m.dirs
    ensures Extends(m, n, d) && SameFlat(m, n, d)
  {
    assert SameDir(m, n, d);
    hide Word, Pte, Present;
  }
}
