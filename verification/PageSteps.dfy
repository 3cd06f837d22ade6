/** What allocating, mapping, freeing and copying do to page tables and frames, as relations between states. */
module PageSteps {
  import opened Common
  import opened Layout
  import opened PageTables

  type Bytes = b: seq<int> | |b| == PGSIZE witness seq(PGSIZE, i => 0)

  const WORD: nat := 0x1_0000_0000

  function Filled(b: int): Bytes {
    seq(PGSIZE, i => b)
  }

  /** Setting the present bit. */
  function OrPresent(flags: Flags): Flags {
    if flags % 2 == 1 then flags else flags + 1
  }

  const EXTMEM: nat := 0x10_0000
  const KERNLINK: nat := KERNBASE + EXTMEM
  const DEVSPACE: nat := 0xFE00_0000

  predicate DataOk(data: nat) {
    data % PGSIZE == 0 && KERNLINK < data < KERNBASE + PHYSTOP
  }

  /** Frames the allocator deals in lie above the kernel image and below PHYSTOP. */
  ghost predicate InRange(frames: set<nat>) {
    forall f :: f in frames ==> 0 < f < PHYSTOP / PGSIZE
  }

  /** Page v of directory d now has entry e, and a user frame has left the other allocations. */
  ghost predicate MappedAt(m: Mem, n: Mem, d: nat, v: nat, e: Entry) {
    && (forall w: nat :: w < PAGES ==> Pte(n, d, w) == if w == v then e else Pte(m, d, w))
    && (forall g: nat :: IsOther(n, g) <==> IsOther(m, g) && !(v < USER && g == e.frame))
  }

  /** `count` pages from `first`, to be mapped to the frames from `frame`. */
  datatype Region = Region(first: nat, count: nat, frame: nat)

  /** The pages touched by [va, va + size). */
  function RegionOf(va: nat, size: nat, pa: nat): Region
    requires size > 0
  {
    Region(va / PGSIZE, (va + size - 1) / PGSIZE - va / PGSIZE + 1, pa / PGSIZE)
  }

  /** The region is not mapped yet, and the frames for its user pages are in hand. */
  ghost predicate CanMap(m: Mem, d: nat, r: Region) {
    && r.first + r.count <= PAGES && r.frame + r.count <= PAGES
    && (forall v: nat :: r.first <= v < r.first + r.count ==> !Present(Pte(m, d, v)))
    && (forall g: nat :: r.frame <= g < r.frame + r.count && r.first + g - r.frame < USER ==> IsOther(m, g))
  }

  /** The first k pages of the region are mapped. */
  ghost predicate MappedRun(m: Mem, n: Mem, d: nat, r: Region, k: nat, flags: Flags) {
    && (forall w: nat :: w < PAGES ==>
          Pte(n, d, w) == if r.first <= w < r.first + k then Entry(r.frame + w - r.first, flags) else Pte(m, d, w))
    && (forall g: nat :: IsOther(n, g) <==> IsOther(m, g) && !(r.frame <= g < r.frame + k && r.first + g - r.frame < USER))
  }

  lemma RegionBounds(m: Mem, d: nat, va: nat, size: nat, pa: nat)
    requires size > 0 && va + size <= WORD && pa % PGSIZE == 0 && CanMap(m, d, RegionOf(va, size, pa))
    ensures var r := RegionOf(va, size, pa);
            && 0 < r.count && r.first == va / PGSIZE && r.frame * PGSIZE == pa
            && (va + size - 1) % WORD / PGSIZE * PGSIZE == (r.first + r.count - 1) * PGSIZE
            && (r.first + r.count) * PGSIZE <= WORD && (r.frame + r.count) * PGSIZE <= WORD
  {
    hide Pte;
    assert (va + size - 1) % WORD == va + size - 1;
  }

  lemma KeptDirs(m: Mem, n: Mem, d: nat)
    requires Extends(m, n, d) || n == m
    ensures n.dirs == m.dirs
  {
  }

  lemma NoRun(m: Mem, d: nat, r: Region, flags: Flags)
    ensures MappedRun(m, m, d, r, 0, flags)
  {
  }

  lemma RunStep(m: Mem, n: Mem, o: Mem, d: nat, r: Region, k: nat, flags: Flags)
    requires MappedRun(m, n, d, r, k, flags) && MappedAt(n, o, d, r.first + k, Entry(r.frame + k, flags))
    ensures MappedRun(m, o, d, r, k + 1, flags)
  {
    hide Pte, IsOther;
  }

  /** The next page can be mapped. */
  lemma RunNext(m: Mem, n: Mem, d: nat, r: Region, k: nat, flags: Flags)
    requires CanMap(m, d, r) && k < r.count && MappedRun(m, n, d, r, k, flags)
    ensures !Present(Pte(n, d, r.first + k)) && (r.first + k < USER ==> IsOther(n, r.frame + k)) && r.first + k < PAGES
  {
    hide Pte, Present;
    assert Pte(n, d, r.first + k) == Pte(m, d, r.first + k);
    assert r.first + k < USER ==> IsOther(m, r.frame + k);
  }

  /** Pages that sz bytes take: PGROUNDUP in pages. */
  function PagesIn(sz: nat): nat {
    (sz + PGSIZE - 1) / PGSIZE
  }

  /** Frames that still belong to someone hold what they held. */
  ghost predicate KeptPages(own: map<nat, Slot>, p: map<nat, Bytes>, q: map<nat, Bytes>) {
    q.Keys == p.Keys && forall f :: f in own && f in p ==> q[f] == p[f]
  }

  /** Directory d lost its pages from lo up to hi, and nothing else changed in any directory. */
  ghost predicate Cleared(m: Mem, n: Mem, d: nat, lo: nat, hi: nat) {
    && n.dirs == m.dirs && (forall d' :: d' in m.dirs && d' != d ==> SameDir(m, n, d')) && SameOthers(m, n)
    && (forall i: nat :: i < ENTRIES ==> Word(n, d, i) == Word(m, d, i))
    && (forall w: nat :: w < PAGES ==> Pte(n, d, w) == if lo <= w < hi && Present(Pte(m, d, w)) then ZERO else Pte(m, d, w))
  }

  function Dropped(m: Mem, d: nat, v: nat): Mem
    requires Word(m, d, v / ENTRIES).frame in m.tables
  {
    Rewrite(m, d, v, ZERO, m.owner[Pte(m, d, v).frame := Other])
  }

  lemma PteIs(m: Mem, d: nat, v: nat)
    requires Owns(m) && d in m.dirs && v < PAGES && Present(Word(m, d, v / ENTRIES))
    ensures d in m.tables && Word(m, d, v / ENTRIES) == m.tables[d][v / ENTRIES]
    ensures m.tables[d][v / ENTRIES].frame in m.tables && Pte(m, d, v) == m.tables[m.tables[d][v / ENTRIES].frame][v % ENTRIES]
  {
    RootIn(m, d);
    assert IsTab(m, Word(m, d, v / ENTRIES).frame, d, v / ENTRIES);
  }

  lemma UnmapFrees(m: Mem, d: nat, v: nat)
    requires Owns(m) && d in m.dirs && v < USER && Present(Pte(m, d, v))
    ensures Present(Word(m, d, v / ENTRIES)) && Word(m, d, v / ENTRIES).frame in m.tables && d in m.tables
    ensures m.tables[d][v / ENTRIES] == Word(m, d, v / ENTRIES)
    ensures Pte(m, d, v) == m.tables[Word(m, d, v / ENTRIES).frame][v % ENTRIES]
    ensures var n, f := Dropped(m, d, v), Pte(m, d, v).frame;
            && Owns(n) && IsOther(n, f) && n.owner.Keys == m.owner.Keys && n.free == m.free
            && Cleared(m, Give(n, f), d, v, v + 1)
  {
    UnmapOwns(m, d, v);
    PteIs(m, d, v);
    var f := Pte(m, d, v).frame;
    var n := Dropped(m, d, v);
    RewriteFlat(m, d, v, ZERO, m.owner[f := Other]);
    GiveOwns(n, f);
    assert n.owner == m.owner[f := Other] && f in m.owner && m.owner[f].Page?;
    ClearedAt(m, n, Give(n, f), d, v);
  }

  lemma ClearedAt(m: Mem, n: Mem, o: Mem, d: nat, v: nat)
    requires d in m.dirs && n.dirs == m.dirs && SameDirs(n, o) && v < PAGES && Present(Pte(m, d, v)) && SameOthers(m, o)
    requires forall d', i: nat :: d' in m.dirs && i < ENTRIES ==> Word(n, d', i) == Word(m, d', i)
    requires forall d', w: nat :: d' in m.dirs && w < PAGES ==> Pte(n, d', w) == if d' == d && w == v then ZERO else Pte(m, d', w)
    ensures Cleared(m, o, d, v, v + 1)
  {
    hide Pte, Word, SameOthers;
    assert SameDir(n, o, d);
    forall d' | d' in m.dirs && d' != d
      ensures SameDir(m, o, d')
    {
      assert SameDir(n, o, d');
    }
  }

  lemma NoneCleared(m: Mem, d: nat, lo: nat, hi: nat)
    requires hi <= lo
    ensures Cleared(m, m, d, lo, hi)
  {
  }

  lemma ClearNothing(m: Mem, n: Mem, d: nat, lo: nat, v: nat)
    requires Cleared(m, n, d, lo, v) && lo <= v && v < PAGES && !Present(Pte(n, d, v))
    ensures Cleared(m, n, d, lo, v + 1)
  {
    hide Word, Pte, SameOthers, SameDir;
  }

  lemma ClearMore(m: Mem, n: Mem, o: Mem, d: nat, lo: nat, v: nat)
    requires Cleared(m, n, d, lo, v) && Cleared(n, o, d, v, v + 1) && lo <= v
    ensures Cleared(m, o, d, lo, v + 1)
  {
    hide Word, Pte;
    forall d' | d' in m.dirs && d' != d
      ensures SameDir(m, o, d')
    {
      assert SameDir(m, n, d') && SameDir(n, o, d');
    }
  }

  /** A missing page table means 4 MB without a mapping. */
  lemma SkipTable(m: Mem, n: Mem, d: nat, lo: nat, v: nat, hi: nat)
    requires Cleared(m, n, d, lo, v) && lo <= v < PAGES && v <= hi && !Present(Word(n, d, v / ENTRIES))
    ensures Cleared(m, n, d, lo, Min((v / ENTRIES + 1) * ENTRIES, hi))
  {
    forall w: nat | v <= w < (v / ENTRIES + 1) * ENTRIES && w < PAGES
      ensures Pte(n, d, w) == Pte(m, d, w) && !Present(Pte(m, d, w))
    {
      assert w / ENTRIES == v / ENTRIES;
    }
    hide Word, Pte, SameOthers, SameDir;
  }

  /** The last page of the 4 MB that address a is in. */
  function LastOfTable(a: nat): nat {
    (a / PGSIZE / ENTRIES + 1) * ENTRIES * PGSIZE - PGSIZE
  }

  lemma NextPage(a: nat)
    requires a % PGSIZE == 0
    ensures (a + PGSIZE) % PGSIZE == 0 && (a + PGSIZE) / PGSIZE == a / PGSIZE + 1
  {
  }

  lemma NextTable(a: nat)
    requires a % PGSIZE == 0
    ensures var b := LastOfTable(a) + PGSIZE; a < b && b % PGSIZE == 0 && b / PGSIZE == (a / PGSIZE / ENTRIES + 1) * ENTRIES
  {
  }

  lemma KeptClear(m: Mem, n: Mem, d: nat, lo: nat)
    requires exists hi: nat :: Cleared(m, n, d, lo, hi)
    ensures n.dirs == m.dirs
  {
  }

  predicate OfDir(own: map<nat, Slot>, f: nat, d: nat) {
    f in own && !own[f].Other? && own[f].dir == d
  }

  /** Directory d is gone; all and only the frames that were its own are now free; nothing else changed. */
  ghost predicate FreedDir(m: Mem, n: Mem, d: nat) {
    && n.dirs == m.dirs - {d} && (forall d' :: d' in m.dirs && d' != d ==> SameDir(m, n, d')) && SameOthers(m, n)
    && (forall f: nat :: f in n.free <==> f in m.free || OfDir(m.owner, f, d))
  }

  /** freevm's loop: d is no longer a directory and its tables below entry i are freed. */
  ghost predicate TornDown(m: Mem, n: Mem, d: nat, i: nat) {
    && n.dirs == m.dirs - {d} && (forall d' :: d' in m.dirs && d' != d ==> SameDir(m, n, d'))
    && d in n.tables && (forall j: nat :: j < ENTRIES ==> n.tables[d][j] == Word(m, d, j))
    && (forall g: nat :: IsOther(n, g) <==> IsOther(m, g) || (OfDir(m.owner, g, d) && !(m.owner[g].Tab? && m.owner[g].i < i)))
  }

  lemma BeginTear(m: Mem, d: nat)
    requires Owns(m) && d in m.dirs
    ensures var n := Retire(m, d);
            && Owns(n) && TornDown(m, n, d, 0) && n.owner.Keys == m.owner.Keys && n.dirs == m.dirs - {d}
            && n.tables == m.tables && n.free == m.free
  {
    RetireOwns(m, d);
    RootIn(m, d);
    hide Owns, Pte;
  }

  /** The table behind entry i can be freed, and the loop goes on. */
  lemma TearStep(m: Mem, n: Mem, d: nat, i: nat)
    requires Owns(m) && d in m.dirs && Owns(n) && TornDown(m, n, d, i) && i < ENTRIES
    ensures d in n.tables
    ensures var f := n.tables[d][i].frame;
            if Present(n.tables[d][i]) then IsOther(n, f) && TornDown(m, Give(n, f), d, i + 1) else TornDown(m, n, d, i + 1)
  {
    var e := Word(m, d, i);
    if Present(e) {
      assert IsTab(m, e.frame, d, i) && m.owner[d] == Root(d);
      GiveOwns(n, e.frame);
      TearTable(m, n, d, i, e.frame);
    } else {
      TearNone(m, n, d, i);
    }
  }

  lemma TearTable(m: Mem, n: Mem, d: nat, i: nat, f: nat)
    requires Owns(m) && TornDown(m, n, d, i) && i < ENTRIES && IsTab(m, f, d, i) && f != d && SameDirs(n, Give(n, f))
    requires Present(Word(m, d, i)) && Word(m, d, i).frame == f
    ensures TornDown(m, Give(n, f), d, i + 1)
  {
    var o := Give(n, f);
    forall d' | d' in m.dirs && d' != d
      ensures SameDir(m, o, d')
    {
      assert SameDir(m, n, d') && SameDir(n, o, d');
      hide Word, Pte;
    }
    forall g: nat
      ensures IsOther(o, g) <==> IsOther(m, g) || (OfDir(m.owner, g, d) && !(m.owner[g].Tab? && m.owner[g].i < i + 1))
    {
      if OfDir(m.owner, g, d) && m.owner[g].Tab? && m.owner[g].i == i {
        assert Used(m, g);
      }
      hide Pte, SameDir;
    }
    hide Pte, SameDir, Owns;
  }

  lemma TearNone(m: Mem, n: Mem, d: nat, i: nat)
    requires Owns(m) && TornDown(m, n, d, i) && i < ENTRIES && !Present(Word(m, d, i))
    ensures TornDown(m, n, d, i + 1)
  {
    forall g: nat
      ensures IsOther(n, g) <==> IsOther(m, g) || (OfDir(m.owner, g, d) && !(m.owner[g].Tab? && m.owner[g].i < i + 1))
    {
      if OfDir(m.owner, g, d) && m.owner[g].Tab? && m.owner[g].i == i {
        assert Used(m, g);
      }
      hide Pte, SameDir, Word;
    }
    hide Pte, SameDir, Owns, Word;
  }

  /** Only the directory's own frame is left. */
  lemma EndTear(m: Mem, n: Mem, o: Mem, d: nat)
    requires d in m.dirs && Owns(n) && Owns(o) && Cleared(m, n, d, PagesIn(0), PagesIn(KERNBASE)) && TornDown(n, o, d, ENTRIES)
    ensures IsOther(o, d)
    ensures var p := Give(o, d);
            p.dirs == m.dirs - {d} && (forall d' :: d' in m.dirs && d' != d ==> SameDir(m, p, d')) && SameOthers(m, p)
  {
    assert n.owner[d] == Root(d);
    forall g: nat
      ensures OfDir(n.owner, g, d) ==> g == d || (n.owner[g].Tab? && n.owner[g].i < ENTRIES)
    {
      if OfDir(n.owner, g, d) {
        assert Used(n, g);
        NoPages(m, n, d, g);
      }
    }
    GiveOwns(o, d);
    var p := Give(o, d);
    forall d' | d' in m.dirs && d' != d
      ensures SameDir(m, p, d')
    {
      assert SameDir(m, n, d') && SameDir(n, o, d') && SameDir(o, p, d');
      hide Word, Pte, Owns;
    }
    hide Word, Pte, Owns, SameDir;
  }

  lemma NoPages(m: Mem, n: Mem, d: nat, g: nat)
    requires Cleared(m, n, d, PagesIn(0), PagesIn(KERNBASE)) && g in n.owner && Used(n, g)
    ensures !(n.owner[g].Page? && n.owner[g].dir == d)
  {
    hide Pte, Word, SameDir;
  }

  lemma TornFree(m: Mem, n: Mem, d: nat, frames: set<nat>)
    requires Owns(m) && Owns(n) && Complete(m, frames) && Complete(n, frames)
    requires n.dirs == m.dirs - {d} && (forall d' :: d' in m.dirs && d' != d ==> SameDir(m, n, d')) && SameOthers(m, n)
    ensures FreedDir(m, n, d)
  {
    forall f: nat
      ensures f in n.owner <==> f in m.owner && !OfDir(m.owner, f, d)
    {
      if f in m.owner && !OfDir(m.owner, f, d) {
        StaysOwned(m, n, f);
      }
      if f in n.owner {
        StaysOwned(n, m, f);
        WasNotOf(m, n, d, f);
      }
    }
    FreeOf(m);
    FreeOf(n);
    hide Owns, SameDir, SameOthers;
  }

  /** A frame owned by a directory that both have, and that is the same in both, is owned in both, alike. */
  lemma StaysOwned(m: Mem, n: Mem, f: nat)
    requires Owns(m) && Owns(n) && SameOthers(m, n) && f in m.owner
    requires m.owner[f].Other? || (m.owner[f].dir in m.dirs ==> m.owner[f].dir in n.dirs && (SameDir(m, n, m.owner[f].dir) || SameDir(n, m, m.owner[f].dir)))
    ensures f in n.owner && n.owner[f] == m.owner[f]
  {
    hide Word, Pte, Present;
    assert Used(m, f);
    match m.owner[f]
    case Root(d) =>
    case Tab(d, i) => assert IsTab(n, Word(n, d, i).frame, d, i);
    case Page(d, v) => assert IsPage(n, Pte(n, d, v).frame, d, v);
    case Other => assert IsOther(m, f);
  }

  lemma WasNotOf(m: Mem, n: Mem, d: nat, f: nat)
    requires Owns(n) && f in n.owner && d !in n.dirs && f in m.owner && m.owner[f] == n.owner[f]
    ensures !OfDir(m.owner, f, d)
  {
    hide Word, Pte;
    assert Used(n, f);
  }

  /** Directory d has new pages from lo up to v; its other pages, and all other directories, are as they were. */
  ghost predicate Grown(m: Mem, n: Mem, d: nat, lo: nat, v: nat) {
    && Extends(m, n, d)
    && (forall w: nat :: w < PAGES && !(lo <= w < v) ==> Pte(n, d, w) == Pte(m, d, w))
    && (forall w: nat :: w < PAGES && lo <= w < v ==> Pte(n, d, w).flags == PTE_P + PTE_W + PTE_U && Pte(n, d, w).frame in m.free)
  }

  /** The new pages are zero. */
  ghost predicate NewPages(n: Mem, d: nat, lo: nat, v: nat, pages: map<nat, Bytes>) {
    forall w: nat :: lo <= w < v ==> Pte(n, d, w).frame in pages && pages[Pte(n, d, w).frame] == Filled(0)
  }

  /** After kalloc the next page can be mapped. */
  lemma ReadyToGrow(m: Mem, n: Mem, d: nat, lo: nat, a: nat, frames: set<nat>)
    requires Owns(n) && Complete(n, frames) && InRange(frames) && d in n.dirs && n.free != [] && lo <= a / PGSIZE < USER && a % PGSIZE == 0
    requires Grown(m, n, d, lo, a / PGSIZE) && !Present(Pte(m, d, a / PGSIZE)) && Complete(m, frames) && m.owner.Keys <= n.owner.Keys
    ensures a + PGSIZE <= WORD && n.free[0] * PGSIZE % PGSIZE == 0 && n.free[0] in m.free && n.free[0] !in n.owner && n.free[0] in frames
    ensures RegionOf(a, PGSIZE, n.free[0] * PGSIZE) == Region(a / PGSIZE, 1, n.free[0])
    ensures CanMap(Take(n), d, Region(a / PGSIZE, 1, n.free[0]))
  {
    assert n.free[0] in n.free && n.free[0] in frames;
    TakeOwns(n);
    assert SameDir(n, Take(n), d);
    hide Owns, Word, Pte, SameDirs;
  }

  /** The page just mapped is one more new page. */
  lemma GrowStep(m: Mem, n: Mem, o: Mem, d: nat, lo: nat, v: nat)
    requires Owns(n) && d in n.dirs && n.free != [] && lo <= v < USER && Grown(m, n, d, lo, v) && n.free[0] in m.free
    requires Extends(Take(n), o, d) && MappedRun(Take(n), o, d, Region(v, 1, n.free[0]), 1, PTE_P + PTE_W + PTE_U) && SameOthers(m, n)
    ensures Grown(m, o, d, lo, v + 1) && SameOthers(m, o) && Pte(o, d, v).frame == n.free[0]
    ensures forall w: nat :: lo <= w < v ==> Pte(o, d, w) == Pte(n, d, w)
  {
    TakeOwns(n);
    SameExtends(n, Take(n), d);
    ExtendsTrans(n, Take(n), o, d);
    ExtendsTrans(m, n, o, d);
    OthersBack(n, o, d, v);
    hide Owns, Word, Pte, SameDirs, Extends, IsOther;
  }

  lemma StillNew(n: Mem, o: Mem, d: nat, lo: nat, v: nat, p: map<nat, Bytes>, q: map<nat, Bytes>)
    requires NewPages(n, d, lo, v, p) && q.Keys == p.Keys && (forall w: nat :: lo <= w < v ==> Pte(o, d, w) == Pte(n, d, w))
    requires Pte(o, d, v).frame in p && q == p[Pte(o, d, v).frame := Filled(0)]
    ensures NewPages(o, d, lo, v + 1, q)
  {
    hide Pte, Filled;
  }

  lemma OthersBack(n: Mem, o: Mem, d: nat, v: nat)
    requires Owns(n) && n.free != [] && v < USER && MappedRun(Take(n), o, d, Region(v, 1, n.free[0]), 1, PTE_P + PTE_W + PTE_U)
    ensures SameOthers(n, o)
  {
    assert n.free[0] in n.free;
    hide Pte, Word;
  }

  ghost predicate Unmapped(m: Mem, d: nat, lo: nat, hi: nat) {
    forall w: nat :: lo <= w < hi ==> !Present(Pte(m, d, w))
  }

  /** The mappings are as they were; only empty page tables may have been added. */
  ghost predicate Restored(m: Mem, n: Mem, d: nat) {
    && Extends(m, n, d) && SameOthers(m, n)
    && (forall w: nat :: w < PAGES ==> (Present(Pte(n, d, w)) <==> Present(Pte(m, d, w))))
    && (forall w: nat :: w < PAGES && Present(Pte(m, d, w)) ==> Pte(n, d, w) == Pte(m, d, w))
  }

  /** Every frame that was free is free again, or a page table of d. */
  ghost predicate BackOrTable(m: Mem, n: Mem, d: nat) {
    forall f :: f in m.free ==> f in n.free || (f in n.owner && n.owner[f].Tab? && n.owner[f].dir == d)
  }

  lemma SameDirsSelf(m: Mem)
    ensures SameDirs(m, m)
  {
  }

  lemma SameDirsTrans(m: Mem, n: Mem, o: Mem)
    requires SameDirs(m, n) && SameDirs(n, o)
    ensures SameDirs(m, o)
  {
    hide Word, Pte;
    forall d | d in m.dirs
      ensures SameDir(m, o, d)
    {
      assert SameDir(m, n, d) && SameDir(n, o, d);
    }
  }

  /** Growing and then clearing the same range. */
  lemma GrownCleared(m: Mem, n: Mem, k: Mem, o: Mem, p: Mem, d: nat, lo: nat, v: nat, hi: nat)
    requires d in m.dirs && Grown(m, n, d, lo, v) && v <= hi <= PAGES && Unmapped(m, d, lo, hi)
    requires SameDirs(n, k) && Cleared(k, o, d, lo, hi) && SameDirs(o, p) && SameOthers(m, p)
    ensures Restored(m, p, d)
  {
    hide SameOthers;
    SameExtends(n, k, d);
    ClearedExtends(k, o, d, lo, hi);
    SameExtends(o, p, d);
    ExtendsTrans(m, n, k, d);
    ExtendsTrans(m, k, o, d);
    ExtendsTrans(m, o, p, d);
    hide Extends, SameDirs, Word, Pte, SameDir;
  }

  lemma ClearedExtends(m: Mem, n: Mem, d: nat, lo: nat, hi: nat)
    requires Cleared(m, n, d, lo, hi)
    ensures Extends(m, n, d)
  {
    hide Word, Pte, SameDir;
  }

  lemma RestoredOwners(m: Mem, n: Mem, d: nat)
    requires Owns(m) && Owns(n) && Restored(m, n, d)
    ensures m.owner.Keys <= n.owner.Keys
  {
    forall f | f in m.owner
      ensures f in n.owner
    {
      assert Used(m, f);
      hide Word, Pte, Present;
      match m.owner[f]
      case Root(e) =>
      case Tab(e, i) => assert e != d ==> SameDir(m, n, e); assert IsTab(n, Word(n, e, i).frame, e, i);
      case Page(e, v) => assert e != d ==> SameDir(m, n, e); assert IsPage(n, Pte(n, e, v).frame, e, v);
      case Other => assert IsOther(m, f);
    }
  }

  lemma RestoredFree(m: Mem, n: Mem, d: nat, frames: set<nat>)
    requires Owns(m) && Owns(n) && Restored(m, n, d) && Complete(m, frames) && Complete(n, frames)
    ensures BackOrTable(m, n, d)
  {
    forall f | f in n.owner
      ensures f in m.owner || (n.owner[f].Tab? && n.owner[f].dir == d)
    {
      WasOwned(m, n, d, f);
    }
    FreeOf(m);
    hide Owns, Restored;
  }

  lemma WasOwned(m: Mem, n: Mem, d: nat, f: nat)
    requires Owns(m) && Owns(n) && Restored(m, n, d) && f in n.owner
    ensures f in m.owner || (n.owner[f].Tab? && n.owner[f].dir == d)
  {
    assert Used(n, f);
    hide Word, Pte, Present;
    match n.owner[f]
    case Root(e) =>
    case Tab(e, i) => assert e != d ==> SameDir(m, n, e) && IsTab(m, Word(m, e, i).frame, e, i);
    case Page(e, v) => assert e != d ==> SameDir(m, n, e); assert IsPage(m, Pte(m, e, v).frame, e, v);
    case Other => assert IsOther(m, f);
  }

  /** The state with the page in hand, if there is one. */
  function Held(n: Mem, held: bool): Mem
    requires held ==> n.free != []
  {
    if held then Take(n) else n
  }

  lemma HeldPage(n: Mem, held: bool)
    requires Owns(n) && (held ==> n.free != [])
    ensures SameDirs(n, Held(n, held)) && (held ==> !IsOther(n, n.free[0]))
    ensures forall g: nat :: IsOther(Held(n, held), g) <==> IsOther(n, g) || (held && g == n.free[0])
  {
    if held {
      TakeOwns(n);
      assert n.free[0] in n.free;
    } else {
      SameDirsSelf(n);
    }
    hide SameDirs;
  }

  lemma StillHeld(n: Mem, o: Mem, d: nat, lo: nat, hi: nat, held: bool)
    requires Owns(n) && (held ==> n.free != []) && Cleared(Held(n, held), o, d, lo, hi)
    ensures held ==> IsOther(o, n.free[0])
  {
    HeldPage(n, held);
    hide Owns, SameDirs, SameDir, Word, Pte;
  }

  lemma GrownBack(m: Mem, n: Mem, o: Mem, p: Mem, d: nat, lo: nat, v: nat, hi: nat, held: bool)
    requires Owns(n) && d in m.dirs && Grown(m, n, d, lo, v) && SameOthers(m, n) && v <= hi <= PAGES && Unmapped(m, d, lo, hi)
    requires (held ==> n.free != []) && Cleared(Held(n, held), o, d, lo, hi) && SameDirs(o, p)
    requires if held then p == Give(o, n.free[0]) else p == o
    ensures Restored(m, p, d)
  {
    hide Owns, SameDirs, SameDir, Word, Pte, Grown, Unmapped;
    HeldPage(n, held);
    assert SameOthers(Held(n, held), o);
    assert SameOthers(m, p);
    GrownCleared(m, n, Held(n, held), o, p, d, lo, v, hi);
  }

  lemma NotGrown(m: Mem, d: nat, lo: nat, pages: map<nat, Bytes>)
    ensures Grown(m, m, d, lo, lo) && SameOthers(m, m) && NewPages(m, d, lo, lo, pages)
  {
    SameSelf(m, d);
  }

  // ---------- the kernel's part ----------

  datatype Kmap = Kmap(virt: nat, start: nat, end: nat, perm: Flags)

  /** I/O space, kernel text, kernel data and memory, and the devices up to the end of the address space. */
  function KernelMap(data: nat): seq<Kmap> {
    [Kmap(KERNBASE, 0, EXTMEM, PTE_W), Kmap(KERNLINK, EXTMEM, if data > KERNBASE then data - KERNBASE else 0, 0),
     Kmap(data, if data > KERNBASE then data - KERNBASE else 0, PHYSTOP, PTE_W), Kmap(DEVSPACE, DEVSPACE, 0, PTE_W)]
  }

  /** What every directory maps above KERNBASE. */
  function KernelEntry(data: nat, v: nat): Entry {
    if KERNBASE / PGSIZE <= v < KERNLINK / PGSIZE then Entry(v - USER, PTE_P + PTE_W)
    else if KERNLINK / PGSIZE <= v < data / PGSIZE then Entry(v - USER, PTE_P)
    else if USER <= v && data / PGSIZE <= v < (KERNBASE + PHYSTOP) / PGSIZE then Entry(v - USER, PTE_P + PTE_W)
    else if DEVSPACE / PGSIZE <= v then Entry(v, PTE_P + PTE_W)
    else ZERO
  }

  /** Which of the four regions page v is in. */
  function RegionNumber(data: nat, v: nat): nat {
    if v < USER then 4
    else if v < KERNLINK / PGSIZE then 0
    else if v < data / PGSIZE then 1
    else if v < (KERNBASE + PHYSTOP) / PGSIZE then 2
    else if DEVSPACE / PGSIZE <= v then 3
    else 4
  }

  /** The kernel's mappings as far as the first i regions. */
  function Built(data: nat, i: nat, v: nat): Entry {
    if RegionNumber(data, v) < i then KernelEntry(data, v) else ZERO
  }

  ghost predicate IsBuilt(m: Mem, data: nat, d: nat, i: nat) {
    forall v: nat :: v < PAGES ==> Pte(m, d, v) == Built(data, i, v)
  }

  lemma KernelMapLength(data: nat)
    ensures |KernelMap(data)| == 4
  {
  }

  lemma BuiltNone(m: Mem, data: nat, d: nat)
    requires forall v: nat :: v < PAGES ==> Pte(m, d, v) == ZERO
    ensures IsBuilt(m, data, d, 0)
  {
    hide Pte;
  }

  lemma BuiltAll(m: Mem, data: nat, d: nat)
    requires DataOk(data) && IsBuilt(m, data, d, 4)
    ensures forall v: nat :: v < PAGES ==> Pte(m, d, v) == KernelEntry(data, v)
  {
    hide Pte;
    forall v: nat | v < PAGES
      ensures Built(data, 4, v) == KernelEntry(data, v)
    {
    }
  }

  /** Region i as mappages sees it. */
  function RegionAt(data: nat, i: nat): Region {
    if i == 0 then Region(USER, EXTMEM / PGSIZE, 0)
    else if i == 1 then Region(KERNLINK / PGSIZE, if data > KERNLINK then (data - KERNLINK) / PGSIZE else 0, EXTMEM / PGSIZE)
    else if i == 2 then Region(data / PGSIZE, if data < KERNBASE + PHYSTOP then (KERNBASE + PHYSTOP - data) / PGSIZE else 0,
                               if data > KERNBASE then (data - KERNBASE) / PGSIZE else 0)
    else Region(DEVSPACE / PGSIZE, (WORD - DEVSPACE) / PGSIZE, DEVSPACE / PGSIZE)
  }

  /** The regions as given, including the one whose end is the end of the address space. */
  lemma KernelRegionIs(data: nat, i: nat)
    requires DataOk(data) && i < 4
    ensures |KernelMap(data)| == 4
    ensures var k := KernelMap(data)[i];
            var size := (k.end + WORD - k.start) % WORD;
            && size > 0 && k.virt + size <= WORD && k.start % PGSIZE == 0 && RegionOf(k.virt, size, k.start) == RegionAt(data, i)
            && k.perm == (if i == 1 then 0 else PTE_W) && k.virt / PGSIZE == RegionAt(data, i).first
  {
  }

  lemma KernelRegion(m: Mem, data: nat, d: nat, i: nat)
    requires DataOk(data) && i < 4 && IsBuilt(m, data, d, i)
    ensures |KernelMap(data)| == 4
    ensures var k := KernelMap(data)[i];
            var size := (k.end + WORD - k.start) % WORD;
            && size > 0 && k.virt + size <= WORD && k.start % PGSIZE == 0 && CanMap(m, d, RegionOf(k.virt, size, k.start))
            && RegionOf(k.virt, size, k.start) == RegionAt(data, i) && k.perm == (if i == 1 then 0 else PTE_W)
            && k.virt / PGSIZE == RegionAt(data, i).first
  {
    KernelRegionIs(data, i);
    hide Pte, RegionOf, KernelMap;
    var r := RegionAt(data, i);
    forall v: nat | r.first <= v < r.first + r.count
      ensures v < PAGES && Built(data, i, v) == ZERO
    {
    }
  }

  ghost predicate AddedDir(m: Mem, n: Mem, d: nat) {
    && d !in m.dirs && n.dirs == m.dirs + {d} && (forall d' :: d' in m.dirs ==> SameDir(m, n, d')) && SameOthers(m, n)
  }

  /** Every directory and every allocation is as before, and exactly the same frames are free. */
  ghost predicate AllBack(m: Mem, n: Mem) {
    SameDirs(m, n) && SameOthers(m, n) && forall f :: f in n.free <==> f in m.free
  }

  lemma NothingTaken(m: Mem)
    ensures AllBack(m, m)
  {
  }

  lemma AddDir(m: Mem)
    requires Owns(m) && m.free != []
    ensures var n := NewDir(Take(m), m.free[0]);
            && Owns(n) && AddedDir(m, n, m.free[0]) && (forall v: nat :: v < PAGES ==> Pte(n, m.free[0], v) == ZERO)
            && n.owner.Keys == m.owner.Keys + {m.free[0]} && n.free == m.free[1..] && m.free[0] in m.free && m.free[0] !in m.owner
  {
    var k, f := Take(m), m.free[0];
    assert f in m.free && f !in m.owner;
    TakeOwns(m);
    NewDirOwns(k, f);
    var n := NewDir(k, f);
    forall d' | d' in m.dirs
      ensures SameDir(m, n, d')
    {
      assert SameDir(m, k, d') && SameDir(k, n, d');
      hide Word, Pte, Owns;
    }
    hide Owns, SameDir, Word, Pte, SameDirs;
  }

  lemma RegionAdded(m: Mem, n: Mem, o: Mem, data: nat, d: nat, i: nat, cnt: nat)
    requires DataOk(data) && i < 4 && AddedDir(m, n, d) && IsBuilt(n, data, d, i) && Extends(n, o, d)
    requires MappedRun(n, o, d, RegionAt(data, i), cnt, OrPresent(if i == 1 then 0 else PTE_W)) && cnt <= RegionAt(data, i).count
    ensures AddedDir(m, o, d) && d in o.dirs && (cnt == RegionAt(data, i).count ==> IsBuilt(o, data, d, i + 1))
  {
    forall d' | d' in m.dirs
      ensures SameDir(m, o, d')
    {
      assert SameDir(m, n, d') && SameDir(n, o, d');
      hide Word, Pte;
    }
    hide Word, Pte, SameDir;
    var r := RegionAt(data, i);
    if cnt == r.count {
      forall v: nat | v < PAGES
        ensures Pte(o, d, v) == Built(data, i + 1, v)
      {
        assert r.first <= v < r.first + r.count <==> RegionNumber(data, v) == i;
      }
    }
  }

  lemma TakenBack(m: Mem, n: Mem, o: Mem, d: nat, frames: set<nat>)
    requires Owns(m) && Owns(o) && Complete(m, frames) && Complete(o, frames) && AddedDir(m, n, d) && FreedDir(n, o, d)
    ensures AllBack(m, o) && m.owner.Keys <= o.owner.Keys
  {
    forall d' | d' in m.dirs
      ensures SameDir(m, o, d')
    {
      assert SameDir(m, n, d') && SameDir(n, o, d');
      hide Word, Pte, Owns;
    }
    assert SameDirs(m, o) && SameOthers(m, o);
    SameFree(m, o, frames);
    forall f | f in m.owner
      ensures f in o.owner
    {
      StillOwned(m, o, f);
    }
    hide Owns, SameDirs, SameDir, SameOthers;
  }

  // ---------- bytes of an address space ----------

  predicate UserPage(e: Entry) {
    Present(e) && e.flags / PTE_U % 2 == 1
  }

  function Spliced(b: Bytes, at: nat, s: seq<int>): Bytes
    requires at + |s| <= PGSIZE
  {
    b[..at] + s + b[at + |s|..]
  }

  /** The byte at user address a of directory d. */
  function ByteAt(m: Mem, pages: map<nat, Bytes>, d: nat, a: nat): int {
    var e := Pte(m, d, a / PGSIZE);
    if Present(e) && e.frame in pages then pages[e.frame][a % PGSIZE] else 0
  }

  /** The first k bytes of src are at va in directory d; every other byte of every address space is as it was. */
  ghost predicate Wrote(m: Mem, p: map<nat, Bytes>, q: map<nat, Bytes>, d: nat, va: nat, src: seq<int>, k: nat)
    requires k <= |src|
  {
    && q.Keys == p.Keys
    && (forall e, a: nat :: e in m.dirs && a < KERNBASE && !(e == d && va <= a < va + k) ==> ByteAt(m, q, e, a) == ByteAt(m, p, e, a))
    && (forall a: nat :: va <= a < va + k ==> ByteAt(m, q, d, a) == src[a - va])
  }

  predicate TableAt(m: Mem, d: nat, v: nat) {
    Present(Word(m, d, v / ENTRIES))
  }

  ghost predicate UserPages(m: Mem, d: nat, lo: nat, hi: nat) {
    forall v: nat :: lo <= v < hi ==> UserPage(Pte(m, d, v))
  }

  /** The first page of [va, va + n) that is not the user's has no page table either. */
  ghost predicate Faults(m: Mem, d: nat, va: nat, n: nat) {
    n > 0 && exists p: nat :: va / PGSIZE <= p <= (va + n - 1) / PGSIZE && UserPages(m, d, va / PGSIZE, p) && !TableAt(m, d, p)
  }

  datatype Copying = Done | Refused | Fault

  /** Where copyout stopped decides whether it faults. */
  lemma StoppedAt(m: Mem, d: nat, va: nat, n: nat, p: nat)
    requires n > 0 && va / PGSIZE <= p <= (va + n - 1) / PGSIZE && UserPages(m, d, va / PGSIZE, p) && !UserPage(Pte(m, d, p))
    ensures Faults(m, d, va, n) <==> !TableAt(m, d, p)
  {
    if Faults(m, d, va, n) {
      var q: nat :| va / PGSIZE <= q <= (va + n - 1) / PGSIZE && UserPages(m, d, va / PGSIZE, q) && !TableAt(m, d, q);
      assert !UserPage(Pte(m, d, q));
    }
  }

  lemma NotStopped(m: Mem, d: nat, va: nat, n: nat)
    requires n > 0 ==> UserPages(m, d, va / PGSIZE, (va + n - 1) / PGSIZE + 1)
    ensures !Faults(m, d, va, n)
  {
    forall q: nat | n > 0 && va / PGSIZE <= q <= (va + n - 1) / PGSIZE
      ensures TableAt(m, d, q)
    {
      assert UserPage(Pte(m, d, q));
    }
  }

  lemma UserPagesMore(m: Mem, d: nat, lo: nat, hi: nat)
    ensures UserPages(m, d, lo, lo)
    ensures UserPages(m, d, lo, hi) && UserPage(Pte(m, d, hi)) ==> UserPages(m, d, lo, hi + 1)
  {
  }

  /** The pages of a copy: after n more bytes, at most to the end of the page, the next byte is on the next page. */
  lemma PageEnd(va: nat, k: nat, n: nat, total: nat)
    requires k < total && n > 0 && (va + k) % PGSIZE + n <= PGSIZE && k + n <= total
    requires (va + k) % PGSIZE + n == PGSIZE || k + n == total
    ensures va / PGSIZE <= (va + k) / PGSIZE <= (va + total - 1) / PGSIZE
    ensures k + n == total ==> (va + total - 1) / PGSIZE == (va + k) / PGSIZE
    ensures k + n < total ==> (va + k) / PGSIZE * PGSIZE + PGSIZE == va + (k + n) && (va + (k + n)) / PGSIZE == (va + k) / PGSIZE + 1
  {
    var q, r := (va + k) / PGSIZE, (va + k) % PGSIZE;
    assert va + k == q * PGSIZE + r;
    if k + n == total {
      assert va + total - 1 == q * PGSIZE + (r + n - 1);
    }
  }

  lemma NothingWritten(m: Mem, p: map<nat, Bytes>, d: nat, va: nat, src: seq<int>)
    ensures Wrote(m, p, p, d, va, src, 0)
  {
  }

  lemma UserFrame(m: Mem, d: nat, v: nat, frames: set<nat>)
    requires Owns(m) && Complete(m, frames) && d in m.dirs && v < USER && Present(Pte(m, d, v))
    ensures Pte(m, d, v).frame in frames
  {
    PageOwned(m, d, v);
  }

  /** A user page's frame is behind no other page of any directory. */
  lemma SoleMapping(m: Mem, d: nat, v: nat, e: nat, w: nat)
    requires Owns(m) && d in m.dirs && e in m.dirs && v < USER && w < USER && Present(Pte(m, d, v)) && Present(Pte(m, e, w))
    ensures Pte(m, d, v).frame == Pte(m, e, w).frame ==> d == e && v == w
  {
    assert IsPage(m, Pte(m, d, v).frame, d, v) && IsPage(m, Pte(m, e, w).frame, e, w);
  }

  lemma WriteMore(m: Mem, p: map<nat, Bytes>, q: map<nat, Bytes>, d: nat, va: nat, src: seq<int>, k: nat, n: nat)
    requires Owns(m) && d in m.dirs && k + n <= |src| && va + |src| <= KERNBASE && Wrote(m, p, q, d, va, src, k)
    requires (va + k) % PGSIZE + n <= PGSIZE && Present(Pte(m, d, (va + k) / PGSIZE)) && Pte(m, d, (va + k) / PGSIZE).frame in q && n > 0
    ensures var f := Pte(m, d, (va + k) / PGSIZE).frame;
            Wrote(m, p, q[f := Spliced(q[f], (va + k) % PGSIZE, src[k..k + n])], d, va, src, k + n)
  {
    var v := (va + k) / PGSIZE;
    var f := Pte(m, d, v).frame;
    var q' := q[f := Spliced(q[f], (va + k) % PGSIZE, src[k..k + n])];
    forall e, a: nat | e in m.dirs && a < KERNBASE
      ensures ByteAt(m, q', e, a) == if e == d && va + k <= a < va + k + n then src[a - va] else ByteAt(m, q, e, a)
    {
      WriteByte(m, q, d, va + k, src[k..k + n], e, a);
    }
    hide ByteAt, Pte;
  }

  lemma WriteByte(m: Mem, q: map<nat, Bytes>, d: nat, at: nat, s: seq<int>, e: nat, a: nat)
    requires Owns(m) && d in m.dirs && e in m.dirs && at + |s| <= KERNBASE && a < KERNBASE && 0 < |s|
    requires at % PGSIZE + |s| <= PGSIZE && Present(Pte(m, d, at / PGSIZE)) && Pte(m, d, at / PGSIZE).frame in q
    ensures var f := Pte(m, d, at / PGSIZE).frame;
            ByteAt(m, q[f := Spliced(q[f], at % PGSIZE, s)], e, a) == if e == d && at <= a < at + |s| then s[a - at] else ByteAt(m, q, e, a)
  {
    var v, w := at / PGSIZE, a / PGSIZE;
    if Present(Pte(m, e, w)) {
      SoleMapping(m, d, v, e, w);
    }
    InPage(at, |s|, a);
    hide Pte, Owns;
  }

  lemma InPage(at: nat, n: nat, a: nat)
    requires at % PGSIZE + n <= PGSIZE && n > 0
    ensures at <= a < at + n <==> a / PGSIZE == at / PGSIZE && at % PGSIZE <= a % PGSIZE < at % PGSIZE + n
    ensures at <= a < at + n ==> a % PGSIZE - at % PGSIZE == a - at
  {
  }

  // ---------- copying ----------

  /** Child c has, below page v, fresh frames with the parent's flags, and above it only the kernel's mappings. */
  ghost predicate Copied(m: Mem, n: Mem, d: nat, c: nat, v: nat, data: nat) {
    && AddedDir(m, n, c)
    && (forall w: nat :: w < v ==> Pte(n, c, w).flags == Pte(m, d, w).flags && Pte(n, c, w).frame in m.free)
    && (forall w: nat :: v <= w < PAGES ==> Pte(n, c, w) == KernelEntry(data, w))
  }

  ghost predicate MappedBelow(m: Mem, d: nat, hi: nat) {
    forall w: nat :: w < hi ==> Present(Pte(m, d, w))
  }

  /** The child's pages hold what the parent's held. */
  ghost predicate CopiedPages(m: Mem, n: Mem, d: nat, c: nat, v: nat, p: map<nat, Bytes>, q: map<nat, Bytes>) {
    forall w: nat :: w < v ==>
      && Pte(n, c, w).frame in q && Pte(m, d, w).frame in p
      && q[Pte(n, c, w).frame] == p[Pte(m, d, w).frame]
  }

  /** The parent's entry is where walkpgdir finds it. */
  lemma ParentPage(m: Mem, n: Mem, d: nat, c: nat, v: nat, data: nat, frames: set<nat>)
    requires Owns(m) && Owns(n) && Complete(m, frames) && d in m.dirs && v < USER && MappedBelow(m, d, v + 1) && Copied(m, n, d, c, v, data)
    ensures AddedDir(m, n, c) && Present(Pte(m, d, v))
    ensures d in n.dirs && c in n.dirs && c != d && Present(Word(n, d, v / ENTRIES)) && d in n.tables
    ensures n.tables[d][v / ENTRIES].frame in n.tables
    ensures n.tables[n.tables[d][v / ENTRIES].frame][v % ENTRIES] == Pte(m, d, v)
    ensures Pte(m, d, v).frame in m.owner && Pte(m, d, v).frame in frames
  {
    assert SameDir(m, n, d) && IsPage(m, Pte(m, d, v).frame, d, v);
    assert Pte(n, d, v) == Pte(m, d, v);
    HasTable(n, d, v);
    PteIs(n, d, v);
    hide Owns, SameDir, Word, Pte;
  }

  lemma BelowPart(m: Mem, d: nat, v: nat, hi: nat)
    requires MappedBelow(m, d, hi) && v <= hi
    ensures MappedBelow(m, d, v)
  {
    hide Pte, Present;
  }

  lemma NotCopied(m: Mem, n: Mem, d: nat, c: nat, data: nat, p: map<nat, Bytes>, q: map<nat, Bytes>)
    requires AddedDir(m, n, c) && forall v: nat :: v < PAGES ==> Pte(n, c, v) == KernelEntry(data, v)
    ensures Copied(m, n, d, c, 0, data) && CopiedPages(m, n, d, c, 0, p, q)
  {
    hide Pte, KernelEntry, AddedDir;
  }

  lemma DirAdded(m: Mem, n: Mem, c: nat)
    requires AddedDir(m, n, c)
    ensures c in n.dirs
  {
  }

  lemma HasTable(m: Mem, d: nat, v: nat)
    requires Present(Pte(m, d, v))
    ensures Present(Word(m, d, v / ENTRIES))
  {
  }

  lemma ReadyToCopy(m: Mem, n: Mem, d: nat, c: nat, i: nat, data: nat, frames: set<nat>)
    requires Owns(m) && Owns(n) && Complete(m, frames) && Complete(n, frames) && InRange(frames) && DataOk(data)
    requires n.free != [] && i / PGSIZE < USER && i % PGSIZE == 0 && Copied(m, n, d, c, i / PGSIZE, data) && m.owner.Keys <= n.owner.Keys
    requires MappedBelow(m, d, i / PGSIZE)
    ensures Take(n).owner.Keys == n.owner.Keys + {n.free[0]} && forall w: nat :: w < i / PGSIZE ==> Pte(n, c, w).frame != n.free[0]
    ensures i + PGSIZE <= WORD && n.free[0] * PGSIZE % PGSIZE == 0 && n.free[0] in m.free && n.free[0] !in n.owner && n.free[0] !in m.owner
    ensures RegionOf(i, PGSIZE, n.free[0] * PGSIZE) == Region(i / PGSIZE, 1, n.free[0]) && n.free[0] in frames
    ensures CanMap(Take(n), c, Region(i / PGSIZE, 1, n.free[0])) && c in Take(n).dirs
  {
    assert n.free[0] in n.free && n.free[0] in frames;
    TakeOwns(n);
    assert SameDir(n, Take(n), c);
    FreeOf(n);
    assert KernelEntry(data, i / PGSIZE) == ZERO;
    forall w: nat | w < i / PGSIZE
      ensures Pte(n, c, w).frame != n.free[0]
    {
      PageOwned(n, c, w);
    }
    hide Owns, Word, Pte, SameDirs, KernelEntry;
  }

  lemma PageOwned(m: Mem, d: nat, v: nat)
    requires Owns(m) && d in m.dirs && v < USER && Present(Pte(m, d, v))
    ensures Pte(m, d, v).frame in m.owner
  {
    assert IsPage(m, Pte(m, d, v).frame, d, v);
  }

  /** The page in hand goes back: as if it had never been taken. */
  lemma TakeGive(m: Mem, n: Mem, o: Mem, c: nat)
    requires Owns(n) && n.free != [] && AddedDir(m, n, c) && SameDirs(Take(n), o) && o == Give(Take(n), n.free[0])
    ensures AddedDir(m, o, c) && o.owner.Keys == n.owner.Keys
  {
    TakeOwns(n);
    assert n.free[0] in n.free;
    SameDirsTrans(n, Take(n), o);
    forall d' | d' in m.dirs
      ensures SameDir(m, o, d')
    {
      assert SameDir(m, n, d') && SameDir(n, o, d');
      hide Word, Pte, Owns;
    }
    hide Owns, Word, Pte, SameDirs, SameDir;
  }

  lemma CopyStep(m: Mem, n: Mem, o: Mem, d: nat, c: nat, v: nat, data: nat)
    requires Owns(n) && n.free != [] && v < USER && Copied(m, n, d, c, v, data) && n.free[0] in m.free && Present(Pte(m, d, v))
    requires Extends(Take(n), o, c) && MappedRun(Take(n), o, c, Region(v, 1, n.free[0]), 1, OrPresent(Pte(m, d, v).flags))
    ensures Copied(m, o, d, c, v + 1, data) && AddedDir(m, o, c) && Pte(o, c, v).frame == n.free[0]
    ensures forall w: nat :: w < v ==> Pte(o, c, w) == Pte(n, c, w)
  {
    TakeOwns(n);
    SameExtends(n, Take(n), c);
    assert SameDir(n, Take(n), c);
    ExtendsTrans(n, Take(n), o, c);
    OthersSame(n, o, c, v, OrPresent(Pte(m, d, v).flags));
    forall d' | d' in m.dirs
      ensures SameDir(m, o, d')
    {
      assert SameDir(m, n, d') && SameDir(n, o, d');
      hide Word, Pte, Owns;
    }
    hide Owns, Word, Pte, SameDirs, SameDir, Extends, IsOther, KernelEntry;
  }

  lemma OthersSame(n: Mem, o: Mem, c: nat, v: nat, flags: Flags)
    requires Owns(n) && n.free != [] && v < USER && MappedRun(Take(n), o, c, Region(v, 1, n.free[0]), 1, flags)
    ensures SameOthers(n, o)
  {
    assert n.free[0] in n.free;
    hide Pte, Word;
  }

  lemma CopiedMore(m: Mem, n: Mem, o: Mem, d: nat, c: nat, v: nat, p: map<nat, Bytes>, q: map<nat, Bytes>, q': map<nat, Bytes>)
    requires CopiedPages(m, n, d, c, v, p, q) && (forall w: nat :: w < v ==> Pte(o, c, w) == Pte(n, c, w))
    requires Pte(m, d, v).frame in p && Pte(m, d, v).frame in q && q[Pte(m, d, v).frame] == p[Pte(m, d, v).frame]
    requires Pte(o, c, v).frame in q && q' == q[Pte(o, c, v).frame := q[Pte(m, d, v).frame]]
    requires forall w: nat :: w < v ==> Pte(n, c, w).frame != Pte(o, c, v).frame
    ensures CopiedPages(m, o, d, c, v + 1, p, q')
  {
    hide Pte;
  }

  function MapEntry(m: Mem, d: nat, v: nat, e: Entry): Mem
    requires Word(m, d, v / ENTRIES).frame in m.tables
  {
    Rewrite(m, d, v, e, if v < USER then m.owner[e.frame := Page(d, v)] else m.owner)
  }

  lemma MapEntryOwns(m: Mem, d: nat, v: nat, e: Entry)
    requires Owns(m) && d in m.dirs && v < PAGES && Present(Word(m, d, v / ENTRIES)) && Present(e)
    requires !Present(Pte(m, d, v)) && (v < USER ==> IsOther(m, e.frame))
    ensures Word(m, d, v / ENTRIES).frame in m.tables && d in m.tables && m.tables[d][v / ENTRIES] == Word(m, d, v / ENTRIES)
    ensures var n := MapEntry(m, d, v, e); Owns(n) && Extends(m, n, d) && MappedAt(m, n, d, v, e)
  {
    if v < USER {
      MapOwns(m, d, v, e);
    } else {
      MapKernelOwns(m, d, v, e);
    }
    var own := if v < USER then m.owner[e.frame := Page(d, v)] else m.owner;
    RewriteFlat(m, d, v, e, own);
    assert MapEntry(m, d, v, e).owner == own;
    RootIn(m, d);
    hide Owns, Pte, Rewrite;
  }

  lemma WalkThenMap(m: Mem, n: Mem, d: nat, v: nat, e: Entry)
    requires Owns(n) && d in n.dirs && v < PAGES && Present(Word(n, d, v / ENTRIES)) && Present(e)
    requires d in m.dirs && Extends(m, n, d) && SameFlat(m, n, d) && SameOthers(m, n)
    requires !Present(Pte(m, d, v)) && (v < USER ==> IsOther(m, e.frame))
    ensures Word(n, d, v / ENTRIES).frame in n.tables && d in n.tables && n.tables[d][v / ENTRIES] == Word(n, d, v / ENTRIES)
    ensures var o := MapEntry(n, d, v, e);
            && Owns(o) && Extends(m, o, d) && MappedAt(m, o, d, v, e)
            && o.owner.Keys == n.owner.Keys && o.free == n.free && o.dirs == n.dirs
  {
    MapEntryOwns(n, d, v, e);
    var o := MapEntry(n, d, v, e);
    assert o.owner.Keys == n.owner.Keys && o.free == n.free && o.dirs == n.dirs;
    ExtendsTrans(m, n, o, d);
    hide Owns, Extends, Pte, Word, MapEntry;
  }

  lemma RootIn(m: Mem, d: nat)
    requires Owns(m) && d in m.dirs
    ensures d in m.tables
  {
  }

  lemma SameSelf(m: Mem, d: nat)
    ensures Extends(m, m, d) && SameFlat(m, m, d) && SameOthers(m, m)
  {
  }

  /** Taking a frame for a missing table. */
  lemma WalkAdds(m: Mem, d: nat, i: nat)
    requires Owns(m) && d in m.dirs && i < ENTRIES && m.free != [] && !Present(Word(m, d, i))
    ensures d in m.tables && d != m.free[0]
    ensures var n := AddTable(Take(m), d, i, m.free[0]);
            && Owns(n) && Extends(m, n, d) && SameFlat(m, n, d) && SameOthers(m, n) && Present(Word(n, d, i))
            && Word(n, d, i).flags == PTE_P + PTE_W + PTE_U
            && (forall f :: f in n.free || f in n.owner <==> f in m.free || f in m.owner)
  {
    var k, f := Take(m), m.free[0];
    TakeOwns(m);
    assert Word(k, d, i) == Word(m, d, i);
    AddTableFlat(k, d, i, f);
    AddTableOwns(k, d, i, f);
    var n := AddTable(k, d, i, f);
    SameExtends(m, k, d);
    AddExtends(k, d, i, f);
    ExtendsTrans(m, k, n, d);
    assert forall g :: g in m.free <==> g == f || g in k.free;
    hide Owns, Extends, SameDirs, Word, Pte;
  }

  lemma AddExtends(m: Mem, d: nat, i: nat, f: nat)
    requires CanAdd(m, d, i, f)
    ensures d in m.tables && Extends(m, AddTable(m, d, i, f), d)
  {
    AddTableFlat(m, d, i, f);
    forall d' | d' in m.dirs && d' != d
      ensures SameDir(m, AddTable(m, d, i, f), d')
    {
      AddTableElsewhere(m, d, i, f, d');
    }
    hide Owns, SameDir, Word, Pte;
  }
}
