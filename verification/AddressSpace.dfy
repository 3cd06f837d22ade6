/** Page tables and the page allocator as vm.c runs them: entries written in place, and every failure path cleaned up. */
module AddressSpace {
  import opened Common
  import opened PageTables
  import opened Layout
  import opened PageSteps
  import opened FrameCount

  class Memory {
    var free: seq<nat>
    var tables: map<nat, Table>
    var pages: map<nat, Bytes>
    ghost var dirs: set<nat>
    ghost var owner: map<nat, Slot>
    ghost const frames: set<nat>
    /** Where the kernel's writable data starts, a page boundary set by the linker. */
    const data: nat

    ghost function Abs(): Mem
      reads `free, `tables, `dirs, `owner
    {
      Mem(free, tables, dirs, owner)
    }

    ghost predicate Valid()
      reads `free, `tables, `dirs, `owner, `pages
    {
      Owns(Abs()) && Complete(Abs(), frames) && pages.Keys == frames && InRange(frames) && DataOk(data)
    }

    /** All frames free, as the allocator's initialization leaves them. */
    constructor (free: seq<nat>, data: nat)
      requires DataOk(data) && (forall i, j :: 0 <= i < j < |free| ==> free[i] != free[j])
      requires forall f :: f in free ==> 0 < f < PHYSTOP / PGSIZE
      ensures Valid() && this.free == free && dirs == {} && owner == map[] && this.data == data
    {
      this.free, this.data, tables, dirs, owner := free, data, map[], {}, map[];
      frames := set f | f in free;
      pages := map f | f in free :: Filled(1);
    }

    /** kalloc. */
    method KAlloc() returns (r: Option<nat>)
      requires Valid()
      modifies `free, `owner
      ensures Valid()
      ensures r == None ==> old(free) == [] && Abs() == old(Abs())
      ensures r.Some? ==> old(free) != [] && r.value == old(free)[0] && Abs() == Take(old(Abs()))
      ensures r.Some? ==> IsOther(Abs(), r.value) && SameDirs(old(Abs()), Abs())
    {
      hide Owns, SameDirs;
      if free == [] {
        return None;
      }
      TakeOwns(Abs());
      r := Some(free[0]);
      owner := owner[free[0] := Other];
      free := free[1..];
    }

    /** kfree: the page is filled with junk and put at the head of the list. */
    method KFree(f: nat)
      requires Valid() && IsOther(Abs(), f)
      modifies `free, `owner, `tables, `pages
      ensures Valid() && Abs() == Give(old(Abs()), f) && SameDirs(old(Abs()), Abs())
      ensures pages == old(pages)[f := Filled(1)]
    {
      hide Owns, SameDirs, Filled;
      GiveOwns(Abs(), f);
      pages := pages[f := Filled(1)];
      tables := tables - {f};
      owner := owner - {f};
      free := [f] + free;
    }

    /** walkpgdir: makes sure, if asked, that there is a page table for page v. */
    method Walk(d: nat, v: nat, alloc: bool) returns (ok: bool)
      requires Valid() && d in dirs && v < PAGES
      modifies `free, `owner, `tables
      ensures Valid() && Extends(old(Abs()), Abs(), d) && SameFlat(old(Abs()), Abs(), d) && SameOthers(old(Abs()), Abs())
      ensures ok ==> Present(Word(Abs(), d, v / ENTRIES))
      ensures ok && !Present(Word(old(Abs()), d, v / ENTRIES)) ==> Word(Abs(), d, v / ENTRIES).flags == PTE_P + PTE_W + PTE_U
      ensures !ok ==> Abs() == old(Abs()) && !Present(Word(Abs(), d, v / ENTRIES)) && (alloc ==> free == [])
      ensures !alloc ==> Abs() == old(Abs())
      ensures old(owner).Keys <= owner.Keys
      ensures if ok then Spent(old(Abs()), Abs(), d, {v / ENTRIES}, 0) else v / ENTRIES !in Tables(Abs(), d)
    {
      ghost var m := Abs();
      RootIn(m, d);
      hide Owns, SameDirs, Pte, Extends, SameFlat, Spent;
      SameSelf(m, d);
      if Present(tables[d][v / ENTRIES]) {
        WalkFinds(m, d, v / ENTRIES);
        return true;
      }
      assert v / ENTRIES !in Tables(m, d);
      if !alloc {
        return false;
      }
      hide Tables, Present, Word;
      ok := NewTable(d, v / ENTRIES);
    }

    /** walkpgdir's allocation of a missing page table. */
    method NewTable(d: nat, i: nat) returns (ok: bool)
      requires Valid() && d in dirs && i < ENTRIES && !Present(Word(Abs(), d, i))
      modifies `free, `owner, `tables
      ensures Valid() && Extends(old(Abs()), Abs(), d) && SameFlat(old(Abs()), Abs(), d) && SameOthers(old(Abs()), Abs())
      ensures ok ==> Present(Word(Abs(), d, i)) && Word(Abs(), d, i).flags == PTE_P + PTE_W + PTE_U && Spent(old(Abs()), Abs(), d, {i}, 0)
      ensures !ok ==> Abs() == old(Abs()) && free == []
      ensures old(owner).Keys <= owner.Keys
    {
      hide Owns, SameDirs, Pte, Extends, SameFlat, Spent, Word, Present;
      ghost var m := Abs();
      SameSelf(m, d);
      var r := KAlloc();
      if r == None {
        return false;
      }
      WalkAdds(m, d, i);
      WalkSpends(m, d, i);
      tables := tables[r.value := ZeroTable()];
      UnpackPacked(Entry(r.value, PTE_P + PTE_W + PTE_U));
      tables := tables[d := tables[d][i := Unpacked(r.value * PGSIZE + PTE_P + PTE_W + PTE_U)]];
      owner := owner[r.value := Tab(d, i)];
      assert Abs() == AddTable(Take(m), d, i, r.value);
      ok := true;
    }

    /** One turn of mappages: page v of directory d gets frame f; a user page's frame is d's from then on. */
    method MapOne(d: nat, v: nat, f: nat, perm: Flags) returns (ok: bool)
      requires Valid() && d in dirs && v < PAGES && !Present(Pte(Abs(), d, v)) && (v < USER ==> IsOther(Abs(), f))
      modifies `free, `owner, `tables
      ensures Valid() && Extends(old(Abs()), Abs(), d)
      ensures ok ==> MappedAt(old(Abs()), Abs(), d, v, Entry(f, OrPresent(perm)))
      ensures !ok ==> Abs() == old(Abs()) && free == []
      ensures old(owner).Keys <= owner.Keys
      ensures if ok then Spent(old(Abs()), Abs(), d, {v / ENTRIES}, 0) else v / ENTRIES !in Tables(Abs(), d)
    {
      hide Owns, Pte, Extends, SameFlat, MappedAt, Word, Spent, Tables;
      ghost var m := Abs();
      ok := Walk(d, v, true);
      if !ok {
        return;
      }
      ghost var n := Abs();
      WalkThenMap(m, n, d, v, Entry(f, OrPresent(perm)));
      StillAbsent(m, n, d, v);
      MapSpends(n, d, v, Entry(f, OrPresent(perm)));
      var t := tables[d][v / ENTRIES].frame;
      UnpackPacked(Entry(f, OrPresent(perm)));
      tables := tables[t := tables[t][v % ENTRIES := Unpacked(f * PGSIZE + OrPresent(perm))]];
      if v < USER {
        owner := owner[f := Page(d, v)];
      }
      assert Abs() == MapEntry(n, d, v, Entry(f, OrPresent(perm)));
      SpentSame(m, n, Abs(), d, {v / ENTRIES}, 0);
    }

    /** The loop's work on the k-th page of a region. */
    method MapNext(d: nat, v: nat, f: nat, perm: Flags, ghost m: Mem, ghost r: Region, ghost k: nat) returns (ok: bool)
      requires Valid() && d in dirs && Extends(m, Abs(), d) && CanMap(m, d, r) && MappedRun(m, Abs(), d, r, k, OrPresent(perm))
      requires k < r.count && v == r.first + k && f == r.frame + k
      modifies `free, `owner, `tables
      ensures Valid() && d in dirs && old(owner).Keys <= owner.Keys
      ensures ok ==> Extends(m, Abs(), d) && MappedRun(m, Abs(), d, r, k + 1, OrPresent(perm))
      ensures !ok ==> Abs() == old(Abs()) && free == []
      ensures if ok then Spent(old(Abs()), Abs(), d, {v / ENTRIES}, 0) else v / ENTRIES !in Tables(Abs(), d)
    {
      hide Owns, Pte, Extends, MappedRun, MappedAt, Complete, CanMap, Present, IsOther, Spent, Tables;
      ghost var n := Abs();
      RunNext(m, n, d, r, k, OrPresent(perm));
      ok := MapOne(d, v, f, perm);
      if ok {
        ExtendsTrans(m, n, Abs(), d);
        RunStep(m, n, Abs(), d, r, k, OrPresent(perm));
      }
      KeptDirs(n, Abs(), d);
    }

    /** mappages: returns false if a page table cannot be had, with the first k pages mapped. */
    method MapPages(d: nat, va: nat, size: nat, pa: nat, perm: Flags) returns (ok: bool, ghost k: nat)
      requires Valid() && d in dirs && size > 0 && va + size <= WORD && pa % PGSIZE == 0 && CanMap(Abs(), d, RegionOf(va, size, pa))
      modifies `free, `owner, `tables
      ensures Valid() && Extends(old(Abs()), Abs(), d) && old(owner).Keys <= owner.Keys
      ensures MappedRun(old(Abs()), Abs(), d, RegionOf(va, size, pa), k, OrPresent(perm))
      ensures if ok then k == RegionOf(va, size, pa).count else k < RegionOf(va, size, pa).count && free == []
      ensures !ok && k == 0 ==> Abs() == old(Abs())
      ensures var first := va / PGSIZE;
              && Spent(old(Abs()), Abs(), d, TablesOver(first, first + k), 0)
              && (!ok ==> (first + k) / ENTRIES !in Tables(Abs(), d))
    {
      hide Owns, Pte, Extends, MappedRun, MappedAt, Complete, CanMap, Valid, Abs, RegionOf, Spent, Tables, TablesOver;
      ghost var m, r := Abs(), RegionOf(va, size, pa);
      var a := va / PGSIZE * PGSIZE;
      var last := (va + size - 1) % WORD / PGSIZE * PGSIZE;
      var p := pa;
      RegionBounds(m, d, va, size, pa);
      SameSelf(m, d);
      NoRun(m, d, r, OrPresent(perm));
      SpentNone(m, d, r.first);
      k := 0;
      ok := true;
      while true
        invariant Valid() && d in dirs && Extends(m, Abs(), d) && MappedRun(m, Abs(), d, r, k, OrPresent(perm))
        invariant old(owner).Keys <= owner.Keys
        invariant k < r.count && a == (r.first + k) * PGSIZE && p == (r.frame + k) * PGSIZE
        invariant k == 0 ==> Abs() == m
        invariant Spent(m, Abs(), d, TablesOver(r.first, r.first + k), 0)
        decreases r.count - k
      {
        ghost var n := Abs();
        ok := MapNext(d, a / PGSIZE, p / PGSIZE, perm, m, r, k);
        if !ok {
          return;
        }
        OverNext(r.first, r.first + k);
        SpentTrans(m, n, Abs(), d, TablesOver(r.first, r.first + k), 0, {(r.first + k) / ENTRIES}, 0);
        k := k + 1;
        if a == last {
          break;
        }
        a := (a + PGSIZE) % WORD;
        p := (p + PGSIZE) % WORD;
      }
    }

    /** Freeing the page behind a user mapping. */
    method UnmapOne(d: nat, v: nat)
      requires Valid() && d in dirs && v < USER && Present(Pte(Abs(), d, v))
      modifies `free, `owner, `tables, `pages
      ensures Valid() && Cleared(old(Abs()), Abs(), d, v, v + 1) && owner.Keys <= old(owner).Keys
      ensures KeptPages(owner, old(pages), pages)
    {
      hide Owns, Pte, Word, Cleared;
      ghost var m := Abs();
      UnmapFrees(m, d, v);
      var t := tables[d][v / ENTRIES].frame;
      var f := tables[t][v % ENTRIES].frame;
      tables := tables[t := tables[t][v % ENTRIES := ZERO]];
      owner := owner[f := Other];
      assert Abs() == Dropped(m, d, v);
      KFree(f);
    }

    /** deallocuvm: pages from newsz up to oldsz are freed; where a whole page table is missing its 4 MB are skipped. */
    method DeallocUvm(d: nat, oldsz: nat, newsz: nat) returns (r: nat)
      requires Valid() && d in dirs && oldsz <= KERNBASE
      modifies `free, `owner, `tables, `pages
      ensures Valid() && Cleared(old(Abs()), Abs(), d, PagesIn(newsz), PagesIn(oldsz)) && owner.Keys <= old(owner).Keys
      ensures KeptPages(owner, old(pages), pages) && r == if newsz >= oldsz then oldsz else newsz
    {
      hide Owns, Pte, Word, Cleared, Complete, Valid, Abs;
      ghost var m := Abs();
      if newsz >= oldsz {
        NoneCleared(m, d, PagesIn(newsz), PagesIn(oldsz));
        return oldsz;
      }
      var a := PagesIn(newsz) * PGSIZE;
      ghost var lo, hi := PagesIn(newsz), PagesIn(oldsz);
      NoneCleared(m, d, lo, lo);
      while a < oldsz
        invariant Valid() && d in dirs && owner.Keys <= old(owner).Keys && KeptPages(owner, old(pages), pages)
        invariant a % PGSIZE == 0 && lo <= a / PGSIZE && Cleared(m, Abs(), d, lo, Min(a / PGSIZE, hi))
        decreases oldsz - a
      {
        a := DeallocAt(d, a, m, lo, hi);
      }
      r := newsz;
    }

    /** One turn of the loop: the address of the next page to look at. */
    method DeallocAt(d: nat, a: nat, ghost m: Mem, ghost lo: nat, ghost hi: nat) returns (next: nat)
      requires Valid() && d in dirs && a % PGSIZE == 0 && lo <= a / PGSIZE < hi <= USER && Cleared(m, Abs(), d, lo, a / PGSIZE)
      modifies `free, `owner, `tables, `pages
      ensures Valid() && d in dirs && owner.Keys <= old(owner).Keys && KeptPages(owner, old(pages), pages)
      ensures next > a && next % PGSIZE == 0 && Cleared(m, Abs(), d, lo, Min(next / PGSIZE, hi))
    {
      hide Owns, Pte, Word, Cleared, Complete, Rewrite, Extends, SameFlat, SameOthers, LastOfTable;
      var ok := Walk(d, a / PGSIZE, false);
      next := a;
      if !ok {
        next := LastOfTable(a);
        SkipTable(m, Abs(), d, lo, a / PGSIZE, hi);
        NextTable(a);
      } else {
        UnmapAt(d, a / PGSIZE, m, lo);
        NextPage(a);
      }
      next := next + PGSIZE;
    }

    /** A page whose table exists: freed if it is mapped. */
    method UnmapAt(d: nat, v: nat, ghost m: Mem, ghost lo: nat)
      requires Valid() && d in dirs && lo <= v < USER && Cleared(m, Abs(), d, lo, v) && Present(Word(Abs(), d, v / ENTRIES))
      modifies `free, `owner, `tables, `pages
      ensures Valid() && d in dirs && Cleared(m, Abs(), d, lo, v + 1)
      ensures owner.Keys <= old(owner).Keys && KeptPages(owner, old(pages), pages)
    {
      hide Owns, Pte, Word, Cleared, Complete, Rewrite;
      ghost var n := Abs();
      PteIs(n, d, v);
      KeptClear(m, n, d, lo);
      if Present(tables[tables[d][v / ENTRIES].frame][v % ENTRIES]) {
        UnmapOne(d, v);
        ClearMore(m, n, Abs(), d, lo, v);
      } else {
        ClearNothing(m, n, d, lo, v);
      }
      KeptClear(m, Abs(), d, lo);
    }

    /** freevm's loop over the page directory. */
    method FreeTables(d: nat, ghost m: Mem)
      requires Owns(m) && d in m.dirs && Valid() && TornDown(m, Abs(), d, 0)
      modifies `free, `owner, `tables, `pages
      ensures Valid() && TornDown(m, Abs(), d, ENTRIES) && owner.Keys <= old(owner).Keys && KeptPages(owner, old(pages), pages)
    {
      hide Owns, Complete, TornDown, Filled;
      var i := 0;
      while i < ENTRIES
        invariant i <= ENTRIES && Valid() && TornDown(m, Abs(), d, i)
        invariant owner.Keys <= old(owner).Keys && KeptPages(owner, old(pages), pages)
      {
        TearStep(m, Abs(), d, i);
        if Present(tables[d][i]) {
          KFree(tables[d][i].frame);
        }
        i := i + 1;
      }
    }

    /** freevm: the user pages, then the page tables, then the directory go back, each once. */
    method FreeVm(d: nat)
      requires Valid() && d in dirs
      modifies this
      ensures Valid() && FreedDir(old(Abs()), Abs(), d) && owner.Keys <= old(owner).Keys && KeptPages(owner, old(pages), pages)
    {
      hide Owns, Pte, Word, Cleared, FreedDir, TornDown, Retire, Filled, SameDirs, SameDir;
      ghost var m := Abs();
      var r := DeallocUvm(d, KERNBASE, 0);
      ghost var n := Abs();
      KeptClear(m, n, d, PagesIn(0));
      BeginTear(n, d);
      owner := Retire(n, d).owner;
      dirs := dirs - {d};
      FreeTables(d, n);
      EndTear(m, n, Abs(), d);
      KFree(d);
      TornFree(m, Abs(), d, frames);
    }

    /** One turn of allocuvm: a zeroed page mapped at address a. The page is in hand if only the mapping failed. */
    method GrowOne(d: nat, a: nat, ghost m: Mem, ghost lo: nat) returns (mem: Option<nat>, ok: bool)
      requires Valid() && d in dirs && a % PGSIZE == 0 && lo <= a / PGSIZE < USER && !Present(Pte(m, d, a / PGSIZE))
      requires Complete(m, frames) && m.owner.Keys <= owner.Keys
      requires Grown(m, Abs(), d, lo, a / PGSIZE) && SameOthers(m, Abs()) && NewPages(Abs(), d, lo, a / PGSIZE, pages)
      modifies `free, `owner, `tables, `pages
      ensures Valid() && d in dirs && old(owner).Keys <= owner.Keys && KeptPages(old(owner), old(pages), pages)
      ensures ok ==> Grown(m, Abs(), d, lo, a / PGSIZE + 1) && SameOthers(m, Abs()) && NewPages(Abs(), d, lo, a / PGSIZE + 1, pages)
      ensures !ok && mem == None ==> Abs() == old(Abs()) && pages == old(pages)
      ensures !ok && mem.Some? ==> old(free) != [] && mem.value == old(free)[0] && Abs() == Take(old(Abs()))
      ensures var t := a / PGSIZE / ENTRIES;
              if ok then Spent(old(Abs()), Abs(), d, {t}, 1) else |old(free)| < 1 + |{t} - Tables(old(Abs()), d)|
    {
      hide Spent, Tables, TablesOver, Owns, Pte, Word, Grown, NewPages, SameOthers, Extends, CanMap, MappedRun, SameDirs, SameDir, Filled, Complete, RegionOf, InRange;
      ghost var n := Abs();
      mem := KAlloc();
      if mem == None {
        return mem, false;
      }
      ReadyToGrow(m, n, d, lo, a, frames);
      pages := pages[mem.value := Filled(0)];
      ghost var cnt;
      ok, cnt := MapPages(d, a, PGSIZE, mem.value * PGSIZE, PTE_W + PTE_U);
      if !ok {
        PageShort(n, d, a / PGSIZE);
      } else {
        PageSpends(n, Abs(), d, a / PGSIZE);
        GrowStep(m, n, Abs(), d, lo, a / PGSIZE);
        StillNew(n, Abs(), d, lo, a / PGSIZE, old(pages), pages);
      }
    }

    /** allocuvm's way out: what it mapped is unmapped, and the page in hand given back. */
    method GiveUp(d: nat, oldsz: nat, newsz: nat, mem: Option<nat>, ghost m: Mem, ghost n: Mem, ghost v: nat)
      requires Valid() && d in dirs && oldsz <= newsz < KERNBASE && PagesIn(oldsz) <= v <= PagesIn(newsz)
      requires Owns(m) && Complete(m, frames) && d in m.dirs && Unmapped(m, d, PagesIn(oldsz), PagesIn(newsz))
      requires Owns(n) && Grown(m, n, d, PagesIn(oldsz), v) && SameOthers(m, n)
      requires if mem == None then Abs() == n else n.free != [] && mem.value == n.free[0] && Abs() == Take(n)
      modifies `free, `owner, `tables, `pages
      ensures Valid() && Restored(m, Abs(), d) && m.owner.Keys <= owner.Keys && KeptPages(m.owner, old(pages), pages)
      ensures BackOrTable(m, Abs(), d)
    {
      hide Owns, Pte, Word, Grown, SameOthers, Extends, SameDirs, SameDir, Filled, Complete, Cleared, Unmapped, Restored, IsOther, BackOrTable, Take;
      ghost var held := mem.Some?;
      HeldPage(n, held);
      var r := DeallocUvm(d, newsz, oldsz);
      ghost var o := Abs();
      StillHeld(n, o, d, PagesIn(oldsz), PagesIn(newsz), held);
      SameDirsSelf(o);
      if mem.Some? {
        KFree(mem.value);
      }
      GrownBack(m, n, o, Abs(), d, PagesIn(oldsz), v, PagesIn(newsz), held);
      RestoredOwners(m, Abs(), d);
      RestoredFree(m, Abs(), d, frames);
    }

    /** allocuvm: new zeroed pages up to newsz, or nothing changed but for empty page tables. */
    method AllocUvm(d: nat, oldsz: nat, newsz: nat) returns (r: nat, ghost ok: bool)
      requires Valid() && d in dirs && (oldsz <= newsz < KERNBASE ==> Unmapped(Abs(), d, PagesIn(oldsz), PagesIn(newsz)))
      modifies `free, `owner, `tables, `pages
      ensures Valid() && old(owner).Keys <= owner.Keys && KeptPages(old(owner), old(pages), pages)
      ensures newsz >= KERNBASE ==> r == 0 && !ok && Abs() == old(Abs())
      ensures newsz < oldsz && newsz < KERNBASE ==> r == oldsz && ok && Abs() == old(Abs())
      ensures oldsz <= newsz < KERNBASE && ok ==>
                && r == newsz && Grown(old(Abs()), Abs(), d, PagesIn(oldsz), PagesIn(newsz)) && SameOthers(old(Abs()), Abs())
                && NewPages(Abs(), d, PagesIn(oldsz), PagesIn(newsz), pages)
      ensures oldsz <= newsz < KERNBASE && !ok ==> r == 0 && Restored(old(Abs()), Abs(), d) && BackOrTable(old(Abs()), Abs(), d)
      ensures oldsz <= newsz < KERNBASE ==>
                var lo, hi := PagesIn(oldsz), PagesIn(newsz);
                && lo <= hi && (ok <==> |old(free)| >= FramesFor(old(Abs()), d, lo, hi))
                && (ok ==> |free| == |old(free)| - FramesFor(old(Abs()), d, lo, hi))
    {
      if newsz >= KERNBASE {
        return 0, false;
      }
      if newsz < oldsz {
        return oldsz, true;
      }
      var grown := Grow(d, oldsz, newsz);
      r := if grown then newsz else 0;
      ok := grown;
    }

    /** allocuvm's loop and its two ways out. */
    method Grow(d: nat, oldsz: nat, newsz: nat) returns (ok: bool)
      requires Valid() && d in dirs && oldsz <= newsz < KERNBASE && Unmapped(Abs(), d, PagesIn(oldsz), PagesIn(newsz))
      modifies `free, `owner, `tables, `pages
      ensures Valid() && old(owner).Keys <= owner.Keys && KeptPages(old(owner), old(pages), pages)
      ensures ok ==>
                && Grown(old(Abs()), Abs(), d, PagesIn(oldsz), PagesIn(newsz)) && SameOthers(old(Abs()), Abs())
                && NewPages(Abs(), d, PagesIn(oldsz), PagesIn(newsz), pages)
      ensures !ok ==> Restored(old(Abs()), Abs(), d) && BackOrTable(old(Abs()), Abs(), d)
      ensures PagesIn(oldsz) <= PagesIn(newsz)
      ensures var need := FramesFor(old(Abs()), d, PagesIn(oldsz), PagesIn(newsz));
              (ok <==> |old(free)| >= need) && (ok ==> |free| == |old(free)| - need)
    {
      hide Owns, Pte, Word, Grown, SameOthers, NewPages, Restored, BackOrTable, Take, Complete, Spent, Tables, TablesOver, FramesFor;
      ghost var m, lo, hi := Abs(), PagesIn(oldsz), PagesIn(newsz);
      NotGrown(m, d, lo, pages);
      SpentNone(m, d, lo);
      var a := PagesIn(oldsz) * PGSIZE;
      while a < newsz
        invariant a % PGSIZE == 0 && lo <= a / PGSIZE <= hi && Valid() && d in dirs
        invariant Grown(m, Abs(), d, lo, a / PGSIZE) && SameOthers(m, Abs()) && NewPages(Abs(), d, lo, a / PGSIZE, pages)
        invariant m.owner.Keys <= owner.Keys && KeptPages(m.owner, old(pages), pages)
        invariant Spent(m, Abs(), d, TablesOver(lo, a / PGSIZE), a / PGSIZE - lo)
      {
        ghost var n, p := Abs(), pages;
        assert a / PGSIZE < hi;
        var mem;
        mem, ok := GrowOne(d, a, m, lo);
        if !ok {
          TooFew(m, n, d, lo, a / PGSIZE, hi);
          GiveUp(d, oldsz, newsz, mem, m, n, a / PGSIZE);
          return false;
        }
        PagesMore(m, n, Abs(), d, lo, a / PGSIZE);
        a := a + PGSIZE;
      }
      Enough(m, Abs(), d, lo, hi);
      ok := true;
    }

    /** A zeroed page becomes a page directory. */
    method NewPgDir() returns (r: Option<nat>)
      requires Valid()
      modifies `free, `owner, `tables, `dirs
      ensures Valid() && old(owner).Keys <= owner.Keys
      ensures r == None ==> Abs() == old(Abs()) && free == []
      ensures r.Some? ==> |free| + 1 == |old(free)| && Tables(Abs(), r.value) == {}
      ensures r.Some? ==> r.value in dirs && AddedDir(old(Abs()), Abs(), r.value) && forall v: nat :: v < PAGES ==> Pte(Abs(), r.value, v) == ZERO
    {
      hide Owns, Pte, SameDirs, AddedDir, Tables;
      ghost var m := Abs();
      r := KAlloc();
      if r == None {
        return;
      }
      AddDir(m);
      NewDirTables(Take(m), r.value);
      tables := tables[r.value := ZeroTable()];
      dirs := dirs + {r.value};
      owner := owner[r.value := Root(r.value)];
      assert Abs() == NewDir(Take(m), r.value);
    }

    /** setupkvm: a new directory with the kernel's mappings, or every page given back. */
    method SetupKvm() returns (r: Option<nat>)
      requires Valid()
      modifies this
      ensures Valid() && old(owner).Keys <= owner.Keys && KeptPages(old(owner), old(pages), pages)
      ensures r == None ==> AllBack(old(Abs()), Abs())
      ensures r.Some? ==> AddedDir(old(Abs()), Abs(), r.value) && forall v: nat :: v < PAGES ==> Pte(Abs(), r.value, v) == KernelEntry(data, v)
      ensures r.Some? <==> |old(free)| >= KERNEL_FRAMES
      ensures r.Some? ==> |free| + KERNEL_FRAMES == |old(free)| && Tables(Abs(), r.value) == KernelTables()
    {
      hide Spent, Tables, TablesOver, KernelTables, Owns, Pte, Word, Extends, AddedDir, AllBack, SameOthers, Complete, Built, KernelEntry, RegionOf, MappedRun, CanMap, KernelMap;
      ghost var m := Abs();
      NothingTaken(m);
      r := NewPgDir();
      if r == None {
        return;
      }
      var d := r.value;
      BuiltNone(Abs(), data, d);
      KernelMapLength(data);
      var i := 0;
      while i < 4
        invariant 0 <= i <= 4 && Valid() && d in dirs && AddedDir(m, Abs(), d) && IsBuilt(Abs(), data, d, i)
        invariant old(owner).Keys <= owner.Keys && pages == old(pages)
        invariant |free| + 1 + |Tables(Abs(), d)| == |m.free| && Tables(Abs(), d) <= KernelTables()
      {
        ghost var n := Abs();
        var k := KernelMap(data)[i];
        KernelRegion(n, data, d, i);
        var ok; ghost var cnt;
        ok, cnt := MapPages(d, k.virt, (k.end + WORD - k.start) % WORD, k.start, k.perm);
        RegionAdded(m, n, Abs(), data, d, i, cnt);
        RegionTables(data, i, cnt);
        ghost var first := RegionAt(data, i).first;
        KernelSpends(n, Abs(), d, TablesOver(first, first + cnt), |m.free|);
        if !ok {
          ghost var o := Abs();
          KernelShort(o, d, (first + cnt) / ENTRIES, |m.free|);
          FreeVm(d);
          TakenBack(m, o, Abs(), d, frames);
          return None;
        }
        i := i + 1;
      }
      BuiltAll(Abs(), data, d);
      KernelDone(Abs(), data, d, |m.free|);
    }

    /** One turn of copyuvm: the page at address i copied into a fresh frame of the child. */
    method CopyOne(d: nat, c: nat, i: nat, ghost m: Mem, ghost p: map<nat, Bytes>) returns (ok: bool)
      requires Valid() && Owns(m) && Complete(m, frames) && m.owner.Keys <= owner.Keys && KeptPages(m.owner, p, pages)
      requires d in m.dirs && i % PGSIZE == 0 && i / PGSIZE < USER && MappedBelow(m, d, i / PGSIZE + 1)
      requires Copied(m, Abs(), d, c, i / PGSIZE, data) && CopiedPages(m, Abs(), d, c, i / PGSIZE, p, pages)
      modifies `free, `owner, `tables, `pages
      ensures Valid() && AddedDir(m, Abs(), c) && m.owner.Keys <= owner.Keys && KeptPages(m.owner, p, pages)
      ensures ok ==> Copied(m, Abs(), d, c, i / PGSIZE + 1, data) && CopiedPages(m, Abs(), d, c, i / PGSIZE + 1, p, pages)
      ensures var t := i / PGSIZE / ENTRIES;
              if ok then Spent(old(Abs()), Abs(), c, {t}, 1) else |old(free)| < 1 + |{t} - Tables(old(Abs()), c)|
    {
      hide Spent, Tables, TablesOver, Owns, Pte, Word, Copied, CopiedPages, SameOthers, Extends, CanMap, MappedRun, SameDirs, SameDir, Complete, RegionOf, InRange, AddedDir, Filled, Take, Give, MappedBelow;
      ghost var n, v, q := Abs(), i / PGSIZE, pages;
      ParentPage(m, n, d, c, v, data, frames);
      BelowPart(m, d, v, v + 1);
      var there := Walk(d, i / PGSIZE, false);
      var pte := tables[tables[d][i / PGSIZE / ENTRIES].frame][i / PGSIZE % ENTRIES];
      var mem := KAlloc();
      if mem == None {
        return false;
      }
      ReadyToCopy(m, n, d, c, i, data, frames);
      pages := pages[mem.value := pages[pte.frame]];
      ghost var cnt;
      ok, cnt := MapPages(c, i, PGSIZE, mem.value * PGSIZE, pte.flags);
      if !ok {
        PageShort(n, c, v);
        KFree(mem.value);
        TakeGive(m, n, Abs(), c);
        return;
      }
      PageSpends(n, Abs(), c, v);
      CopyStep(m, n, Abs(), d, c, v, data);
      CopiedMore(m, n, Abs(), d, c, v, p, q, pages);
    }

    /** copyuvm: a child directory with the same pages below sz in frames of its own, or every page given back. */
    method CopyUvm(d: nat, sz: nat) returns (r: Option<nat>)
      requires Valid() && d in dirs && sz <= KERNBASE && MappedBelow(Abs(), d, PagesIn(sz))
      modifies this
      ensures Valid() && old(owner).Keys <= owner.Keys && KeptPages(old(owner), old(pages), pages)
      ensures r == None ==> AllBack(old(Abs()), Abs())
      ensures r.Some? ==>
                && Copied(old(Abs()), Abs(), d, r.value, PagesIn(sz), data)
                && CopiedPages(old(Abs()), Abs(), d, r.value, PagesIn(sz), old(pages), pages)
      ensures r.Some? <==> |old(free)| >= SpaceFrames(PagesIn(sz))
      ensures r.Some? ==> |free| == |old(free)| - SpaceFrames(PagesIn(sz))
    {
      hide Spent, Tables, TablesOver, KernelTables, FramesFor, Owns, Pte, Word, AddedDir, AllBack, SameOthers, Complete, KernelEntry, Copied, CopiedPages, MappedBelow, Present;
      ghost var m := Abs();
      r := SetupKvm();
      if r == None {
        return;
      }
      var c := r.value;
      NotCopied(m, Abs(), d, c, data, old(pages), pages);
      ghost var kern := Abs();
      SpaceIs(kern, c, PagesIn(sz));
      SpentNone(kern, c, 0);
      var i := 0;
      while i < sz
        invariant i % PGSIZE == 0 && i / PGSIZE <= PagesIn(sz) && Valid() && m.owner.Keys <= owner.Keys && KeptPages(m.owner, old(pages), pages)
        invariant Copied(m, Abs(), d, c, i / PGSIZE, data) && CopiedPages(m, Abs(), d, c, i / PGSIZE, old(pages), pages)
        invariant Spent(kern, Abs(), c, TablesOver(0, i / PGSIZE), i / PGSIZE)
      {
        ghost var was := Abs();
        BelowPart(m, d, i / PGSIZE + 1, PagesIn(sz));
        var ok := CopyOne(d, c, i, m, old(pages));
        if !ok {
          ghost var n := Abs();
          TooFew(kern, was, c, 0, i / PGSIZE, PagesIn(sz));
          DirAdded(m, n, c);
          FreeVm(c);
          TakenBack(m, n, Abs(), c, frames);
          return None;
        }
        PagesMore(kern, was, Abs(), c, 0, i / PGSIZE);
        i := i + PGSIZE;
      }
      Enough(kern, Abs(), c, 0, PagesIn(sz));
    }

    /** copyout: writes src at user address va of directory d, page by page; stops where a page is not the
        user's. `Fault` is the null dereference in uva2ka, met exactly if that page has no page table. */
    method CopyOut(d: nat, va: nat, src: seq<int>) returns (r: Copying, ghost done: nat)
      requires Valid() && d in dirs && va + |src| <= KERNBASE
      modifies `pages
      ensures Valid() && done <= |src| && Wrote(Abs(), old(pages), pages, d, va, src, done)
      ensures r == Done <==> done == |src|
      ensures r != Done ==>
                !UserPage(Pte(Abs(), d, (va + done) / PGSIZE)) && UserPages(Abs(), d, va / PGSIZE, (va + done) / PGSIZE)
      ensures r == Fault <==> Faults(Abs(), d, va, |src|)
    {
      hide Owns, Pte, Word, Complete, Wrote, UserPages, Faults, TableAt;
      ghost var m := Abs();
      done := 0;
      NothingWritten(m, pages, d, va, src);
      var a, left := va, src;
      UserPagesMore(m, d, va / PGSIZE, 0);
      while |left| > 0
        invariant Valid() && Abs() == m && done <= |src| && left == src[done..] && Wrote(m, old(pages), pages, d, va, src, done)
        invariant left != [] ==> a == va + done && UserPages(m, d, va / PGSIZE, a / PGSIZE)
        invariant left == [] && src != [] ==> UserPages(m, d, va / PGSIZE, (va + |src| - 1) / PGSIZE + 1)
        decreases |left|
      {
        var a0 := a / PGSIZE * PGSIZE;
        var n := Min(PGSIZE - (a - a0), |left|);
        PageEnd(va, done, n, |src|);
        var found, pte := FindPte(d, a / PGSIZE);
        if !found || !UserPage(pte) {
          StoppedAt(m, d, va, |src|, a / PGSIZE);
          return if found then Refused else Fault, done;
        }
        UserPagesMore(m, d, va / PGSIZE, a / PGSIZE);
        assert left[..n] == src[done..done + n] && a - a0 == a % PGSIZE;
        CopyPiece(d, pte.frame, a - a0, left[..n], old(pages), va, src, done);
        done := done + n;
        left := left[n..];
        a := a0 + PGSIZE;
      }
      NotStopped(m, d, va, |src|);
      r := Done;
    }

    /** copyout's memmove into one page. */
    method CopyPiece(d: nat, f: nat, at: nat, piece: seq<int>, ghost p: map<nat, Bytes>, ghost va: nat, ghost src: seq<int>, ghost k: nat)
      requires Valid() && d in dirs && va + |src| <= KERNBASE && k + |piece| <= |src| && piece != []
      requires piece == src[k..k + |piece|] && at == (va + k) % PGSIZE && at + |piece| <= PGSIZE
      requires UserPage(Pte(Abs(), d, (va + k) / PGSIZE)) && f == Pte(Abs(), d, (va + k) / PGSIZE).frame
      requires Wrote(Abs(), p, pages, d, va, src, k)
      modifies `pages
      ensures Valid() && Wrote(Abs(), p, pages, d, va, src, k + |piece|)
    {
      hide Owns, Pte, Word, Complete, Wrote, Spliced;
      ghost var m := Abs();
      UserFrame(m, d, (va + k) / PGSIZE, frames);
      WriteMore(m, p, pages, d, va, src, k, |piece|);
      pages := pages[f := Spliced(pages[f], at, piece)];
    }

    /** walkpgdir without allocation, and the entry it points to. */
    method FindPte(d: nat, v: nat) returns (found: bool, pte: Entry)
      requires Valid() && d in dirs && v < PAGES
      ensures found <==> TableAt(Abs(), d, v)
      ensures if found then pte == Pte(Abs(), d, v) else !UserPage(Pte(Abs(), d, v))
    {
      ghost var m := Abs();
      RootIn(m, d);
      found, pte := Present(tables[d][v / ENTRIES]), ZERO;
      if found {
        PteIs(m, d, v);
        pte := tables[tables[d][v / ENTRIES].frame][v % ENTRIES];
      }
    }
  }
}
