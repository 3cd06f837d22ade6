/** How many page frames building an address space takes (vm.c): one for each page, and one for each page table that
    is not there yet. */
module FrameCount {
  import opened Layout
  import opened PageTables
  import opened PageSteps

  /** The page tables directory d has. */
  function Tables(m: Mem, d: nat): set<nat> {
    set i: nat | i < ENTRIES && Present(Word(m, d, i))
  }

  /** The page tables that the pages from lo up to hi lie under. */
  function TablesOver(lo: nat, hi: nat): (ts: set<nat>)
    ensures forall v: nat :: lo <= v < hi ==> v / ENTRIES in ts
    ensures forall i :: i in ts ==> exists v: nat :: lo <= v < hi && v / ENTRIES == i
  {
    set v: nat | lo <= v < hi :: v / ENTRIES
  }

  /** From m to n directory d has gained the tables ts that it lacked, each in a frame that was free, and `extra` other
      frames were taken. */
  ghost predicate Spent(m: Mem, n: Mem, d: nat, ts: set<nat>, extra: nat) {
    Tables(n, d) == Tables(m, d) + ts && |n.free| + |ts - Tables(m, d)| + extra == |m.free|
  }

  lemma SpentNone(m: Mem, d: nat, lo: nat)
    ensures Spent(m, m, d, TablesOver(lo, lo), 0)
  {
    assert TablesOver(lo, lo) == {};
  }

  lemma SpentTrans(m: Mem, n: Mem, o: Mem, d: nat, ts: set<nat>, e: nat, us: set<nat>, f: nat)
    requires Spent(m, n, d, ts, e) && Spent(n, o, d, us, f)
    ensures Spent(m, o, d, ts + us, e + f)
  {
    hide Tables;
    var had := Tables(m, d);
    assert (ts + us) - had == (ts - had) + (us - (had + ts));
  }

  lemma SpentSame(m: Mem, n: Mem, o: Mem, d: nat, ts: set<nat>, e: nat)
    requires Spent(m, n, d, ts, e) && Tables(o, d) == Tables(n, d) && |o.free| == |n.free|
    ensures Spent(m, o, d, ts, e)
  {
  }

  lemma OverNext(lo: nat, v: nat)
    requires lo <= v
    ensures TablesOver(lo, v + 1) == TablesOver(lo, v) + {v / ENTRIES}
  {
  }

  lemma TakeSpends(m: Mem, d: nat)
    requires m.free != []
    ensures Spent(m, Take(m), d, {}, 1)
  {
    assert Tables(Take(m), d) == Tables(m, d);
  }

  lemma WalkFinds(m: Mem, d: nat, i: nat)
    requires i < ENTRIES && Present(Word(m, d, i))
    ensures Spent(m, m, d, {i}, 0) && i in Tables(m, d)
  {
    assert {i} - Tables(m, d) == {};
  }

  lemma WalkSpends(m: Mem, d: nat, i: nat)
    requires Owns(m) && d in m.dirs && i < ENTRIES && m.free != [] && !Present(Word(m, d, i))
    ensures d in m.tables && Spent(m, AddTable(Take(m), d, i, m.free[0]), d, {i}, 0)
  {
    TakeOwns(m);
    var k, f := Take(m), m.free[0];
    assert Word(k, d, i) == Word(m, d, i);
    AddTableFlat(k, d, i, f);
    var n := AddTable(k, d, i, f);
    assert n.free == m.free[1..];
    hide Owns, AddTable, Pte;
    assert forall j: nat :: Word(k, d, j) == Word(m, d, j);
    hide Word, Take;
    assert Tables(n, d) == Tables(m, d) + {i};
    assert {i} - Tables(m, d) == {i};
  }

  lemma MapSpends(m: Mem, d: nat, v: nat, e: Entry)
    requires Owns(m) && d in m.dirs && v < PAGES && Present(Word(m, d, v / ENTRIES)) && Present(e)
    requires !Present(Pte(m, d, v)) && (v < USER ==> IsOther(m, e.frame))
    ensures Word(m, d, v / ENTRIES).frame in m.tables
    ensures Tables(MapEntry(m, d, v, e), d) == Tables(m, d) && MapEntry(m, d, v, e).free == m.free
  {
    var own := if v < USER then m.owner[e.frame := Page(d, v)] else m.owner;
    assert own.Keys == m.owner.Keys;
    RewriteFlat(m, d, v, e, own);
    var n := MapEntry(m, d, v, e);
    assert n == Rewrite(m, d, v, e, own) && n.free == m.free;
    hide Owns, Pte, Word, MapEntry, Rewrite;
  }

  lemma StillAbsent(m: Mem, n: Mem, d: nat, v: nat)
    requires SameFlat(m, n, d) && SameOthers(m, n) && v < PAGES && !Present(Pte(m, d, v))
    ensures !Present(Pte(n, d, v)) && forall f: nat :: IsOther(m, f) ==> IsOther(n, f)
  {
    hide Pte, Word, Present;
  }

  // ---------- pages ----------

  /** What mapping new pages from lo up to hi takes. */
  ghost function FramesFor(m: Mem, d: nat, lo: nat, hi: nat): nat
    requires lo <= hi
  {
    hi - lo + |TablesOver(lo, hi) - Tables(m, d)|
  }

  lemma OverOne(v: nat)
    ensures TablesOver(v, v + 1) == {v / ENTRIES}
  {
    OverNext(v, v);
    assert TablesOver(v, v) == {};
  }

  /** A frame for a page, mapped. */
  lemma PageSpends(n: Mem, o: Mem, d: nat, v: nat)
    requires n.free != [] && Spent(Take(n), o, d, TablesOver(v, v + 1), 0)
    ensures Spent(n, o, d, {v / ENTRIES}, 1)
  {
    hide Spent, Take, TablesOver;
    TakeSpends(n, d);
    OverOne(v);
    SpentTrans(n, Take(n), o, d, {}, 1, {v / ENTRIES}, 0);
    assert {} + {v / ENTRIES} == {v / ENTRIES};
  }

  /** The page was had, but not the table for it. */
  lemma PageShort(n: Mem, d: nat, v: nat)
    requires n.free != [] && Take(n).free == [] && v / ENTRIES !in Tables(Take(n), d)
    ensures |n.free| < 1 + |{v / ENTRIES} - Tables(n, d)|
  {
    TakeSpends(n, d);
    hide Tables;
    assert {v / ENTRIES} - Tables(n, d) == {v / ENTRIES};
  }

  lemma PagesMore(m: Mem, n: Mem, o: Mem, d: nat, lo: nat, v: nat)
    requires lo <= v && Spent(m, n, d, TablesOver(lo, v), v - lo) && Spent(n, o, d, {v / ENTRIES}, 1)
    ensures Spent(m, o, d, TablesOver(lo, v + 1), v + 1 - lo)
  {
    hide Spent, TablesOver;
    OverNext(lo, v);
    SpentTrans(m, n, o, d, TablesOver(lo, v), v - lo, {v / ENTRIES}, 1);
  }

  lemma SmallerSet(s: set<nat>, t: set<nat>)
    requires s <= t
    ensures |s| <= |t|
  {
    assert t == s + (t - s);
  }

  /** Frames that do not do for one page more do not do for all. */
  lemma TooFew(m: Mem, n: Mem, d: nat, lo: nat, v: nat, hi: nat)
    requires lo <= v < hi && Spent(m, n, d, TablesOver(lo, v), v - lo) && |n.free| < 1 + |{v / ENTRIES} - Tables(n, d)|
    ensures |m.free| < FramesFor(m, d, lo, hi)
  {
    hide Tables;
    OverNext(lo, v);
    var had, ts, one := Tables(m, d), TablesOver(lo, v), {v / ENTRIES};
    assert (ts + one) - had == (ts - had) + (one - (had + ts));
    assert TablesOver(lo, v + 1) <= TablesOver(lo, hi);
    hide TablesOver;
    SmallerSet(TablesOver(lo, v + 1) - had, TablesOver(lo, hi) - had);
  }

  lemma Enough(m: Mem, n: Mem, d: nat, lo: nat, hi: nat)
    requires lo <= hi && Spent(m, n, d, TablesOver(lo, hi), hi - lo)
    ensures |m.free| >= FramesFor(m, d, lo, hi) && |n.free| == |m.free| - FramesFor(m, d, lo, hi)
  {
    hide Tables, TablesOver;
  }

  // ---------- the kernel's part of every address space ----------

  /** The tables over KERNBASE up to KERNBASE + PHYSTOP, and over the devices. */
  function KernelTables(): set<nat> {
    Between(512, 568) + Between(1016, ENTRIES)
  }

  function Between(lo: nat, hi: nat): set<nat> {
    set i: nat | i < hi && IsFrom(lo, i)
  }

  predicate IsFrom(lo: nat, i: nat) {
    lo <= i
  }

  /** A directory and its 64 kernel tables. */
  const KERNEL_FRAMES: nat := 65

  lemma {:induction false} BetweenSize(lo: nat, hi: nat)
    requires lo <= hi
    ensures |Between(lo, hi)| == hi - lo
    decreases hi
  {
    if lo < hi {
      BetweenSize(lo, hi - 1);
      assert Between(lo, hi) == Between(lo, hi - 1) + {hi - 1};
    } else {
      assert Between(lo, hi) == {};
    }
  }

  lemma KernelTablesSize()
    ensures |KernelTables()| == KERNEL_FRAMES - 1
  {
    BetweenSize(512, 568);
    BetweenSize(1016, ENTRIES);
    assert Between(512, 568) !! Between(1016, ENTRIES);
  }

  lemma NewDirTables(m: Mem, f: nat)
    ensures Tables(NewDir(m, f), f) == {}
  {
  }

  /** The pages of the kernel's regions lie under those tables. */
  lemma RegionTables(data: nat, i: nat, k: nat)
    requires DataOk(data) && i < 4 && k <= RegionAt(data, i).count
    ensures var r := RegionAt(data, i);
            && TablesOver(r.first, r.first + k) <= KernelTables()
            && (k < r.count ==> (r.first + k) / ENTRIES in KernelTables())
  {
    var r := RegionAt(data, i);
    forall v: nat | r.first <= v < r.first + r.count
      ensures v / ENTRIES in KernelTables()
    {
    }
  }

  lemma KernelSpends(n: Mem, o: Mem, d: nat, ts: set<nat>, total: nat)
    requires |n.free| + 1 + |Tables(n, d)| == total && Tables(n, d) <= KernelTables() && Spent(n, o, d, ts, 0) && ts <= KernelTables()
    ensures |o.free| + 1 + |Tables(o, d)| == total && Tables(o, d) <= KernelTables()
  {
    hide Tables, KernelTables;
    assert Tables(n, d) + ts == Tables(n, d) + (ts - Tables(n, d));
  }

  lemma KernelShort(o: Mem, d: nat, i: nat, total: nat)
    requires |o.free| + 1 + |Tables(o, d)| == total && Tables(o, d) <= KernelTables() && o.free == []
    requires i in KernelTables() && i !in Tables(o, d)
    ensures total < KERNEL_FRAMES
  {
    hide Tables, KernelTables;
    KernelTablesSize();
    assert Tables(o, d) + {i} <= KernelTables();
    SmallerSet(Tables(o, d) + {i}, KernelTables());
  }

  lemma KernelDone(o: Mem, data: nat, d: nat, total: nat)
    requires |o.free| + 1 + |Tables(o, d)| == total && Tables(o, d) <= KernelTables() && DataOk(data)
    requires forall v: nat :: v < PAGES ==> Pte(o, d, v) == KernelEntry(data, v)
    ensures Tables(o, d) == KernelTables() && |o.free| + KERNEL_FRAMES == total
  {
    forall i: nat | i in KernelTables()
      ensures i in Tables(o, d)
    {
      var v := i * ENTRIES;
      assert Pte(o, d, v) == KernelEntry(data, v) && Present(KernelEntry(data, v));
      HasTable(o, d, v);
    }
    KernelTablesSize();
  }

  // ---------- a whole address space ----------

  /** A kernel part, n user pages from 0 on, and the tables over those. */
  function SpaceFrames(n: nat): nat {
    KERNEL_FRAMES + n + (n + ENTRIES - 1) / ENTRIES
  }

  lemma UserTables(n: nat)
    requires n <= USER
    ensures TablesOver(0, n) == Between(0, (n + ENTRIES - 1) / ENTRIES) && TablesOver(0, n) !! KernelTables()
  {
    forall i: nat | i < (n + ENTRIES - 1) / ENTRIES
      ensures i in TablesOver(0, n)
    {
      assert i * ENTRIES < n && i * ENTRIES / ENTRIES == i;
    }
  }

  lemma SpaceIs(m: Mem, d: nat, n: nat)
    requires n <= USER && Tables(m, d) == KernelTables()
    ensures KERNEL_FRAMES + FramesFor(m, d, 0, n) == SpaceFrames(n)
  {
    UserTables(n);
    BetweenSize(0, (n + ENTRIES - 1) / ENTRIES);
    hide Tables, KernelTables, TablesOver;
    assert TablesOver(0, n) - Tables(m, d) == TablesOver(0, n);
  }
}
