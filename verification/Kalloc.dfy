/** The page allocator's free list (kalloc.c), threaded through the free pages themselves. */
module Kalloc {
  import opened Layout

  /** The page addresses freerange frees, in the order it leaves them on the list: the last one freed comes first. */
  function Backward(first: nat, n: nat): (s: seq<nat>)
    ensures |s| == n && forall i :: 0 <= i < n ==> s[i] == first + (n - 1 - i) * PGSIZE
  {
    seq(n, i requires 0 <= i < n => first + (n - 1 - i) * PGSIZE)
  }

  lemma BackwardMore(first: nat, n: nat)
    ensures [first + n * PGSIZE] + Backward(first, n) == Backward(first, n + 1)
  {
  }

  /** Whole pages between two addresses. */
  function WholePages(vstart: nat, vend: nat): nat {
    var p := (vstart + PGSIZE - 1) / PGSIZE * PGSIZE;
    if p <= vend then (vend - p) / PGSIZE else 0
  }

  class FreeList {
    var freelist: nat
    var next: map<nat, nat>
    ghost var pages: seq<nat>
    const end: nat

    /** The list is the chain of links from freelist; no page is on it twice. */
    ghost predicate Valid()
      reads this
    {
      && (forall i, j :: 0 <= i < j < |pages| ==> pages[i] != pages[j])
      && (forall i :: 0 <= i < |pages| ==> pages[i] != 0 && pages[i] in next)
      && (if pages == [] then freelist == 0 else freelist == pages[0])
      && (forall i :: 0 <= i < |pages| - 1 ==> next[pages[i]] == pages[i + 1])
      && (pages != [] ==> next[pages[|pages| - 1]] == 0)
    }

    constructor (end: nat)
      ensures Valid() && pages == [] && this.end == end
    {
      this.end, freelist, next, pages := end, 0, map[], [];
    }

    /** What kfree panics on. */
    predicate CanFree(v: nat) {
      v % PGSIZE == 0 && end <= v && KERNBASE <= v < KERNBASE + PHYSTOP
    }

    method KFree(v: nat)
      requires Valid() && CanFree(v) && v !in pages
      modifies this
      ensures Valid() && pages == [v] + old(pages)
    {
      next := next[v := freelist];
      freelist := v;
      pages := [v] + pages;
    }

    /** kalloc: null if the list is empty. */
    method KAlloc() returns (r: nat)
      requires Valid()
      modifies this
      ensures Valid()
      ensures old(pages) == [] ==> r == 0 && pages == []
      ensures old(pages) != [] ==> r == old(pages)[0] && pages == old(pages)[1..]
    {
      r := freelist;
      if r != 0 {
        assert |pages| > 1 ==> next[pages[0]] == pages[1];
        freelist := next[r];
        pages := pages[1..];
      }
    }

    /** freerange: every whole page between the two addresses. */
    method FreeRange(vstart: nat, vend: nat)
      requires Valid() && end <= vstart && KERNBASE <= vstart && vend <= KERNBASE + PHYSTOP
      requires forall v :: v in pages ==> !(vstart <= v < vend)
      modifies this
      ensures Valid() && pages == Backward((vstart + PGSIZE - 1) / PGSIZE * PGSIZE, WholePages(vstart, vend)) + old(pages)
    {
      hide Valid, Backward, WholePages;
      var p := (vstart + PGSIZE - 1) / PGSIZE * PGSIZE;
      ghost var first, n := p, 0;
      RoundedUp(vstart);
      NoneFreed(first, pages);
      while p + PGSIZE <= vend
        invariant Valid() && p == first + n * PGSIZE && first % PGSIZE == 0 && first >= vstart
        invariant pages == Backward(first, n) + old(pages) && (n > 0 ==> p <= vend)
        decreases vend - p
      {
        NotYet(first, n, old(pages), vstart, vend);
        KFree(p);
        BackwardMore(first, n);
        assert pages == Backward(first, n + 1) + old(pages);
        p := p + PGSIZE;
        n := n + 1;
      }
      AllFreed(vstart, vend, n);
    }
  }

  lemma RoundedUp(v: nat)
    ensures var p := (v + PGSIZE - 1) / PGSIZE * PGSIZE; p % PGSIZE == 0 && v <= p
  {
  }

  lemma NoneFreed(first: nat, pages: seq<nat>)
    ensures Backward(first, 0) + pages == pages
  {
  }

  lemma NotYet(first: nat, n: nat, rest: seq<nat>, vstart: nat, vend: nat)
    requires vstart <= first && first % PGSIZE == 0 && first + n * PGSIZE + PGSIZE <= vend && forall v :: v in rest ==> !(vstart <= v < vend)
    ensures first + n * PGSIZE !in Backward(first, n) + rest && (first + n * PGSIZE) % PGSIZE == 0
  {
  }

  lemma AllFreed(vstart: nat, vend: nat, n: nat)
    requires var p := (vstart + PGSIZE - 1) / PGSIZE * PGSIZE; p + n * PGSIZE + PGSIZE > vend && (n > 0 ==> p + n * PGSIZE <= vend)
    ensures n == WholePages(vstart, vend)
  {
  }

  // ---------- the frames the kernel starts with ----------

  /** Where kinit1 stops and kinit2 goes on. */
  const FOUR_MB: nat := 0x40_0000

  /** The page frame behind a kernel address. */
  function FrameOf(v: nat): nat {
    if v < KERNBASE then 0 else (v - KERNBASE) / PGSIZE
  }

  function Frames(pages: seq<nat>): (fs: seq<nat>)
    ensures |fs| == |pages| && forall i :: 0 <= i < |pages| ==> fs[i] == FrameOf(pages[i])
  {
    seq(|pages|, i requires 0 <= i < |pages| => FrameOf(pages[i]))
  }

  /** Every frame from `end` up to PHYSTOP once: what the page-table model's memory is made from. */
  ghost predicate AllFrames(frames: seq<nat>, end: nat) {
    && (forall i, j :: 0 <= i < j < |frames| ==> frames[i] != frames[j])
    && (forall f: nat :: f in frames <==> end <= KERNBASE + f * PGSIZE && f < PHYSTOP / PGSIZE)
  }

  lemma BackwardIn(first: nat, n: nat, v: nat)
    requires first % PGSIZE == 0
    ensures v in Backward(first, n) <==> v % PGSIZE == 0 && first <= v < first + n * PGSIZE
  {
    if v % PGSIZE == 0 && first <= v < first + n * PGSIZE {
      var i := n - 1 - (v - first) / PGSIZE;
      assert Backward(first, n)[i] == v;
    }
  }

  /** kinit1 and kinit2. */
  method KInit(end: nat) returns (l: FreeList)
    requires KERNBASE < end <= KERNBASE + FOUR_MB
    ensures fresh(l) && l.Valid() && l.end == end
    ensures (forall v :: v in l.pages ==> l.CanFree(v)) && AllFrames(Frames(l.pages), end)
  {
    hide FreeList.Valid, Backward, WholePages;
    l := new FreeList(end);
    l.FreeRange(end, KERNBASE + FOUR_MB);
    ghost var low := l.pages;
    LowPages(end, low);
    l.FreeRange(KERNBASE + FOUR_MB, KERNBASE + PHYSTOP);
    HighPages(end, low, l.pages);
    FramesAll(end, l.pages);
  }

  function Up(v: nat): nat {
    (v + PGSIZE - 1) / PGSIZE * PGSIZE
  }

  lemma LowPages(end: nat, low: seq<nat>)
    requires KERNBASE < end <= KERNBASE + FOUR_MB && low == Backward(Up(end), WholePages(end, KERNBASE + FOUR_MB)) + []
    ensures forall v: nat :: v in low <==> v % PGSIZE == 0 && end <= v < KERNBASE + FOUR_MB
    ensures forall i, j :: 0 <= i < j < |low| ==> low[i] != low[j]
  {
    var n := WholePages(end, KERNBASE + FOUR_MB);
    assert Up(end) + n * PGSIZE == KERNBASE + FOUR_MB;
    assert low == Backward(Up(end), n);
    forall v: nat
      ensures v in low <==> v % PGSIZE == 0 && end <= v < KERNBASE + FOUR_MB
    {
      BackwardIn(Up(end), n, v);
    }
  }

  lemma HighPages(end: nat, low: seq<nat>, pages: seq<nat>)
    requires KERNBASE < end <= KERNBASE + FOUR_MB
    requires forall v: nat :: v in low <==> v % PGSIZE == 0 && end <= v < KERNBASE + FOUR_MB
    requires forall i, j :: 0 <= i < j < |low| ==> low[i] != low[j]
    requires pages == Backward(Up(KERNBASE + FOUR_MB), WholePages(KERNBASE + FOUR_MB, KERNBASE + PHYSTOP)) + low
    ensures forall v: nat :: v in pages <==> v % PGSIZE == 0 && end <= v < KERNBASE + PHYSTOP
    ensures forall i, j :: 0 <= i < j < |pages| ==> pages[i] != pages[j]
  {
    var first, n := KERNBASE + FOUR_MB, WholePages(KERNBASE + FOUR_MB, KERNBASE + PHYSTOP);
    assert Up(first) == first && first + n * PGSIZE == KERNBASE + PHYSTOP;
    var high := Backward(first, n);
    assert forall i, j :: 0 <= i < j < |high| ==> high[i] != high[j];
    forall v: nat
      ensures v in high <==> v % PGSIZE == 0 && first <= v < KERNBASE + PHYSTOP
    {
      BackwardIn(first, n, v);
    }
    hide Backward, WholePages;
    DistinctJoin(high, low);
  }

  lemma DistinctJoin(s: seq<nat>, t: seq<nat>)
    requires (forall i, j :: 0 <= i < j < |s| ==> s[i] != s[j]) && (forall i, j :: 0 <= i < j < |t| ==> t[i] != t[j])
    requires forall v :: v in s ==> v !in t
    ensures forall i, j :: 0 <= i < j < |s + t| ==> (s + t)[i] != (s + t)[j]
  {
    forall i, j | 0 <= i < j < |s + t|
      ensures (s + t)[i] != (s + t)[j]
    {
      if i < |s| <= j {
        assert s[i] in s && t[j - |s|] in t;
      }
    }
  }

  lemma FrameBack(f: nat)
    ensures FrameOf(KERNBASE + f * PGSIZE) == f && (KERNBASE + f * PGSIZE) % PGSIZE == 0
  {
  }

  lemma PageBack(v: nat)
    requires v % PGSIZE == 0 && v >= KERNBASE
    ensures KERNBASE + FrameOf(v) * PGSIZE == v
  {
  }

  lemma FramesAll(end: nat, pages: seq<nat>)
    requires KERNBASE < end
    requires forall v: nat :: v in pages <==> v % PGSIZE == 0 && end <= v < KERNBASE + PHYSTOP
    requires forall i, j :: 0 <= i < j < |pages| ==> pages[i] != pages[j]
    ensures AllFrames(Frames(pages), end)
  {
    hide FrameOf;
    var fs := Frames(pages);
    forall f: nat
      ensures f in fs <==> end <= KERNBASE + f * PGSIZE && f < PHYSTOP / PGSIZE
    {
      FrameBack(f);
      if f in fs {
        var i :| 0 <= i < |fs| && fs[i] == f;
        assert pages[i] in pages;
        PageBack(pages[i]);
      }
      var v := KERNBASE + f * PGSIZE;
      if v in pages {
        var i :| 0 <= i < |pages| && pages[i] == v;
        assert fs[i] == f;
      }
    }
    forall i, j | 0 <= i < j < |fs|
      ensures fs[i] != fs[j]
    {
      assert pages[i] in pages && pages[j] in pages;
      PageBack(pages[i]);
      PageBack(pages[j]);
    }
  }
}
