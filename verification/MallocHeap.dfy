/** umalloc.c as it runs: headers in memory, linked into a circular list through `base`. */
module MallocHeap {
  import opened Malloc

  /** The header words of memory, by unit address. */
  datatype Memory = Memory(ptr: map<nat, nat>, size: map<nat, nat>) {
    predicate Has(a: nat) {
      a in ptr && a in size
    }
  }

  /** Where node i of the ring leads. */
  function NextOf(ring: seq<Blk>, i: nat): nat
    requires i < |ring|
  {
    if i + 1 < |ring| then ring[i + 1].addr else ring[0].addr
  }

  /** The header of node i is as the ring says, except perhaps for the pointer of one node. */
  ghost predicate NodeIs(m: Memory, ring: seq<Blk>, i: nat)
    requires i < |ring|
  {
    m.Has(ring[i].addr) && m.size[ring[i].addr] == ring[i].size && m.ptr[ring[i].addr] == NextOf(ring, i)
  }

  ghost predicate Rep(m: Memory, ring: seq<Blk>) {
    forall i :: 0 <= i < |ring| ==> NodeIs(m, ring, i)
  }

  /** The ring but for the pointer of node `gap`. */
  ghost predicate RepBut(m: Memory, ring: seq<Blk>, gap: nat) {
    && gap < |ring| && m.Has(ring[gap].addr) && m.size[ring[gap].addr] == ring[gap].size
    && forall i :: 0 <= i < |ring| && i != gap ==> NodeIs(m, ring, i)
  }

  // ---------- linking a block in ----------

  /** free's first assignment group: bp takes over what follows p, joined or not. */
  function LinkNext(m: Memory, p: nat, bp: nat): Memory
    requires p in m.ptr && m.Has(m.ptr[p]) && bp in m.size
  {
    var next := m.ptr[p];
    if bp + m.size[bp] == next
    then Memory(m.ptr[bp := m.ptr[next]], m.size[bp := m.size[bp] + m.size[next]])
    else m.(ptr := m.ptr[bp := next])
  }

  /** free's second assignment group: the predecessor takes bp in, or points to it. */
  function LinkPrev(m: Memory, p: nat, bp: nat): Memory
    requires p in m.size && m.Has(bp)
  {
    if p + m.size[p] == bp
    then Memory(m.ptr[p := m.ptr[bp]], m.size[p := m.size[p] + m.size[bp]])
    else m.(ptr := m.ptr[p := bp])
  }

  lemma LinkNextDefined(m: Memory, ring: seq<Blk>, i: nat)
    requires Rep(m, ring) && 1 <= i <= |ring|
    ensures m.Has(ring[i - 1].addr) && m.Has(m.ptr[ring[i - 1].addr])
    ensures m.ptr[ring[i - 1].addr] == if i < |ring| then ring[i].addr else ring[0].addr
  {
    assert NodeIs(m, ring, i - 1);
    assert NodeIs(m, ring, if i < |ring| then i else 0);
  }

  /** The ring with the block in place, before its predecessor knows. */
  function Placed(ring: seq<Blk>, i: nat, b: Blk): seq<Blk>
    requires 1 <= i <= |ring|
  {
    ring[..i] + [Joined(ring, i, b)] + Behind(ring, i, b)
  }

  lemma AddressDiffers(ring: seq<Blk>, i: nat, b: Blk, k: nat)
    requires Ordered(ring) && FitsAt(ring, i, b) && b.size > 0 && BASE < b.addr && k < |ring|
    ensures ring[k].addr != b.addr
  {
  }

  lemma LinkJoined(m: Memory, ring: seq<Blk>, i: nat, b: Blk)
    requires Ordered(ring) && FitsAt(ring, i, b) && b.size > 0 && BASE < b.addr && Rep(m, ring)
    requires JoinsNext(ring, i, b)
    ensures var m' := Memory(m.ptr[b.addr := NextOf(ring, i)], m.size[b.addr := b.size + ring[i].size]);
            RepBut(m', Placed(ring, i, b), i - 1)
  {
    var m' := Memory(m.ptr[b.addr := NextOf(ring, i)], m.size[b.addr := b.size + ring[i].size]);
    var ring' := Placed(ring, i, b);
    forall k | 0 <= k < |ring'| && k != i
      ensures ring'[k] == ring[k] && m'.Has(ring[k].addr) && m'.size[ring[k].addr] == ring[k].size
      ensures k != i - 1 ==> NodeIs(m', ring', k)
    {
      AddressDiffers(ring, i, b, k);
      assert NodeIs(m, ring, k);
    }
  }

  lemma LinkPlain(m: Memory, ring: seq<Blk>, i: nat, b: Blk)
    requires Ordered(ring) && FitsAt(ring, i, b) && b.size > 0 && BASE < b.addr && Rep(m, ring)
    requires b.addr in m.size && m.size[b.addr] == b.size && !JoinsNext(ring, i, b)
    ensures var m' := m.(ptr := m.ptr[b.addr := if i < |ring| then ring[i].addr else ring[0].addr]);
            RepBut(m', Placed(ring, i, b), i - 1)
  {
    var m' := m.(ptr := m.ptr[b.addr := if i < |ring| then ring[i].addr else ring[0].addr]);
    var ring' := Placed(ring, i, b);
    assert ring' == ring[..i] + [b] + ring[i..];
    forall k | 0 <= k < |ring'| && k != i
      ensures m'.Has(ring'[k].addr) && m'.size[ring'[k].addr] == ring'[k].size && (k != i - 1 ==> NodeIs(m', ring', k))
    {
      var j := if k < i then k else k - 1;
      AddressDiffers(ring, i, b, j);
      hide Ordered, FitsAt, JoinsNext;
      assert ring'[k] == ring[j] && NodeIs(m, ring, j);
    }
  }

  lemma LinkNextRep(m: Memory, ring: seq<Blk>, i: nat, b: Blk)
    requires Ordered(ring) && FitsAt(ring, i, b) && b.size > 0 && BASE < b.addr && Rep(m, ring)
    requires b.addr in m.size && m.size[b.addr] == b.size
    ensures m.Has(ring[i - 1].addr) && m.Has(m.ptr[ring[i - 1].addr])
    ensures RepBut(LinkNext(m, ring[i - 1].addr, b.addr), Placed(ring, i, b), i - 1)
  {
    LinkNextDefined(m, ring, i);
    if JoinsNext(ring, i, b) {
      assert NodeIs(m, ring, i);
      LinkJoined(m, ring, i, b);
    } else {
      LinkPlain(m, ring, i, b);
    }
  }

  /** Completing the predecessor closes the ring again. */
  lemma LinkPrevRep(m: Memory, ring: seq<Blk>, i: nat)
    requires 1 <= i < |ring| && RepBut(m, ring, i - 1)
    requires forall j, k :: 0 <= j < k < |ring| ==> ring[j].addr < ring[k].addr
    requires forall j :: 0 <= j < i ==> ring[j].End() <= ring[i].addr
    ensures m.Has(ring[i].addr) && m.Has(ring[i - 1].addr)
    ensures Rep(LinkPrev(m, ring[i - 1].addr, ring[i].addr), JoinPrev(ring[..i], ring[i]) + ring[i + 1..])
  {
    assert NodeIs(m, ring, i);
    var m' := LinkPrev(m, ring[i - 1].addr, ring[i].addr);
    var ring' := JoinPrev(ring[..i], ring[i]) + ring[i + 1..];
    if ring[i - 1].End() == ring[i].addr {
      forall k | 0 <= k < |ring'| && k != i - 1
        ensures NodeIs(m', ring', k)
      {
        assert NodeIs(m, ring, if k < i then k else k + 1);
      }
    } else {
      assert ring' == ring;
      forall k | 0 <= k < |ring| && k != i - 1
        ensures NodeIs(m', ring, k)
      {
        assert NodeIs(m, ring, k);
      }
    }
  }

  /** The assignments of free turn the ring into the ring with the block inserted. */
  lemma LinkRep(m: Memory, ring: seq<Blk>, i: nat, b: Blk)
    requires Ordered(ring) && FitsAt(ring, i, b) && b.size > 0 && BASE < b.addr && Rep(m, ring)
    requires b.addr in m.size && m.size[b.addr] == b.size
    ensures m.Has(ring[i - 1].addr) && m.Has(m.ptr[ring[i - 1].addr])
    ensures var m' := LinkNext(m, ring[i - 1].addr, b.addr);
            && m'.Has(ring[i - 1].addr) && m'.Has(b.addr)
            && Rep(LinkPrev(m', ring[i - 1].addr, b.addr), Insert(ring, i, b))
  {
    LinkNextRep(m, ring, i, b);
    var m', ring' := LinkNext(m, ring[i - 1].addr, b.addr), Placed(ring, i, b);
    PlacedRises(ring, i, b);
    assert ring'[..i] == ring[..i] && ring'[i] == Joined(ring, i, b) && ring'[i + 1..] == Behind(ring, i, b);
    LinkPrevRep(m', ring', i);
  }

  lemma PlacedRises(ring: seq<Blk>, i: nat, b: Blk)
    requires Ordered(ring) && FitsAt(ring, i, b) && b.size > 0 && BASE < b.addr
    ensures var ring' := Placed(ring, i, b);
            && (forall j, k :: 0 <= j < k < |ring'| ==> ring'[j].addr < ring'[k].addr)
            && forall j :: 0 <= j < i ==> ring'[j].End() <= ring'[i].addr
  {
    var ring' := Placed(ring, i, b);
    BehindRising(ring, i, b);
    assert ring' == ring[..i] + ([Joined(ring, i, b)] + Behind(ring, i, b));
    forall j | 0 <= j < i
      ensures ring[j].addr < b.addr
    {
      AddressDiffers(ring, i, b, j);
    }
  }

  // ---------- taking a block out ----------

  /** malloc's assignments: unlink an exactly fitting block, or cut the tail off a larger one. */
  function TakeOut(m: Memory, prev: nat, p: nat, n: nat): Memory
    requires m.Has(p) && n <= m.size[p]
  {
    if m.size[p] == n then m.(ptr := m.ptr[prev := m.ptr[p]])
    else m.(size := m.size[p := m.size[p] - n][p + (m.size[p] - n) := n])
  }

  lemma TakeOutWhole(m: Memory, ring: seq<Blk>, i: nat)
    requires Ordered(ring) && Rep(m, ring) && 1 <= i < |ring|
    ensures Rep(m.(ptr := m.ptr[ring[i - 1].addr := NextOf(ring, i)]), ring[..i] + ring[i + 1..])
  {
    var m', ring' := m.(ptr := m.ptr[ring[i - 1].addr := NextOf(ring, i)]), ring[..i] + ring[i + 1..];
    forall k | 0 <= k < |ring'|
      ensures NodeIs(m', ring', k)
    {
      var j := if k < i then k else k + 1;
      assert ring'[k] == ring[j] && NodeIs(m, ring, j);
    }
  }

  lemma TakeOutPart(m: Memory, ring: seq<Blk>, i: nat, n: nat)
    requires Ordered(ring) && Rep(m, ring) && i < |ring| && 0 < n < ring[i].size
    ensures var size := m.size[ring[i].addr := ring[i].size - n][ring[i].addr + (ring[i].size - n) := n];
            Rep(m.(size := size), Carve(ring, i, n))
  {
    var q := ring[i].addr + (ring[i].size - n);
    var m' := m.(size := m.size[ring[i].addr := ring[i].size - n][q := n]);
    var ring' := Carve(ring, i, n);
    forall k | 0 <= k < |ring'|
      ensures NodeIs(m', ring', k)
    {
      assert ring'[k].addr == ring[k].addr && NodeIs(m, ring, k) && ring[k].addr != q;
    }
  }

  /** The assignments of malloc turn the ring into the ring with the block carved out. */
  lemma TakeOutRep(m: Memory, ring: seq<Blk>, i: nat, n: nat)
    requires Ordered(ring) && Rep(m, ring) && 1 <= i < |ring| && 0 < n <= ring[i].size
    ensures m.Has(ring[i].addr) && m.size[ring[i].addr] == ring[i].size
    ensures Rep(TakeOut(m, ring[i - 1].addr, ring[i].addr, n), Carve(ring, i, n))
  {
    assert NodeIs(m, ring, i);
    if ring[i].size == n {
      TakeOutWhole(m, ring, i);
    } else {
      TakeOutPart(m, ring, i, n);
    }
  }

  // ---------- the allocator ----------

  /** The live blocks: headers intact, apart from the free ones and from each other. */
  ghost predicate LiveOk(m: Memory, ring: seq<Blk>, live: seq<Blk>) {
    && (forall k :: 0 <= k < |live| ==>
          && BASE < live[k].addr && live[k].size > 0 && ApartFrom(ring, live[k])
          && live[k].addr in m.size && m.size[live[k].addr] == live[k].size)
    && (forall j, k :: 0 <= j < k < |live| ==> Apart(live[j], live[k]))
  }

  ghost predicate Below(bs: seq<Blk>, top: nat) {
    forall i :: 0 <= i < |bs| ==> bs[i].End() <= top
  }

  function Without(live: seq<Blk>, k: nat): seq<Blk>
    requires k < |live|
  {
    live[..k] + live[k + 1..]
  }

  lemma SizesElsewhere(m: Memory, p: nat, bp: nat, a: nat)
    requires p in m.ptr && m.Has(m.ptr[p]) && p in m.size && bp in m.size && a in m.size && a != p && a != bp
    ensures var m' := LinkNext(m, p, bp);
            m'.Has(bp) && p in m'.size && a in LinkPrev(m', p, bp).size && LinkPrev(m', p, bp).size[a] == m.size[a]
  {
  }

  lemma FreeKeepsLive(m: Memory, ring: seq<Blk>, live: seq<Blk>, k: nat, i: nat)
    requires Ordered(ring) && Rep(m, ring) && LiveOk(m, ring, live) && k < |live| && FitsAt(ring, i, live[k])
    requires m.Has(ring[i - 1].addr) && m.Has(m.ptr[ring[i - 1].addr])
    ensures var p, bp := ring[i - 1].addr, live[k].addr;
            var m' := LinkNext(m, p, bp);
            && p in m'.size && m'.Has(bp)
            && LiveOk(LinkPrev(m', p, bp), Insert(ring, i, live[k]), Without(live, k))
  {
    var p, bp, rest := ring[i - 1].addr, live[k].addr, Without(live, k);
    forall j | 0 <= j < |rest|
      ensures rest[j].addr != p && rest[j].addr != bp && ApartFrom(Insert(ring, i, live[k]), rest[j])
    {
      var j' := if j < k then j else j + 1;
      assert rest[j] == live[j'] && Apart(live[k], live[j']) && Apart(ring[i - 1], live[j']);
      InsertApart(ring, i, live[k], live[j']);
    }
    forall a | a in m.size && a != p && a != bp
      ensures var m' := LinkNext(m, p, bp);
              m'.Has(bp) && p in m'.size && a in LinkPrev(m', p, bp).size && LinkPrev(m', p, bp).size[a] == m.size[a]
    {
      SizesElsewhere(m, p, bp, a);
    }
  }

  lemma InsertBelow(ring: seq<Blk>, i: nat, b: Blk, top: nat)
    requires 1 <= i <= |ring| && Below(ring, top) && b.End() <= top
    ensures Below(Insert(ring, i, b), top)
  {
  }

  ghost predicate IsNode(ring: seq<Blk>, a: nat) {
    exists i :: 0 <= i < |ring| && ring[i].addr == a
  }

  /** The invariant of the heap: one address-ordered coalesced ring through `base`, disjoint blocks, and
      free plus live units equal to the units obtained. */
  ghost predicate HeapOk(m: Memory, freep: nat, ring: seq<Blk>, live: seq<Blk>, top: nat, obtained: nat) {
    && Ordered(ring) && Below(ring, top) && Below(live, top) && LiveOk(m, ring, live)
    && Total(ring) + Total(live) == obtained
    && if freep == 0 then ring == [Blk(BASE, 0)] else Rep(m, ring) && IsNode(ring, freep)
  }

  lemma WithoutTotal(live: seq<Blk>, k: nat)
    requires k < |live|
    ensures Total(Without(live, k)) + live[k].size == Total(live)
  {
    TotalAt(live, k);
    TotalConcat(live[..k], live[k + 1..]);
  }

  lemma FreeOk(m: Memory, freep: nat, ring: seq<Blk>, live: seq<Blk>, top: nat, obtained: nat, k: nat, i: nat)
    requires HeapOk(m, freep, ring, live, top, obtained) && freep != 0 && k < |live|
    requires 1 <= i <= |ring| && FitsAt(ring, i, live[k])
    ensures m.Has(ring[i - 1].addr) && m.Has(m.ptr[ring[i - 1].addr]) && live[k].addr in m.size
    ensures ring[i - 1].addr != 0
    ensures var p, bp := ring[i - 1].addr, live[k].addr;
            var m' := LinkNext(m, p, bp);
            && p in m'.size && m'.Has(bp)
            && HeapOk(LinkPrev(m', p, bp), p, Insert(ring, i, live[k]), Without(live, k), top, obtained)
  {
    hide Ordered, Rep, LiveOk, Insert, LinkNext, LinkPrev, Total, FitsAt, Below, IsNode, Without;
    LiveBlock(m, ring, live, k, top);
    LinkRep(m, ring, i, live[k]);
    FreeKeepsLive(m, ring, live, k, i);
    InsertOrdered(ring, i, live[k]);
    InsertTotal(ring, i, live[k]);
    InsertBelow(ring, i, live[k], top);
    WithoutTotal(live, k);
    InsertPred(ring, i, live[k]);
  }

  lemma LiveBlock(m: Memory, ring: seq<Blk>, live: seq<Blk>, k: nat, top: nat)
    requires LiveOk(m, ring, live) && k < |live| && Ordered(ring) && Below(live, top)
    ensures Below(Without(live, k), top) && live[k].End() <= top
    ensures BASE < live[k].addr && live[k].size > 0 && live[k].addr in m.size && m.size[live[k].addr] == live[k].size
    ensures forall j :: 0 <= j < |ring| ==> ring[j].addr != 0
  {
  }

  lemma GrowLive(m: Memory, ring: seq<Blk>, live: seq<Blk>, top: nat, b: Blk)
    requires LiveOk(m, ring, live) && Below(ring, top) && Below(live, top)
    requires b.addr >= top && BASE < b.addr && b.size > 0
    ensures LiveOk(m.(size := m.size[b.addr := b.size]), ring, live + [b])
  {
    assert forall j :: 0 <= j < |live| ==> live[j].addr != b.addr;
  }

  lemma LiveMore(live: seq<Blk>, b: Blk, top: nat)
    requires Below(live, top) && b.End() <= top
    ensures Below(live + [b], top) && Total(live + [b]) == Total(live) + b.size
  {
    TotalConcat(live, [b]);
  }

  lemma GrowRep(m: Memory, ring: seq<Blk>, top: nat, b: Blk)
    requires Ordered(ring) && Rep(m, ring) && Below(ring, top) && b.addr >= top && BASE < b.addr
    ensures Rep(m.(size := m.size[b.addr := b.size]), ring)
  {
    var m' := m.(size := m.size[b.addr := b.size]);
    forall j | 0 <= j < |ring|
      ensures NodeIs(m', ring, j)
    {
      assert NodeIs(m, ring, j);
    }
  }

  /** A fresh region above the break, before it is linked in. */
  lemma GrowOk(m: Memory, freep: nat, ring: seq<Blk>, live: seq<Blk>, top: nat, obtained: nat, b: Blk)
    requires HeapOk(m, freep, ring, live, top, obtained) && b.addr >= top && BASE < b.addr && b.size > 0
    ensures HeapOk(m.(size := m.size[b.addr := b.size]), freep, ring, live + [b], b.End(), obtained + b.size)
  {
    hide LiveOk, Rep, Ordered, IsNode, Total;
    GrowLive(m, ring, live, top, b);
    LiveMore(live, b, b.End());
    if freep != 0 {
      GrowRep(m, ring, top, b);
    }
  }

  lemma CarveBelow(ring: seq<Blk>, i: nat, n: nat, top: nat)
    requires Ordered(ring) && 1 <= i < |ring| && 0 < n <= ring[i].size && Below(ring, top)
    ensures Below(Carve(ring, i, n), top) && Carved(ring, i, n).End() <= top
    ensures IsNode(Carve(ring, i, n), ring[i - 1].addr) && ring[i - 1].addr != 0
  {
    assert Carve(ring, i, n)[i - 1] == ring[i - 1];
  }

  lemma TakeOk(m: Memory, freep: nat, ring: seq<Blk>, live: seq<Blk>, top: nat, obtained: nat, i: nat, n: nat)
    requires HeapOk(m, freep, ring, live, top, obtained) && freep != 0 && 1 <= i < |ring| && 0 < n <= ring[i].size
    ensures m.Has(ring[i].addr) && m.size[ring[i].addr] == ring[i].size
    ensures ring[i - 1].addr != 0
    ensures HeapOk(TakeOut(m, ring[i - 1].addr, ring[i].addr, n), ring[i - 1].addr,
                   Carve(ring, i, n), live + [Carved(ring, i, n)], top, obtained)
  {
    hide LiveOk, Rep, Ordered, IsNode, Carve, TakeOut, Total, Below;
    TakeOutRep(m, ring, i, n);
    CarveOrdered(ring, i, n);
    CarveTotal(ring, i, n);
    CarveBelow(ring, i, n, top);
    LiveMore(live, Carved(ring, i, n), top);
    TakeKeepsLive(m, ring, live, i, n);
  }

  lemma TakeKeepsLive(m: Memory, ring: seq<Blk>, live: seq<Blk>, i: nat, n: nat)
    requires Ordered(ring) && Rep(m, ring) && LiveOk(m, ring, live) && 1 <= i < |ring| && 0 < n <= ring[i].size
    ensures m.Has(ring[i].addr) && m.size[ring[i].addr] == ring[i].size
    ensures LiveOk(TakeOut(m, ring[i - 1].addr, ring[i].addr, n), Carve(ring, i, n), live + [Carved(ring, i, n)])
  {
    assert NodeIs(m, ring, i);
    CarveOrdered(ring, i, n);
    var m' := TakeOut(m, ring[i - 1].addr, ring[i].addr, n);
    forall j | 0 <= j < |live|
      ensures ApartFrom(Carve(ring, i, n), live[j]) && Apart(Carved(ring, i, n), live[j])
      ensures live[j].addr in m'.size && m'.size[live[j].addr] == live[j].size
    {
      CarveApart(ring, i, n, live[j]);
      assert Apart(ring[i], live[j]);
    }
    assert Carved(ring, i, n).addr in m'.size && m'.size[Carved(ring, i, n).addr] == n;
    hide Carve, TakeOut, Ordered, Rep, ApartFrom;
  }

  /** The units malloc asks for: the header and enough for nbytes. */
  function UnitsFor(nbytes: nat): nat {
    (nbytes + HEADER - 1) / HEADER + 1
  }

  lemma PlaceOf(m: Memory, freep: nat, ring: seq<Blk>, live: seq<Blk>, top: nat, obtained: nat, k: nat) returns (i: nat)
    requires HeapOk(m, freep, ring, live, top, obtained) && k < |live|
    ensures 1 <= i <= |ring| && FitsAt(ring, i, live[k]) && live[k].size > 0 && BASE < live[k].addr
  {
    i := PlaceExists(ring, live[k]);
  }

  const TWO_31: nat := 0x8000_0000
  const TWO_32: nat := 0x1_0000_0000

  /** The same in the 32-bit arithmetic of the program. */
  function UnitsFor32(nbytes: nat): nat {
    ((nbytes + HEADER - 1) % TWO_32) / HEADER + 1
  }

  /** The bytes morecore asks sbrk for, which takes a signed int. */
  function SbrkBytes32(nunits: nat): nat {
    (Region(0, nunits).size * HEADER) % TWO_32
  }

  /** The block has room for nbytes and sbrk is asked for a positive amount exactly up to 2^31 - 16. */
  lemma RequestSoundIff(nbytes: nat)
    requires nbytes < TWO_32
    ensures (UnitsFor32(nbytes) - 1) * HEADER >= nbytes && 0 < SbrkBytes32(UnitsFor32(nbytes)) < TWO_31
            <==> nbytes <= TWO_31 - 16
    ensures nbytes <= TWO_31 - 16 ==> UnitsFor32(nbytes) == UnitsFor(nbytes)
  {
  }

  /** The node a step further round the ring. */
  function Step(ring: seq<Blk>, i: nat): nat
    requires i < |ring|
  {
    if i + 1 < |ring| then i + 1 else 0
  }

  /** Going round from node f, the nodes before `at` have been passed. */
  predicate Passed(f: nat, at: nat, k: nat) {
    if f < at then f < k < at else f < k || k < at
  }

  ghost predicate PassedTooSmall(ring: seq<Blk>, f: nat, at: nat, n: nat) {
    forall k :: 0 <= k < |ring| && Passed(f, at, k) ==> ring[k].size < n
  }

  ghost predicate NoneFits(ring: seq<Blk>, n: nat) {
    forall k :: 0 <= k < |ring| ==> ring[k].size < n
  }

  lemma PassNone(ring: seq<Blk>, f: nat, n: nat)
    requires f < |ring|
    ensures PassedTooSmall(ring, f, Step(ring, f), n)
  {
  }

  lemma PassOne(ring: seq<Blk>, f: nat, at: nat, n: nat)
    requires f < |ring| && at < |ring| && at != f && PassedTooSmall(ring, f, at, n) && ring[at].size < n
    ensures PassedTooSmall(ring, f, Step(ring, at), n)
  {
  }

  lemma RoundOnce(ring: seq<Blk>, f: nat, n: nat)
    requires f < |ring| && PassedTooSmall(ring, f, f, n) && ring[f].size < n
    ensures NoneFits(ring, n)
  {
  }

  /** The ring after morecore: what sbrk gave, inserted where it belongs. */
  ghost predicate Grew(before: seq<Blk>, after: seq<Blk>, b: Blk) {
    exists j: nat :: FitsAt(before, j, b) && 1 <= j <= |before| && after == Insert(before, j, b)
  }

  /** What morecore asks sbrk for. */
  function Region(brk: nat, n: nat): Blk {
    Blk(brk, if n < 4096 then 4096 else n)
  }

  /** A freed block of at least n units leaves the list with a block of at least n units. */
  lemma InsertLarge(ring: seq<Blk>, i: nat, b: Blk)
    requires 1 <= i <= |ring|
    ensures exists k :: 0 <= k < |Insert(ring, i, b)| && Insert(ring, i, b)[k].size >= b.size
  {
    var r := Insert(ring, i, b);
    var k := |JoinPrev(ring[..i], Joined(ring, i, b))| - 1;
    assert r[k].size >= b.size;
  }

  lemma HeapNode(m: Memory, freep: nat, ring: seq<Blk>, live: seq<Blk>, top: nat, obtained: nat, i: nat)
    requires HeapOk(m, freep, ring, live, top, obtained) && freep != 0 && i < |ring|
    ensures m.Has(ring[i].addr) && m.ptr[ring[i].addr] == ring[Step(ring, i)].addr && m.size[ring[i].addr] == ring[i].size
    ensures ring[0].size == 0
    ensures forall k :: 0 <= k < |ring| && ring[k].addr == ring[i].addr ==> k == i
  {
    assert NodeIs(m, ring, i);
  }

  lemma InitOk(m: Memory, ring: seq<Blk>, live: seq<Blk>, top: nat, obtained: nat)
    requires HeapOk(m, 0, ring, live, top, obtained)
    ensures HeapOk(Memory(m.ptr[BASE := BASE], m.size[BASE := 0]), BASE, ring, live, top, obtained)
    ensures ring == [Blk(BASE, 0)]
  {
    assert ring[0].addr == BASE;
  }

  class Allocator {
    var mem: Memory
    var freep: nat            // 0 until the first malloc
    ghost var ring: seq<Blk>
    ghost var live: seq<Blk>
    ghost var top: nat        // the program break
    ghost var obtained: nat   // units obtained from sbrk

    constructor ()
      ensures Valid() && ring == [Blk(BASE, 0)] && live == [] && obtained == 0
    {
      mem, freep := Memory(map[], map[]), 0;
      ring, live, top, obtained := [Blk(BASE, 0)], [], BASE, 0;
    }

    ghost predicate Valid()
      reads this
    {
      HeapOk(mem, freep, ring, live, top, obtained)
    }
  
    /** free's search: the node after which the block belongs. It visits each node at most once. */
    method Search(bp: nat, ghost i: nat, ghost b: Blk) returns (p: nat)
      requires Valid() && freep != 0 && b.addr == bp && b.size > 0 && BASE < bp && FitsAt(ring, i, b)
      ensures p == ring[i - 1].addr
    {
      p := freep;
      ghost var at :| 0 <= at < |ring| && ring[at].addr == freep;
      assert NodeIs(mem, ring, at);
      while !(bp > p && bp < mem.ptr[p])
        invariant 0 <= at < |ring| && ring[at].addr == p && NodeIs(mem, ring, at)
        decreases if at < i then i - at else |ring| + i - at
      {
        if p >= mem.ptr[p] && (bp > p || bp < mem.ptr[p]) {
          break;
        }
        assert at != i - 1;
        p := mem.ptr[p];
        at := if at + 1 < |ring| then at + 1 else 0;
        assert NodeIs(mem, ring, at);
      }
      assert at == i - 1;
    }

    /** free: the block goes back to its place in the ring, joined with its neighbours; no other live
        block is touched. */
    method Free(ap: nat, ghost k: nat) returns (ghost i: nat)
      requires Valid() && freep != 0 && k < |live| && ap == live[k].addr + 1
      modifies this`mem, this`freep, this`ring, this`live
      ensures Valid() && FitsAt(old(ring), i, old(live)[k])
      ensures ring == Insert(old(ring), i, old(live)[k]) && live == Without(old(live), k)
      ensures freep == old(ring)[i - 1].addr != 0
    {
      hide HeapOk, FitsAt, LinkNext, LinkPrev, Insert;
      var bp := ap - 1;
      ghost var b := live[k];
      i := PlaceOf(mem, freep, ring, live, top, obtained, k);
      var p := Search(bp, i, b);
      FreeOk(mem, freep, ring, live, top, obtained, k, i);
      mem := LinkNext(mem, p, bp);
      mem := LinkPrev(mem, p, bp);
      freep := p;
      ring, live := Insert(ring, i, b), Without(live, k);
    }

    /** morecore: obtain at least 4096 units from sbrk and free them into the list. `brk` is what sbrk
        answers: 0 for failure, else the old break. */
    method Morecore(nu: nat, brk: nat) returns (p: nat, ghost i: nat, ghost b: Blk)
      requires Valid() && freep != 0 && nu > 0 && (brk != 0 ==> brk >= top && brk > BASE)
      modifies this
      ensures Valid() && live == old(live) && (p == 0 <==> brk == 0)
      ensures brk == 0 ==> ring == old(ring) && freep == old(freep) && obtained == old(obtained)
      ensures brk != 0 ==>
                && b == Region(brk, nu) && obtained == old(obtained) + b.size
                && Grew(old(ring), ring, b) && !NoneFits(ring, nu)
                && p == freep && i < |ring| && ring[i].addr == freep
    {
      hide HeapOk, Insert;
      ghost var was := ring;
      var n := if nu < 4096 then 4096 else nu;
      i, b := 0, Blk(brk, n);
      if brk == 0 {
        return 0, i, b;
      }
      GrowOk(mem, freep, ring, live, top, obtained, b);
      mem := mem.(size := mem.size[brk := n]);
      ghost var k := |live|;
      live, top, obtained := live + [b], b.End(), obtained + n;
      ghost var j := Free(brk + 1, k);
      assert live == old(live);
      InsertLarge(was, j, b);
      InsertPred(was, j, b);
      i := j - 1;
      return freep, i, b;
    }

    /** malloc's first-time initialization: `base` alone, pointing to itself. */
    method Init()
      requires Valid()
      modifies this`mem, this`freep
      ensures Valid() && freep != 0
    {
      if freep == 0 {
        hide HeapOk;
        InitOk(mem, ring, live, top, obtained);
        mem := Memory(mem.ptr[BASE := BASE], mem.size[BASE := 0]);
        freep := BASE;
      }
    }

    /** malloc: next fit. The result is a block of UnitsFor(nbytes) units carved from the list, which was
        first grown by one call of morecore if no free block was large enough; 0 only if sbrk refused. */
    method Malloc(nbytes: nat, brk: nat) returns (ap: nat, ghost source: seq<Blk>, ghost i: nat, ghost grown: bool)
      requires Valid() && (brk != 0 ==> brk >= top && brk > BASE)
      requires nbytes <= TWO_31 - 16   // see RequestSoundIff
      modifies this
      ensures Valid()
      ensures grown || ap == 0 ==> NoneFits(old(ring), UnitsFor(nbytes))
      ensures ap == 0 ==> brk == 0 && ring == old(ring) && live == old(live) && obtained == old(obtained)
      ensures ap != 0 ==>
                && i < |source| && UnitsFor(nbytes) <= source[i].size
                && ring == Carve(source, i, UnitsFor(nbytes))
                && live == old(live) + [Carved(source, i, UnitsFor(nbytes))]
                && ap == Carved(source, i, UnitsFor(nbytes)).addr + 1
      ensures ap != 0 && !grown ==> source == old(ring) && obtained == old(obtained)
      ensures ap != 0 && grown ==>
                Grew(old(ring), source, Region(brk, UnitsFor(nbytes))) &&
                obtained == old(obtained) + Region(brk, UnitsFor(nbytes)).size
    {
      hide HeapOk, Grew, Carve, PassedTooSmall, NoneFits;
      var nunits := (nbytes + HEADER - 1) / HEADER + 1;
      Init();
      var prevp := freep;
      grown := false;
      ghost var f := FreepIndex();
      HeapNode(mem, freep, ring, live, top, obtained, f);
      var p := mem.ptr[prevp];
      PassNone(ring, f, nunits);
      i := Step(ring, f);
      while true
        invariant Valid() && freep != 0 && live == old(live)
        invariant 0 <= f < |ring| && ring[f].addr == freep && 0 <= i < |ring| && ring[i].addr == p
        invariant prevp == ring[if i == 0 then |ring| - 1 else i - 1].addr
        invariant PassedTooSmall(ring, f, i, nunits)
        invariant !grown ==> ring == old(ring) && obtained == old(obtained) && top == old(top)
        invariant grown ==> NoneFits(old(ring), nunits) && !NoneFits(ring, nunits)
        invariant grown ==> Grew(old(ring), ring, Region(brk, nunits)) && obtained == old(obtained) + Region(brk, nunits).size
        decreases !grown, if i <= f then f - i else |ring| - i + f
      {
        HeapNode(mem, freep, ring, live, top, obtained, i);
        if mem.size[p] >= nunits {
          source := ring;
          ap := Take(prevp, p, nunits, i);
          return;
        }
        if p == freep {
          HeapNode(mem, freep, ring, live, top, obtained, f);
          RoundOnce(ring, f, nunits);
          ghost var b;
          p, f, b := Morecore(nunits, brk);
          if p == 0 {
            return 0, ring, i, grown;
          }
          grown, i := true, f;
          HeapNode(mem, freep, ring, live, top, obtained, i);
          PassNone(ring, f, nunits);
        } else {
          PassOne(ring, f, i, nunits);
        }
        prevp, p := p, mem.ptr[p];
        i := Step(ring, i);
      }
    }

    /** The end of malloc: carve n units out of node i. */
    method Take(prevp: nat, p: nat, n: nat, ghost i: nat) returns (ap: nat)
      requires Valid() && freep != 0 && 1 <= i < |ring| && 0 < n <= ring[i].size
      requires prevp == ring[i - 1].addr && p == ring[i].addr
      modifies this`mem, this`freep, this`ring, this`live
      ensures Valid() && ring == Carve(old(ring), i, n) && live == old(live) + [Carved(old(ring), i, n)]
      ensures ap == Carved(old(ring), i, n).addr + 1 && freep == prevp
    {
      hide HeapOk, Carve, TakeOut;
      TakeOk(mem, freep, ring, live, top, obtained, i, n);
      ap := p + (mem.size[p] - n) + 1;
      mem := TakeOut(mem, prevp, p, n);
      freep := prevp;
      ring, live := Carve(ring, i, n), live + [Carved(ring, i, n)];
    }

    ghost function FreepIndex(): (i: nat)
      requires Valid() && freep != 0
      reads this
      ensures i < |ring| && ring[i].addr == freep
    {
      var i :| 0 <= i < |ring| && ring[i].addr == freep;
      i
    }
  }

  lemma InsertPred(ring: seq<Blk>, i: nat, b: Blk)
    requires 1 <= i <= |ring|
    ensures |Insert(ring, i, b)| >= i && Insert(ring, i, b)[i - 1].addr == ring[i - 1].addr
    ensures IsNode(Insert(ring, i, b), ring[i - 1].addr)
  {
  }
}
