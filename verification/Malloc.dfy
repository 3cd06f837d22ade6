/** The free list of umalloc.c on values: `base` and the free blocks in address order, coalesced.

    Addresses and sizes count header-sized units, so `p + 1` is the unit after `p`. */
module Malloc {

  const BASE: nat := 1     // the address of the static header `base`; 0 is the null pointer
  const HEADER: nat := 8   // sizeof(Header)

  datatype Blk = Blk(addr: nat, size: nat) {
    function End(): nat {
      addr + size
    }
  }

  /** Starts in strictly rising order with a gap of at least one unit after each end. */
  ghost predicate Rising(bs: seq<Blk>) {
    forall i, j :: 0 <= i < j < |bs| ==> bs[i].End() < bs[j].addr
  }

  /** The ring, cut open at `base`: address-ordered, disjoint, and no two free blocks adjacent. */
  ghost predicate Ordered(ring: seq<Blk>) {
    && |ring| >= 1 && ring[0] == Blk(BASE, 0)
    && Sized(ring)
    && Rising(ring)
  }

  ghost predicate Sized(bs: seq<Blk>) {
    forall i :: 0 <= i < |bs| && bs[i].addr != BASE ==> bs[i].size > 0
  }

  predicate Apart(a: Blk, b: Blk) {
    a.End() <= b.addr || b.End() <= a.addr
  }

  ghost predicate ApartFrom(bs: seq<Blk>, b: Blk) {
    forall i :: 0 <= i < |bs| ==> Apart(bs[i], b)
  }

  /** Where a block belongs: after the first i nodes of the ring. */
  ghost predicate FitsAt(ring: seq<Blk>, i: nat, b: Blk) {
    && 1 <= i <= |ring|
    && (forall j :: 0 <= j < i ==> ring[j].End() <= b.addr)
    && (forall j :: i <= j < |ring| ==> b.End() <= ring[j].addr)
  }

  function Total(bs: seq<Blk>): nat {
    if bs == [] then 0 else Total(bs[..|bs| - 1]) + bs[|bs| - 1].size
  }

  // ---------- free ----------

  predicate JoinsNext(ring: seq<Blk>, i: nat, b: Blk) {
    i < |ring| && b.End() == ring[i].addr
  }

  /** The block, joined with node i if it ends where that begins. */
  function Joined(ring: seq<Blk>, i: nat, b: Blk): Blk {
    if JoinsNext(ring, i, b) then Blk(b.addr, b.size + ring[i].size) else b
  }

  /** What remains behind it. */
  function Behind(ring: seq<Blk>, i: nat, b: Blk): seq<Blk>
    requires i <= |ring|
  {
    if JoinsNext(ring, i, b) then ring[i + 1..] else ring[i..]
  }

  /** Put a block behind others, joined with the last of them if they touch. */
  function JoinPrev(left: seq<Blk>, b: Blk): seq<Blk>
    requires left != []
  {
    var last := left[|left| - 1];
    if last.End() == b.addr then left[..|left| - 1] + [Blk(last.addr, last.size + b.size)] else left + [b]
  }

  /** free: put b behind the first i nodes, joined with whichever neighbours it touches. */
  function Insert(ring: seq<Blk>, i: nat, b: Blk): seq<Blk>
    requires 1 <= i <= |ring|
  {
    JoinPrev(ring[..i], Joined(ring, i, b)) + Behind(ring, i, b)
  }

  // ---------- malloc ----------

  /** malloc takes n units off the end of node i, or the whole block. */
  function Carve(ring: seq<Blk>, i: nat, n: nat): seq<Blk>
    requires i < |ring| && n <= ring[i].size
  {
    if ring[i].size == n then ring[..i] + ring[i + 1..]
    else ring[..i] + [Blk(ring[i].addr, ring[i].size - n)] + ring[i + 1..]
  }

  function Carved(ring: seq<Blk>, i: nat, n: nat): Blk
    requires i < |ring| && n <= ring[i].size
  {
    Blk(ring[i].addr + (ring[i].size - n), n)
  }

  // ---------- units are conserved ----------

  lemma {:induction false} TotalConcat(a: seq<Blk>, b: seq<Blk>)
    ensures Total(a + b) == Total(a) + Total(b)
  {
    if b == [] {
      assert a + b == a;
    } else {
      assert (a + b)[..|a + b| - 1] == a + b[..|b| - 1];
      TotalConcat(a, b[..|b| - 1]);
    }
  }

  lemma TotalThree(a: seq<Blk>, b: Blk, c: seq<Blk>)
    ensures Total(a + [b] + c) == Total(a) + b.size + Total(c)
  {
    TotalConcat(a + [b], c);
    assert (a + [b])[..|a|] == a;
  }

  lemma TotalAt(bs: seq<Blk>, i: nat)
    requires i < |bs|
    ensures Total(bs) == Total(bs[..i]) + bs[i].size + Total(bs[i + 1..])
  {
    assert bs == bs[..i] + [bs[i]] + bs[i + 1..];
    TotalThree(bs[..i], bs[i], bs[i + 1..]);
  }

  lemma BehindTotal(ring: seq<Blk>, i: nat, b: Blk)
    requires i <= |ring|
    ensures Joined(ring, i, b).size + Total(Behind(ring, i, b)) == b.size + Total(ring[i..])
  {
    if JoinsNext(ring, i, b) {
      TotalAt(ring[i..], 0);
      assert ring[i..][..0] == [] && ring[i..][1..] == ring[i + 1..];
    }
  }

  lemma JoinPrevTotal(left: seq<Blk>, b: Blk)
    requires left != []
    ensures Total(JoinPrev(left, b)) == Total(left) + b.size
  {
    TotalConcat(left, [b]);
    var last := left[|left| - 1];
    TotalConcat(left[..|left| - 1], [Blk(last.addr, last.size + b.size)]);
  }

  /** free returns exactly the block's units to the list. */
  lemma InsertTotal(ring: seq<Blk>, i: nat, b: Blk)
    requires 1 <= i <= |ring|
    ensures Total(Insert(ring, i, b)) == Total(ring) + b.size
  {
    BehindTotal(ring, i, b);
    JoinPrevTotal(ring[..i], Joined(ring, i, b));
    TotalConcat(JoinPrev(ring[..i], Joined(ring, i, b)), Behind(ring, i, b));
    TotalConcat(ring[..i], ring[i..]);
    assert ring == ring[..i] + ring[i..];
  }

  /** malloc takes exactly n units from the list. */
  lemma CarveTotal(ring: seq<Blk>, i: nat, n: nat)
    requires i < |ring| && n <= ring[i].size
    ensures Total(Carve(ring, i, n)) + n == Total(ring)
  {
    TotalAt(ring, i);
    TotalConcat(ring[..i], ring[i + 1..]);
    TotalThree(ring[..i], Blk(ring[i].addr, ring[i].size - n), ring[i + 1..]);
  }

  // ---------- order, disjointness, coalescing ----------

  lemma RisingConcat(left: seq<Blk>, right: seq<Blk>, bound: int)
    requires Rising(left) && Rising(right)
    requires forall j :: 0 <= j < |left| ==> left[j].End() <= bound
    requires forall j :: 0 <= j < |right| ==> bound < right[j].addr
    ensures Rising(left + right)
  {
  }

  lemma RisingPart(bs: seq<Blk>, lo: nat, hi: nat)
    requires Rising(bs) && lo <= hi <= |bs|
    ensures Rising(bs[lo..hi])
  {
  }

  lemma JoinPrevRising(left: seq<Blk>, b: Blk)
    requires left != [] && Rising(left) && forall j :: 0 <= j < |left| ==> left[j].End() <= b.addr
    ensures Rising(JoinPrev(left, b)) && forall j :: 0 <= j < |JoinPrev(left, b)| ==> JoinPrev(left, b)[j].End() <= b.End()
  {
    var n := |left| - 1;
    RisingPart(left, 0, n);
    if left[n].End() == b.addr {
      forall j | 0 <= j < n
        ensures left[j].End() < left[n].addr
      {
      }
    } else {
      forall j | 0 <= j < n
        ensures left[j].End() < b.addr
      {
      }
    }
  }

  lemma BehindRising(ring: seq<Blk>, i: nat, b: Blk)
    requires Rising(ring) && FitsAt(ring, i, b)
    ensures Rising(Behind(ring, i, b))
    ensures forall j :: 0 <= j < |Behind(ring, i, b)| ==> Joined(ring, i, b).End() < Behind(ring, i, b)[j].addr
  {
    var k := if JoinsNext(ring, i, b) then i + 1 else i;
    RisingPart(ring, k, |ring|);
    forall j | k <= j < |ring|
      ensures Joined(ring, i, b).End() < ring[j].addr
    {
      assert i < j ==> ring[i].End() < ring[j].addr;
    }
  }

  lemma InsertRising(ring: seq<Blk>, i: nat, b: Blk)
    requires Rising(ring) && FitsAt(ring, i, b)
    ensures Rising(Insert(ring, i, b))
  {
    BehindRising(ring, i, b);
    RisingPart(ring, 0, i);
    JoinPrevRising(ring[..i], Joined(ring, i, b));
    RisingConcat(JoinPrev(ring[..i], Joined(ring, i, b)), Behind(ring, i, b), Joined(ring, i, b).End());
  }

  /** free keeps the list address-ordered and fully coalesced. */
  lemma InsertOrdered(ring: seq<Blk>, i: nat, b: Blk)
    requires Ordered(ring) && FitsAt(ring, i, b) && BASE < b.addr && b.size > 0
    ensures Ordered(Insert(ring, i, b))
  {
    InsertRising(ring, i, b);
    assert i >= 2 ==> JoinPrev(ring[..i], Joined(ring, i, b))[0] == ring[0];
  }

  lemma CarveRising(ring: seq<Blk>, i: nat, n: nat)
    requires Rising(ring) && i < |ring| && 0 < n <= ring[i].size
    ensures Rising(Carve(ring, i, n))
  {
    RisingPart(ring, 0, i);
    RisingPart(ring, i + 1, |ring|);
    forall j | 0 <= j < i
      ensures ring[j].End() < ring[i].addr
    {
    }
    if ring[i].size == n {
      RisingConcat(ring[..i], ring[i + 1..], ring[i].End());
    } else {
      RisingConcat(ring[..i], [Blk(ring[i].addr, ring[i].size - n)], ring[i].addr - 1);
      RisingConcat(ring[..i] + [Blk(ring[i].addr, ring[i].size - n)], ring[i + 1..], ring[i].End());
    }
  }

  /** malloc keeps the list ordered, and what it hands out is apart from what stays free. */
  lemma CarveOrdered(ring: seq<Blk>, i: nat, n: nat)
    requires Ordered(ring) && i < |ring| && 0 < n <= ring[i].size
    ensures Ordered(Carve(ring, i, n)) && ApartFrom(Carve(ring, i, n), Carved(ring, i, n))
    ensures BASE < Carved(ring, i, n).addr
  {
    assert i >= 1 && ring[0].End() < ring[i].addr;
    CarveRising(ring, i, n);
    forall j | 0 <= j < |ring| && j != i
      ensures Apart(ring[j], Carved(ring, i, n))
    {
    }
    hide Rising;
  }

  /** A block apart from all the nodes has its place among them. */
  lemma PlaceExists(ring: seq<Blk>, b: Blk) returns (i: nat)
    requires Ordered(ring) && ApartFrom(ring, b) && b.size > 0 && BASE < b.addr
    ensures FitsAt(ring, i, b)
  {
    i := |ring|;
    while ring[i - 1].addr > b.addr
      invariant 1 <= i <= |ring|
      invariant forall j :: i <= j < |ring| ==> b.End() <= ring[j].addr
    {
      i := i - 1;
    }
  }

  /** A block apart from everything stays apart from the list after an insertion. */
  lemma InsertApart(ring: seq<Blk>, i: nat, b: Blk, other: Blk)
    requires 1 <= i <= |ring| && b.size > 0 && other.size > 0
    requires ApartFrom(ring, other) && Apart(b, other)
    ensures ApartFrom(Insert(ring, i, b), other)
  {
    assert i < |ring| ==> Apart(ring[i], other);
    assert Apart(Joined(ring, i, b), other);
    assert Apart(ring[i - 1], other);
  }

  lemma CarveApart(ring: seq<Blk>, i: nat, n: nat, other: Blk)
    requires i < |ring| && 0 < n <= ring[i].size && ApartFrom(ring, other)
    ensures ApartFrom(Carve(ring, i, n), other) && Apart(Carved(ring, i, n), other)
  {
    assert Apart(ring[i], other);
  }
}
