/** The free bitmap as bytes: what setting and clearing one bit does to the bits of a whole block. */
module Bitmap {
  import opened Common

  /** 1 << k. */
  function Mask(k: nat): bv8
    requires k < 8
  {
    if k == 0 then 1 else if k == 1 then 2 else if k == 2 then 4 else if k == 3 then 8
    else if k == 4 then 16 else if k == 5 then 32 else if k == 6 then 64 else 128
  }

  predicate ByteBit(x: bv8, k: nat)
    requires k < 8
  {
    x & Mask(k) != 0
  }

  lemma SetByteBit(x: bv8, k: nat, j: nat)
    requires k < 8 && j < 8
    ensures ByteBit(x | Mask(k), j) <==> j == k || ByteBit(x, j)
  {
    var a, b := Mask(k), Mask(j);
    assert (x | a) & b == (x & b) | (a & b);
    assert j == k || a & b == 0;
    assert b & b == b;
    assert (x & b) | 0 == x & b;
  }

  lemma ClearByteBit(x: bv8, k: nat, j: nat)
    requires k < 8 && j < 8
    ensures ByteBit(x & !Mask(k), j) <==> j != k && ByteBit(x, j)
  {
    var a, b := Mask(k), Mask(j);
    assert (x & !a) & b == x & (!a & b);
    assert if j == k then !a & b == 0 else !a & b == b;
    assert x & 0 == 0;
  }

  /** Where bit b lies: its byte and its place in it. */
  function ByteOf(b: nat): (q: nat)
    ensures 8 * q <= b < 8 * q + 8
  {
    b / 8
  }

  function PlaceOf(b: nat): (r: nat)
    ensures r < 8 && b == 8 * ByteOf(b) + r
  {
    b % 8
  }

  /** Bit b of a block of bytes. */
  predicate Bit(bytes: seq<bv8>, b: nat)
    requires b < 8 * |bytes|
  {
    ByteBit(bytes[ByteOf(b)], PlaceOf(b))
  }

  function Bits(bytes: seq<bv8>): seq<bool> {
    seq(8 * |bytes|, b requires 0 <= b < 8 * |bytes| => Bit(bytes, b))
  }

  /** balloc's `data[bi/8] |= m`. */
  function Mark(bytes: seq<bv8>, b: nat): seq<bv8>
    requires b < 8 * |bytes|
  {
    bytes[ByteOf(b) := bytes[ByteOf(b)] | Mask(PlaceOf(b))]
  }

  /** bfree's `data[bi/8] &= ~m`. */
  function Unmark(bytes: seq<bv8>, b: nat): seq<bv8>
    requires b < 8 * |bytes|
  {
    bytes[ByteOf(b) := bytes[ByteOf(b)] & !Mask(PlaceOf(b))]
  }

  lemma MarkBit(bytes: seq<bv8>, b: nat, j: nat)
    requires b < 8 * |bytes| && j < 8 * |bytes|
    ensures Bit(Mark(bytes, b), j) == (j == b || Bit(bytes, j))
    ensures Bit(Unmark(bytes, b), j) == (j != b && Bit(bytes, j))
  {
    hide ByteBit, Mask, ByteOf, PlaceOf;
    MarkAt(bytes, ByteOf(b), PlaceOf(b), ByteOf(j), PlaceOf(j));
  }

  lemma MarkAt(bytes: seq<bv8>, q: nat, r: nat, p: nat, s: nat)
    requires q < |bytes| && p < |bytes| && r < 8 && s < 8
    ensures ByteBit(bytes[q := bytes[q] | Mask(r)][p], s) == ((p == q && s == r) || ByteBit(bytes[p], s))
    ensures ByteBit(bytes[q := bytes[q] & !Mask(r)][p], s) == (!(p == q && s == r) && ByteBit(bytes[p], s))
  {
    hide ByteBit, Mask;
    SetByteBit(bytes[q], r, s);
    ClearByteBit(bytes[q], r, s);
  }

  /** Marking or unmarking changes that bit and no other. */
  lemma MarkBits(bytes: seq<bv8>, b: nat)
    requires b < 8 * |bytes|
    ensures Bits(Mark(bytes, b)) == Bits(bytes)[b := true]
    ensures Bits(Unmark(bytes, b)) == Bits(bytes)[b := false]
  {
    hide ByteBit, Mask, Bit;
    forall j | 0 <= j < 8 * |bytes|
      ensures Bits(Mark(bytes, b))[j] == (j == b || Bits(bytes)[j])
      ensures Bits(Unmark(bytes, b))[j] == (j != b && Bits(bytes)[j])
    {
      MarkBit(bytes, b, j);
    }
  }

  /** mkfs's balloc: a bitmap block whose first `used` bits are set and no others. */
  method FirstBits(bsize: nat, used: nat) returns (buf: array<bv8>)
    requires used < bsize * 8
    ensures buf.Length == bsize && fresh(buf)
    ensures forall b :: 0 <= b < bsize * 8 ==> Bits(buf[..])[b] == (b < used)
  {
    hide ByteBit, Mask;
    buf := new bv8[bsize](_ => 0);
    assert forall b :: 0 <= b < bsize * 8 ==> !Bit(buf[..], b) by { ZeroBits(buf[..]); }
    var i := 0;
    while i < used
      invariant 0 <= i <= used
      invariant forall b :: 0 <= b < bsize * 8 ==> Bits(buf[..])[b] == (b < i)
    {
      MarkBits(buf[..], i);
      ghost var was := buf[..];
      buf[i / 8] := buf[i / 8] | Mask(i % 8);
      assert buf[..] == Mark(was, i);
      i := i + 1;
    }
  }

  lemma ZeroBits(bytes: seq<bv8>)
    requires forall i :: 0 <= i < |bytes| ==> bytes[i] == 0
    ensures forall b :: 0 <= b < 8 * |bytes| ==> !Bit(bytes, b)
  {
    forall b | 0 <= b < 8 * |bytes|
      ensures !Bit(bytes, b)
    {
      assert bytes[ByteOf(b)] == 0;
      assert 0 & Mask(PlaceOf(b)) == 0;
    }
  }

  /** The bitmap blocks of a file system of `size` blocks, searched and changed as balloc and bfree do. */
  class FreeMap {
    const size: nat
    var maps: seq<seq<bv8>>

    ghost predicate Valid()
      reads this
    {
      size <= BPB * |maps| && forall i :: 0 <= i < |maps| ==> |maps[i]| == BSIZE
    }

    /** The bit of each block. */
    ghost function Used(): (u: seq<bool>)
      requires Valid()
      reads this
      ensures |u| == size && forall b :: 0 <= b < size ==> u[b] == UsedAt(maps, b)
    {
      var now := maps;
      seq(size, b requires 0 <= b < size => UsedAt(now, b))
    }

    constructor (size: nat, maps: seq<seq<bv8>>)
      requires size <= BPB * |maps| && forall i :: 0 <= i < |maps| ==> |maps[i]| == BSIZE
      ensures Valid() && this.size == size && this.maps == maps
    {
      this.size, this.maps := size, maps;
    }

    /** balloc on the bytes: the first clear bit is set and no other bit changes. */
    method Take() returns (ok: bool, b: nat)
      requires Valid()
      modifies this
      ensures Valid()
      ensures ok ==>
                && b < size && !old(Used())[b] && (forall j :: 0 <= j < b ==> old(Used())[j])
                && Used() == old(Used())[b := true] && maps == old(maps)[b / BPB := maps[b / BPB]]
      ensures !ok ==> (forall j :: 0 <= j < size ==> Used()[j]) && maps == old(maps)
    {
      hide Bit, ByteBit, Mask;
      b := 0;
      while b < size
        invariant Valid() && maps == old(maps) && b % BPB == 0
        invariant forall j :: 0 <= j < b && j < size ==> Used()[j]
      {
        var bi := 0;
        while bi < BPB && b + bi < size
          invariant Valid() && maps == old(maps) && 0 <= bi <= BPB
          invariant forall j :: 0 <= j < b + bi && j < size ==> Used()[j]
        {
          InBlock(b, bi, |maps|);
          var clear := ClearAt(maps[b / BPB], bi);
          if clear {
            SetMap(b + bi, true);
            return true, b + bi;
          }
          bi := bi + 1;
        }
        b := b + BPB;
      }
      return false, 0;
    }

    /** bfree on the bytes: false for a bit already clear. */
    method Release(b: nat) returns (ok: bool)
      requires Valid() && b < size
      modifies this
      ensures Valid() && ok == old(Used())[b] && Used() == old(Used())[b := false]
      ensures maps == if ok then old(maps)[b / BPB := maps[b / BPB]] else old(maps)
    {
      hide Bit, ByteBit, Mask;
      var clear := ClearAt(maps[b / BPB], b % BPB);
      ok := !clear;
      if ok {
        SetMap(b, false);
      }
    }

    /** One byte of one bitmap block. */
    method SetMap(b: nat, to: bool)
      requires Valid() && b < size
      modifies this
      ensures Valid() && Used() == old(Used())[b := to] && maps == old(maps)[b / BPB := maps[b / BPB]]
    {
      hide Bit, ByteBit, Mask, Bits, UsedAt;
      var m, bi := b / BPB, b % BPB;
      var bytes := maps[m];
      MarkBits(bytes, bi);
      bytes := if to then Mark(bytes, bi) else Unmark(bytes, bi);
      ghost var was := maps;
      MapsChanged(was, m, bytes, bi, to, size);
      maps := maps[m := bytes];
      assert b == m * BPB + bi;
      assert forall j: nat :: j < size ==> UsedAt(maps, j) == if j == b then to else UsedAt(was, j);
    }
  }

  /** Is the bit of block b set? */
  predicate UsedAt(maps: seq<seq<bv8>>, b: nat) {
    b / BPB < |maps| && |maps[b / BPB]| == BSIZE && Bit(maps[b / BPB], b % BPB)
  }

  lemma InBlock(b: nat, bi: nat, n: nat)
    requires b % BPB == 0 && bi < BPB && b + bi < BPB * n
    ensures (b + bi) / BPB == b / BPB < n && (b + bi) % BPB == bi
  {
  }

  /** `(data[bi/8] & m) == 0`. */
  method ClearAt(bytes: seq<bv8>, bi: nat) returns (clear: bool)
    requires |bytes| == BSIZE && bi < BPB
    ensures clear == !Bit(bytes, bi)
  {
    clear := bytes[bi / 8] & Mask(bi % 8) == 0;
  }

  lemma MapsChanged(maps: seq<seq<bv8>>, m: nat, bytes: seq<bv8>, bi: nat, to: bool, size: nat)
    requires m < |maps| && bi < BPB && |bytes| == BSIZE && size <= BPB * |maps|
    requires forall i :: 0 <= i < |maps| ==> |maps[i]| == BSIZE
    requires Bits(bytes) == Bits(maps[m])[bi := to]
    ensures forall b: nat :: b < size ==> UsedAt(maps[m := bytes], b) == if b == m * BPB + bi then to else UsedAt(maps, b)
  {
    hide Bit;
    forall b: nat | b < size
      ensures UsedAt(maps[m := bytes], b) == if b == m * BPB + bi then to else UsedAt(maps, b)
    {
      if b / BPB == m {
        assert Bits(bytes)[b % BPB] == Bit(bytes, b % BPB);
        assert Bits(maps[m])[b % BPB] == Bit(maps[m], b % BPB);
      }
    }
  }
}
