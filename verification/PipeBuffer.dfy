/** The pipe as the kernel keeps it (pipe.c): a 512-byte ring indexed by two 32-bit counters that wrap. */
module PipeBuffer {
  import opened Common
  import opened Pipes

  const WORD: nat := 0x1_0000_0000

  type Word = x: int | 0 <= x < WORD

  /** The ring size divides the counter's range, so a wrapped counter indexes the same slot. */
  lemma WrappedSlot(n: nat)
    ensures (n % WORD) % PIPESIZE == n % PIPESIZE
  {
    var q := n / WORD;
    assert n == q * WORD + n % WORD;
    assert q * WORD == (q * 8388608) * PIPESIZE;
    SlotShift(n % WORD, q * 8388608);
  }

  lemma {:induction false} SlotShift(r: nat, k: nat)
    ensures (k * PIPESIZE + r) % PIPESIZE == r % PIPESIZE
    decreases k
  {
    if k > 0 {
      SlotShift(r, k - 1);
      assert k * PIPESIZE + r == (k - 1) * PIPESIZE + r + PIPESIZE;
    }
  }

  lemma WrappedNext(n: nat)
    ensures (n % WORD + 1) % WORD == (n + 1) % WORD
  {
  }

  /** Wrapped counters compare as the true counts do. */
  lemma WrappedDistance(got: nat, sent: nat)
    requires got <= sent <= got + PIPESIZE
    ensures sent % WORD == got % WORD <==> sent == got
    ensures sent % WORD == (got % WORD + PIPESIZE) % WORD <==> sent == got + PIPESIZE
  {
  }

  /** Slots within one ring's length of each other are distinct. */
  lemma DistinctSlots(i: nat, j: nat)
    requires i < j < i + PIPESIZE
    ensures i % PIPESIZE != j % PIPESIZE
  {
  }

  /** The ring holds the bytes sent and not yet read, each at its number modulo the ring size. */
  ghost predicate Holds(ring: seq<Byte>, sent: seq<Byte>, got: nat)
  {
    |ring| == PIPESIZE && forall j :: got <= j < |sent| ==> ring[j % PIPESIZE] == sent[j]
  }

  lemma HoldsMore(ring: seq<Byte>, sent: seq<Byte>, got: nat, b: Byte)
    requires Holds(ring, sent, got) && got <= |sent| < got + PIPESIZE
    ensures Holds(ring[|sent| % PIPESIZE := b], sent + [b], got)
  {
    var ring' := ring[|sent| % PIPESIZE := b];
    forall j | got <= j < |sent| + 1
      ensures ring'[j % PIPESIZE] == (sent + [b])[j]
    {
      if j < |sent| {
        DistinctSlots(j, |sent|);
      }
    }
  }

  lemma HoldsLess(ring: seq<Byte>, sent: seq<Byte>, got: nat)
    requires Holds(ring, sent, got) && got < |sent|
    ensures |ring| == PIPESIZE && ring[got % PIPESIZE] == sent[got] && Holds(ring, sent, got + 1)
  {
  }

  class PipeBuffer {
    const data: array<Byte>
    var nread: Word
    var nwrite: Word
    var readopen: bool
    var writeopen: bool
    var readers: set<nat>
    var writers: set<nat>
    ghost var sent: seq<Byte>
    ghost var got: seq<Byte>

    ghost function Abs(): Pipe
      reads this
    {
      Pipe(sent, got, readopen, writeopen, readers, writers)
    }

    ghost predicate Valid()
      reads this, data
    {
      && data.Length == PIPESIZE && Fits(Abs())
      && nread == |got| % WORD && nwrite == |sent| % WORD
      && Holds(data[..], sent, |got|)
    }

    /** pipealloc. */
    constructor ()
      ensures Valid() && fresh(data) && Abs() == Init().pipe
    {
      data := new Byte[PIPESIZE](_ => 0);
      nread, nwrite, readopen, writeopen, readers, writers, sent, got := 0, 0, true, true, {}, {}, [], [];
    }

    method Put(b: Byte)
      requires Valid() && |sent| - |got| < PIPESIZE
      modifies data, `nwrite, `sent
      ensures Valid() && sent == old(sent) + [b]
    {
      hide Holds;
      WrappedSlot(|sent|);
      WrappedNext(|sent|);
      HoldsMore(data[..], sent, |got|, b);
      ghost var before := data[..];
      data[nwrite % PIPESIZE] := b;
      assert data[..] == before[|sent| % PIPESIZE := b];
      nwrite := (nwrite + 1) % WORD;
      sent := sent + [b];
    }

    method Get() returns (b: Byte)
      requires Valid() && |got| < |sent|
      modifies `nread, `got
      ensures Valid() && got == old(got) + [b] && b == sent[|old(got)|]
    {
      hide Holds;
      WrappedSlot(|got|);
      WrappedNext(|got|);
      HoldsLess(data[..], sent, |got|);
      b := data[nread % PIPESIZE];
      assert b == data[..][|got| % PIPESIZE];
      nread := (nread + 1) % WORD;
      got := got + [b];
    }

    /** pipewrite, from the call or from waking up at byte `from`, until it returns or sleeps. */
    method Write(me: nat, addr: seq<Byte>, from: nat, killed: bool) returns (r: Outcome, i: nat)
      requires Valid() && from <= |addr|
      modifies this, data
      ensures Valid() && Abs() == Written(old(Abs()), me, addr[from..], killed)
      ensures r == WriteOutcome(old(Abs()), |addr| - from, killed) && i == from + Accepts(old(Abs()), |addr| - from)
      ensures from <= i <= |addr| && sent == old(sent) + addr[from..i] && got == old(got)
      ensures r == Done <==> i == |addr|
      ensures i < |addr| ==> |sent| - |got| == PIPESIZE && (r == Failed <==> !readopen || killed) && (r == Asleep ==> me in writers)
    {
      hide Holds;
      i := from;
      ghost var room := PIPESIZE - (|sent| - |got|);
      while i < |addr|
        invariant Valid() && from <= i <= |addr| && i - from <= room
        invariant sent == old(sent) + addr[from..i]
        invariant got == old(got) && readopen == old(readopen) && writeopen == old(writeopen)
        invariant readers == old(readers) && writers == old(writers)
      {
        WrappedDistance(|got|, |sent|);
        if nwrite == (nread + PIPESIZE) % WORD {
          assert addr[from..][..i - from] == addr[from..i];
          if !readopen || killed {
            return Failed, i;
          }
          readers := {};
          writers := writers + {me};
          return Asleep, i;
        }
        Put(addr[i]);
        assert addr[from..i + 1] == addr[from..i] + [addr[i]];
        i := i + 1;
      }
      assert addr[from..][..i - from] == addr[from..i];
      readers := {};
      r := Done;
    }

    /** piperead's copy loop: up to n bytes, fewer if the pipe runs empty. */
    method Copy(n: nat) returns (addr: seq<Byte>)
      requires Valid()
      modifies `nread, `got
      ensures Valid() && |got| == |old(got)| + Min(n, |sent| - |old(got)|) && addr == sent[|old(got)|..|got|]
    {
      hide Holds;
      addr := [];
      while |addr| < n
        invariant Valid() && |addr| <= n && |got| == |old(got)| + |addr| <= |sent| && addr == sent[|old(got)|..|got|]
      {
        WrappedDistance(|got|, |sent|);
        if nread == nwrite {
          break;
        }
        var b := Get();
        addr := addr + [b];
      }
      WrappedDistance(|got|, |sent|);
    }

    /** piperead, from the call or from waking up, until it returns or sleeps. */
    method Read(me: nat, n: nat, killed: bool) returns (r: Outcome, addr: seq<Byte>)
      requires Valid()
      modifies this
      ensures Valid() && Abs() == AfterRead(old(Abs()), me, n, killed)
      ensures r == ReadOutcome(old(Abs()), killed)
      ensures addr == old(sent)[|old(got)|..|old(got)| + Takes(old(Abs()), n, killed)]
      ensures sent == old(sent) && got == old(got) + addr && |addr| <= n
      ensures r == Done ==> (|addr| < n ==> got == sent) && (addr == [] && n > 0 ==> !writeopen)
      ensures r != Done ==> got == sent && writeopen && addr == [] && (r == Failed <==> killed) && (r == Asleep ==> me in readers)
    {
      hide Holds;
      addr := [];
      WrappedDistance(|got|, |sent|);
      if nread == nwrite && writeopen {
        if killed {
          return Failed, [];
        }
        readers := readers + {me};
        return Asleep, [];
      }
      addr := Copy(n);
      assert got == sent[..|got|];
      writers := {};
      r := Done;
    }

    /** pipeclose. */
    method Close(writable: bool) returns (freed: bool)
      requires Valid()
      modifies this
      ensures Valid() && Abs() == Closed(old(Abs()), writable) && (freed <==> !readopen && !writeopen)
      ensures if writable then !writeopen && readers == {} else !readopen && writers == {}
    {
      if writable {
        writeopen := false;
        readers := {};
      } else {
        readopen := false;
        writers := {};
      }
      freed := !readopen && !writeopen;
    }
  }
}
