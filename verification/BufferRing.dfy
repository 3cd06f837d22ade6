/** bio.c as it runs: buffers linked through prev/next into one ring around a list head. */
module BufferRing {
  import opened Common
  import opened BufferCache

  class Node {
    const id: nat
    var dev: nat
    var blockno: nat
    var valid: bool
    var dirty: bool
    var held: bool       // the sleep lock
    var refcnt: nat
    var data: Data
    var prev: Node?
    var next: Node?

    constructor (id: nat)
      ensures this.id == id && Is(Buf(id, Key(0, 0), false, false, false, 0, 0, []))
    {
      this.id := id;
      dev, blockno, valid, dirty, held, refcnt, data := 0, 0, false, false, false, 0, [];
      prev, next := null, null;
    }

    /** A free buffer becomes another block's. */
    method Assign(dev: nat, blockno: nat, ghost b: Buf)
      requires Is(b) && Free(b)
      modifies this`dev, this`blockno, this`valid, this`dirty, this`refcnt
      ensures Is(Buf(b.id, Key(dev, blockno), false, false, false, 1, 0, b.data))
    {
      this.dev, this.blockno, valid, dirty, refcnt := dev, blockno, false, false, 1;
    }

    ghost predicate Is(b: Buf)
      reads this`dev, this`blockno, this`valid, this`dirty, this`held, this`refcnt, this`data
    {
      && id == b.id && dev == b.key.dev && blockno == b.key.blockno && valid == b.valid && dirty == b.dirty
      && held == b.held && refcnt == b.Refcnt() && data == b.data
    }
  }

  ghost predicate AllAre(ns: seq<Node>, bufs: seq<Buf>)
    reads ns`dev, ns`blockno, ns`valid, ns`dirty, ns`held, ns`refcnt, ns`data
  {
    |ns| == |bufs| && forall i :: 0 <= i < |ns| ==> ns[i].Is(bufs[i])
  }

  lemma AllMoved(ns: seq<Node>, bufs: seq<Buf>, i: nat)
    requires AllAre(ns, bufs) && i < |ns|
    ensures AllAre([ns[i]] + ns[..i] + ns[i + 1..], ToFront(bufs, i))
  {
  }

  /** Taking a node out and putting it after the head moves it to the front. */
  lemma Spliced(was: seq<Node>, i: nat)
    requires i + 1 < |was|
    ensures var now := [was[0], was[i + 1]] + (was[..i + 1] + was[i + 2..])[1..];
            && now == [was[0], was[i + 1]] + was[1..i + 1] + was[i + 2..]
            && now[1..] == [was[1..][i]] + was[1..][..i] + was[1..][i + 1..]
  {
    assert (was[..i + 1] + was[i + 2..])[1..] == was[1..i + 1] + was[i + 2..];
    assert was[1..][..i] == was[1..i + 1] && was[1..][i + 1..] == was[i + 2..];
  }

  /** bcache. The methods are told which value the ring shows and say which it shows afterwards. */
  class Ring {
    const head: Node
    ghost var nodes: seq<Node>    // the ring from the head on, most recently used first
    var disk: map<Key, Data>

    /** One cycle: following `next` from the head meets every node once and returns to the head, and
        `prev` leads back the same way. */
    ghost predicate Linked()
      reads this`nodes, nodes`prev, nodes`next
    {
      && |nodes| >= 1 && nodes[0] == head
      && (forall i, j :: 0 <= i < j < |nodes| ==> nodes[i] != nodes[j])
      && (forall i :: 0 <= i < |nodes| - 1 ==> nodes[i].next == nodes[i + 1])
      && (forall i :: 1 <= i < |nodes| ==> nodes[i].prev == nodes[i - 1])
      && nodes[|nodes| - 1].next == head && head.prev == nodes[|nodes| - 1]
    }

    ghost predicate Shows(c: Cache)
      reads this, nodes
    {
      Linked() && disk == c.disk && AllAre(nodes[1..], c.bufs)
    }

    /** binit. */
    constructor (disk: map<Key, Data>)
      ensures Shows(Start(disk))
      ensures forall i :: 0 <= i < |nodes| ==> fresh(nodes[i])
    {
      var h := new Node(NBUF);
      head := h;
      nodes := [h];
      this.disk := disk;
      new;
      head.prev := head;
      head.next := head;
      LinkAll();
    }

    /** binit's loop: each buffer is linked in right after the head. */
    method LinkAll()
      requires Linked() && nodes == [head]
      modifies this`nodes, head`prev, head`next
      ensures Linked() && |nodes| == NBUF + 1 && forall i :: 1 <= i < |nodes| ==> fresh(nodes[i])
      ensures forall i {:trigger nodes[i]} :: 1 <= i <= NBUF ==> nodes[i].Is(Buf(NBUF - i, Key(0, 0), false, false, false, 0, 0, []))
    {
      hide Linked, Node.Is;
      var k := 0;
      while k < NBUF
        invariant k <= NBUF && Linked() && |nodes| == k + 1 && nodes[0] == head
        invariant forall i :: 1 <= i < |nodes| ==> fresh(nodes[i])
        invariant forall i {:trigger nodes[i]} :: 1 <= i <= k ==> nodes[i].Is(Buf(k - i, Key(0, 0), false, false, false, 0, 0, []))
      {
        var b := new Node(k);
        PushFront(b);
        k := k + 1;
      }
    }

    /** Take the node at position i out of the ring. */
    method Unlink(b: Node, ghost i: nat)
      requires Linked() && 1 <= i < |nodes| && nodes[i] == b
      modifies this`nodes, nodes`prev, nodes`next
      ensures nodes == old(nodes)[..i] + old(nodes)[i + 1..] && Linked()
    {
      ghost var after := if i + 1 == |nodes| then head else nodes[i + 1];
      assert b.next == after && b.prev == nodes[i - 1];
      b.next.prev := b.prev;
      b.prev.next := b.next;
      nodes := nodes[..i] + nodes[i + 1..];
    }

    /** Put a node right after the head. */
    method PushFront(b: Node)
      requires Linked() && b !in nodes
      modifies this`nodes, nodes`prev, nodes`next, b`prev, b`next
      ensures nodes == [head, b] + old(nodes)[1..] && Linked()
    {
      ghost var after := if |nodes| == 1 then head else nodes[1];
      assert head.next == after;
      b.next := head.next;
      b.prev := head;
      head.next.prev := b;
      head.next := b;
      nodes := [head, b] + nodes[1..];
    }

    /** bget's first loop: the most recently used buffer of the block, or null. */
    method FindBlock(dev: nat, blockno: nat, ghost c: Cache) returns (b: Node?, ghost i: nat)
      requires Shows(c)
      ensures b != null ==> IsFirst(c.bufs, Key(dev, blockno), i) && nodes[i + 1] == b
      ensures b == null ==> forall j :: 0 <= j < |c.bufs| ==> c.bufs[j].key != Key(dev, blockno)
    {
      b := head.next;
      i := 0;
      while b != head
        invariant i <= |c.bufs| && b == if i == |c.bufs| then head else nodes[i + 1]
        invariant forall j :: 0 <= j < i ==> c.bufs[j].key != Key(dev, blockno)
        decreases |c.bufs| - i
      {
        assert nodes[1..][i].Is(c.bufs[i]);
        if b.dev == dev && b.blockno == blockno {
          return;
        }
        b, i := b.next, i + 1;
      }
      b := null;
    }

    /** bget's second loop: the least recently used free buffer, or null. */
    method FindFree(ghost c: Cache) returns (b: Node?, ghost i: nat)
      requires Shows(c)
      ensures b != null ==> IsVictim(c.bufs, i) && nodes[i + 1] == b
      ensures b == null ==> forall j :: 0 <= j < |c.bufs| ==> !Free(c.bufs[j])
    {
      b := head.prev;
      i := |c.bufs|;
      while b != head
        invariant i <= |c.bufs| && b == nodes[i]
        invariant forall j :: i <= j < |c.bufs| ==> !Free(c.bufs[j])
        decreases i
      {
        i := i - 1;
        assert nodes[1..][i].Is(c.bufs[i]);
        if b.refcnt == 0 && !b.dirty {
          return;
        }
        b := b.prev;
      }
      b := null;
    }

    /** bget under the cache lock: find the block, else recycle the least recently used free buffer.
        A null result is the panic "no buffers". */
    method Bget(dev: nat, blockno: nat, ghost c: Cache) returns (b: Node?, ghost i: nat)
      requires Shows(c)
      modifies nodes`dev, nodes`blockno, nodes`valid, nodes`dirty, nodes`refcnt
      ensures b == null ==>
                && Shows(c)
                && forall j :: 0 <= j < |c.bufs| ==> c.bufs[j].key != Key(dev, blockno) && !Free(c.bufs[j])
      ensures b != null ==>
                && i < |c.bufs| && nodes[i + 1] == b
                && if exists j :: 0 <= j < |c.bufs| && c.bufs[j].key == Key(dev, blockno)
                   then IsFirst(c.bufs, Key(dev, blockno), i) && Shows(Hit(c, i))
                   else IsVictim(c.bufs, i) && Shows(Recycle(c, Key(dev, blockno), i))
    {
      b, i := FindBlock(dev, blockno, c);
      if b != null {
        Reference(b, i, c);
        return;
      }
      b, i := FindFree(c);
      if b != null {
        Reassign(b, dev, blockno, i, c);
      }
    }

    method Reference(b: Node, ghost i: nat, ghost c: Cache)
      requires Shows(c) && i < |c.bufs| && nodes[i + 1] == b
      modifies b`refcnt
      ensures Shows(Hit(c, i))
    {
      assert nodes[1..][i].Is(c.bufs[i]);
      b.refcnt := b.refcnt + 1;
    }

    method Reassign(b: Node, dev: nat, blockno: nat, ghost i: nat, ghost c: Cache)
      requires Shows(c) && i < |c.bufs| && nodes[i + 1] == b && Free(c.bufs[i])
      modifies b`dev, b`blockno, b`valid, b`dirty, b`refcnt
      ensures Shows(Recycle(c, Key(dev, blockno), i))
    {
      ghost var ns := nodes[1..];
      assert forall j :: 0 <= j < |ns| && j != i ==> ns[j] != b;
      hide Linked, Node.Is, Free;
      b.Assign(dev, blockno, c.bufs[i]);
    }

    /** acquiresleep on a free sleep lock, by a client that bget counted. */
    method Acquire(b: Node, ghost i: nat, ghost c: Cache)
      requires Shows(c) && i < |c.bufs| && nodes[i + 1] == b && !b.held && c.bufs[i].waiting > 0
      modifies b`held
      ensures Shows(Lock(c, i))
    {
      b.held := true;
    }

    /** iderw, as memide.c does it at once. */
    method Iderw(b: Node, ghost i: nat, ghost c: Cache)
      requires Shows(c) && i < |c.bufs| && nodes[i + 1] == b && c.bufs[i].key in disk
      modifies b`valid, b`dirty, b`data, this`disk
      ensures Shows(Transfer(c, i))
    {
      assert nodes[1..][i].Is(c.bufs[i]);
      assert forall j :: 0 <= j < |nodes[1..]| && j != i ==> nodes[1..][j] != b;
      hide Linked;
      if b.dirty {
        b.dirty := false;
        disk := disk[Key(b.dev, b.blockno) := b.data];
      } else {
        b.data := disk[Key(b.dev, b.blockno)];
      }
      b.valid := true;
    }

    /** bread once the buffer is locked: read the block unless the buffer is valid. */
    method Bread(b: Node, ghost i: nat, ghost c: Cache)
      requires Shows(c) && i < |c.bufs| && nodes[i + 1] == b && b.held && c.bufs[i].key in disk
      modifies b`valid, b`dirty, b`data, this`disk
      ensures Shows(if c.bufs[i].valid then c else Transfer(c, i))
    {
      assert nodes[1..][i].Is(c.bufs[i]);
      if !b.valid {
        Iderw(b, i, c);
      }
    }

    method Bwrite(b: Node, ghost i: nat, ghost c: Cache)
      requires Shows(c) && i < |c.bufs| && nodes[i + 1] == b && b.held && c.bufs[i].key in disk
      modifies b`valid, b`dirty, b`data, this`disk
      ensures Shows(Transfer(SetDirty(c, i), i))
    {
      b.dirty := true;
      Iderw(b, i, SetDirty(c, i));
    }

    /** Relink the node at position i to come right after the head. */
    method Relink(b: Node, ghost i: nat)
      requires Linked() && 1 <= i < |nodes| && nodes[i] == b
      modifies this`nodes, nodes`prev, nodes`next
      ensures nodes == [head, b] + (old(nodes)[..i] + old(nodes)[i + 1..])[1..] && Linked()
    {
      Unlink(b, i);
      PushFront(b);
    }

    /** Move a buffer to the head of the list. */
    method MoveToFront(b: Node, ghost i: nat, ghost c: Cache)
      requires Shows(c) && i < |c.bufs| && nodes[i + 1] == b
      modifies this`nodes, nodes`prev, nodes`next
      ensures Shows(c.(bufs := ToFront(c.bufs, i)))
      ensures nodes == [head, b] + old(nodes)[1..i + 1] + old(nodes)[i + 2..]
    {
      ghost var ns := [nodes[1..][i]] + nodes[1..][..i] + nodes[1..][i + 1..];
      AllMoved(nodes[1..], c.bufs, i);
      Spliced(nodes, i);
      Relink(b, i + 1);
      assert AllAre(ns, ToFront(c.bufs, i));
    }

    /** releasesleep, at the start of brelse. */
    method ReleaseSleep(b: Node, ghost i: nat, ghost c: Cache)
      requires Shows(c) && i < |c.bufs| && nodes[i + 1] == b && b.held
      modifies b`held
      ensures Shows(Unlock(c, i))
    {
      assert nodes[1..][i].Is(c.bufs[i]);
      b.held := false;
    }

    method Unreference(b: Node, ghost i: nat, ghost c: Cache)
      requires Shows(c) && i < |c.bufs| && nodes[i + 1] == b && c.bufs[i].leaving > 0
      modifies b`refcnt
      ensures var d := c.bufs[i].(leaving := c.bufs[i].leaving - 1);
              Shows(c.(bufs := c.bufs[i := d])) && b.refcnt == d.Refcnt()
    {
      assert nodes[1..][i].Is(c.bufs[i]);
      b.refcnt := b.refcnt - 1;
    }

    /** The rest of brelse: the ring stays one cycle of all the buffers, reordered as `Drop` says. */
    method Brelse(b: Node, ghost i: nat, ghost c: Cache)
      requires Shows(c) && i < |c.bufs| && nodes[i + 1] == b && c.bufs[i].leaving > 0
      modifies this`nodes, nodes`prev, nodes`next, b`refcnt
      ensures Shows(Drop(c, i))
      ensures multiset(nodes) == multiset(old(nodes))
    {
      Unreference(b, i, c);
      ghost var d := c.(bufs := c.bufs[i := c.bufs[i].(leaving := c.bufs[i].leaving - 1)]);
      if b.refcnt == 0 {
        MovedMultiset(nodes, i);
        MoveToFront(b, i, d);
      }
    }

    static lemma MovedMultiset(was: seq<Node>, i: nat)
      requires i + 1 < |was|
      ensures multiset([was[0], was[i + 1]] + was[1..i + 1] + was[i + 2..]) == multiset(was)
    {
      assert was == [was[0]] + was[1..i + 1] + [was[i + 1]] + was[i + 2..];
    }
  }
}
