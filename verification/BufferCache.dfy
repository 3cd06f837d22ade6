/** The buffer cache of bio.c on values: the buffers in most-recently-used order above a disk.

    The steps are the sections of bio.c that run under the cache lock, the transfers to and from the
    disk, and what a client may do with a buffer it holds locked. */
module BufferCache {
  import opened Common

  const NBUF: nat := 30

  /** struct buf. `waiting` clients have asked for the buffer and not got its lock yet, `leaving` ones have
      given the lock up in brelse and not their reference; refcnt is those and the client that holds the lock. */
  datatype Buf = Buf(id: nat, key: Key, valid: bool, dirty: bool, held: bool, waiting: nat, leaving: nat, data: Data) {
    function Refcnt(): nat {
      waiting + leaving + if held then 1 else 0
    }
  }

  datatype Cache = Cache(bufs: seq<Buf>, disk: map<Key, Data>)

  // ---------- operations ----------

  /** binit: every buffer starts as block 0 of device 0, not valid; the last one linked is first. */
  function Start(disk: map<Key, Data>): Cache {
    Cache(seq(NBUF, i requires 0 <= i < NBUF => Buf(NBUF - 1 - i, Key(0, 0), false, false, false, 0, 0, [])), disk)
  }

  predicate IsFirst(bufs: seq<Buf>, key: Key, i: nat) {
    i < |bufs| && bufs[i].key == key && forall j :: 0 <= j < i ==> bufs[j].key != key
  }

  predicate Free(b: Buf) {
    b.Refcnt() == 0 && !b.dirty
  }

  predicate IsVictim(bufs: seq<Buf>, i: nat) {
    i < |bufs| && Free(bufs[i]) && forall j :: i < j < |bufs| ==> !Free(bufs[j])
  }

  /** bget found the block at position i. */
  function Hit(c: Cache, i: nat): Cache
    requires i < |c.bufs|
  {
    c.(bufs := c.bufs[i := c.bufs[i].(waiting := c.bufs[i].waiting + 1)])
  }

  /** bget recycles the buffer at position i. */
  function Recycle(c: Cache, key: Key, i: nat): Cache
    requires i < |c.bufs|
  {
    c.(bufs := c.bufs[i := Buf(c.bufs[i].id, key, false, false, false, 1, 0, c.bufs[i].data)])
  }

  /** acquiresleep succeeded. */
  function Lock(c: Cache, i: nat): Cache
    requires i < |c.bufs| && c.bufs[i].waiting > 0
  {
    c.(bufs := c.bufs[i := c.bufs[i].(waiting := c.bufs[i].waiting - 1, held := true)])
  }

  /** iderw: write a dirty buffer, else read it. */
  function Transfer(c: Cache, i: nat): Cache
    requires i < |c.bufs| && c.bufs[i].key in c.disk
  {
    var b := c.bufs[i];
    if b.dirty then Cache(c.bufs[i := b.(valid := true, dirty := false)], c.disk[b.key := b.data])
    else Cache(c.bufs[i := b.(valid := true, data := c.disk[b.key])], c.disk)
  }

  function SetDirty(c: Cache, i: nat): Cache
    requires i < |c.bufs|
  {
    c.(bufs := c.bufs[i := c.bufs[i].(dirty := true)])
  }

  function SetData(c: Cache, i: nat, x: Data): Cache
    requires i < |c.bufs|
  {
    c.(bufs := c.bufs[i := c.bufs[i].(data := x)])
  }

  function ToFront(bufs: seq<Buf>, i: nat): (r: seq<Buf>)
    requires i < |bufs|
    ensures |r| == |bufs|
  {
    [bufs[i]] + bufs[..i] + bufs[i + 1..]
  }

  /** brelse gives up the lock; from here on another client may take it. */
  function Unlock(c: Cache, i: nat): Cache
    requires i < |c.bufs|
  {
    c.(bufs := c.bufs[i := c.bufs[i].(held := false, leaving := c.bufs[i].leaving + 1)])
  }

  /** Then it gives up the reference; the last reference moves the buffer to the front. */
  function Drop(c: Cache, i: nat): Cache
    requires i < |c.bufs| && c.bufs[i].leaving > 0
  {
    var bufs := c.bufs[i := c.bufs[i].(leaving := c.bufs[i].leaving - 1)];
    c.(bufs := if bufs[i].Refcnt() == 0 then ToFront(bufs, i) else bufs)
  }

  // ---------- steps ----------

  datatype Step =
    | Get(key: Key, i: nat)     // bget; i is the buffer it settles on
    | Acquire(i: nat)
    | Fill(i: nat)              // bread finds the buffer not valid
    | Modify(i: nat, x: Data)   // the client changes the contents
    | Pin(i: nat)               // log_write
    | Sync(i: nat)              // bwrite
    | Release(i: nat)           // releasesleep in brelse
    | Put(i: nat)               // brelse's section under the cache lock

  ghost predicate Enabled(c: Cache, step: Step) {
    match step
    case Get(key, i) =>
      && key.dev >= 1 && key in c.disk
      && (IsFirst(c.bufs, key, i) || ((forall j :: 0 <= j < |c.bufs| ==> c.bufs[j].key != key) && IsVictim(c.bufs, i)))
    case Acquire(i) => i < |c.bufs| && c.bufs[i].waiting > 0 && !c.bufs[i].held
    case Fill(i) => i < |c.bufs| && c.bufs[i].held && !c.bufs[i].valid
    case Modify(i, _) => i < |c.bufs| && c.bufs[i].held && c.bufs[i].valid
    case Pin(i) => i < |c.bufs| && c.bufs[i].held && c.bufs[i].valid
    case Sync(i) => i < |c.bufs| && c.bufs[i].held && c.bufs[i].valid
    case Release(i) =>
      && i < |c.bufs| && c.bufs[i].held && c.bufs[i].valid
      // "After changing buffer data, call bwrite" or log_write
      && (c.bufs[i].dirty || (c.bufs[i].key in c.disk && c.bufs[i].data == c.disk[c.bufs[i].key]))
    case Put(i) => i < |c.bufs| && c.bufs[i].leaving > 0
  }

  /** Held and awaited buffers belong to blocks the clients asked for. */
  ghost predicate Keyed(c: Cache) {
    forall b :: b in c.bufs && (b.Refcnt() > 0 || b.dirty || b.valid) ==> b.key.dev >= 1 && b.key in c.disk
  }

  ghost function Next(c: Cache, step: Step): Cache
    requires Enabled(c, step) && Keyed(c)
  {
    match step
    case Get(key, i) => if c.bufs[i].key == key then Hit(c, i) else Recycle(c, key, i)
    case Acquire(i) => Lock(c, i)
    case Fill(i) => Transfer(c, i)
    case Modify(i, x) => SetData(c, i, x)
    case Pin(i) => SetDirty(c, i)
    case Sync(i) => Transfer(SetDirty(c, i), i)
    case Release(i) => Unlock(c, i)
    case Put(i) => Drop(c, i)
  }

  // ---------- the cache against the map of latest writes ----------

  /** The abstract state: for every block the contents last given to it, and the blocks log_write has
      pinned and bwrite has not written yet. */
  datatype Spec = Spec(latest: map<Key, Data>, pinned: set<Key>)

  ghost function NextSpec(c: Cache, a: Spec, step: Step): Spec
    requires Enabled(c, step)
  {
    match step
    case Modify(i, x) => a.(latest := a.latest[c.bufs[i].key := x])
    case Pin(i) => a.(pinned := a.pinned + {c.bufs[i].key})
    case Sync(i) => a.(pinned := a.pinned - {c.bufs[i].key})
    case _ => a
  }

  /** At most one buffer per block (of a real device). */
  ghost predicate Unique(c: Cache) {
    forall i, j :: 0 <= i < j < |c.bufs| && c.bufs[i].key.dev >= 1 ==> c.bufs[i].key != c.bufs[j].key
  }

  /** Which contents a buffer shows, given its flags. */
  ghost predicate Coherent(c: Cache, latest: map<Key, Data>, b: Buf) {
    && (b.valid ==> b.key in latest && b.key in c.disk && b.data == latest[b.key])
    && (b.valid && !b.held && !b.dirty ==> b.data == c.disk[b.key])
    && (b.dirty ==> b.valid)
    && (!b.valid && b.key.dev >= 1 ==> b.key in latest && b.key in c.disk && latest[b.key] == c.disk[b.key])
  }

  ghost predicate Cached(c: Cache, key: Key) {
    exists b :: b in c.bufs && b.key == key
  }

  ghost predicate Pinned(c: Cache, key: Key) {
    exists b :: b in c.bufs && b.key == key && b.valid && b.dirty
  }

  ghost predicate Refines(c: Cache, a: Spec) {
    && |c.bufs| == NBUF && Keyed(c) && Unique(c)
    && a.latest.Keys == c.disk.Keys
    && (forall b :: b in c.bufs ==> Coherent(c, a.latest, b))
    && (forall key :: key in c.disk && key.dev >= 1 && !Cached(c, key) ==> a.latest[key] == c.disk[key])
    && (forall key :: key in a.pinned ==> Pinned(c, key))
    && (forall b :: b in c.bufs && b.dirty ==> b.key in a.pinned)
  }

  lemma StartRefines(disk: map<Key, Data>)
    ensures Refines(Start(disk), Spec(disk, {}))
  {
  }

  /** One buffer replaced by another for the same block: the same blocks are cached, and those of the
      other buffers stay pinned. */
  lemma ReplaceKeeps(c: Cache, d: Cache, i: nat, key: Key)
    requires i < |c.bufs| == |d.bufs| && d.bufs == c.bufs[i := d.bufs[i]]
    ensures d.bufs[i].key == c.bufs[i].key && Cached(c, key) ==> Cached(d, key)
    ensures Cached(c, key) && c.bufs[i].key != key ==> Cached(d, key)
    ensures Pinned(c, key) && c.bufs[i].key != key ==> Pinned(d, key)
    ensures Pinned(c, key) && Free(c.bufs[i]) ==> Pinned(d, key)
  {
    forall b | b in c.bufs
      ensures b in d.bufs || b == c.bufs[i]
    {
      var j :| 0 <= j < |c.bufs| && c.bufs[j] == b;
      assert j != i ==> d.bufs[j] == b;
    }
    assert d.bufs[i] in d.bufs;
  }

  lemma MemberAfterReplace(c: Cache, d: Cache, i: nat, b: Buf)
    requires i < |c.bufs| == |d.bufs| && d.bufs == c.bufs[i := d.bufs[i]]
    requires b in d.bufs && b != d.bufs[i]
    ensures exists j :: 0 <= j < |c.bufs| && j != i && c.bufs[j] == b
    ensures b in c.bufs
  {
    var j :| 0 <= j < |d.bufs| && d.bufs[j] == b;
    assert c.bufs[j] == b;
  }

  /** Changing flags or contents of one buffer, and the disk and latest contents of its block only. */
  lemma SameBlock(c: Cache, a: Spec, d: Cache, s: Spec, i: nat)
    requires Refines(c, a) && i < |c.bufs| == |d.bufs| && d.bufs == c.bufs[i := d.bufs[i]]
    requires d.bufs[i].key == c.bufs[i].key && c.bufs[i].key.dev >= 1 && c.bufs[i].key in c.disk
    requires d.disk.Keys == c.disk.Keys && s.latest.Keys == a.latest.Keys
    requires forall key :: key in c.disk && key != c.bufs[i].key ==>
               d.disk[key] == c.disk[key] && s.latest[key] == a.latest[key]
    requires Coherent(d, s.latest, d.bufs[i])
    requires forall key :: key in s.pinned && key != c.bufs[i].key ==> key in a.pinned
    requires forall key :: key in a.pinned && key != c.bufs[i].key ==> key in s.pinned
    requires c.bufs[i].key in s.pinned ==> d.bufs[i].valid && d.bufs[i].dirty
    requires d.bufs[i].dirty ==> c.bufs[i].key in s.pinned
    ensures Refines(d, s)
  {
    forall b | b in d.bufs && b != d.bufs[i]
      ensures Coherent(d, s.latest, b) && b in c.bufs
    {
      MemberAfterReplace(c, d, i, b);
    }
    forall key | key in d.disk && key.dev >= 1 && !Cached(d, key)
      ensures s.latest[key] == d.disk[key]
    {
      ReplaceKeeps(c, d, i, key);
      assert c.bufs[i] in c.bufs;
    }
    forall key | key in s.pinned
      ensures Pinned(d, key)
    {
      ReplaceKeeps(c, d, i, key);
      assert d.bufs[i] in d.bufs;
    }
  }

  /** Recycling an unreferenced clean buffer loses nothing: its contents are on the disk. */
  lemma RecycleRefines(c: Cache, a: Spec, key: Key, i: nat)
    requires Refines(c, a) && Enabled(c, Get(key, i)) && c.bufs[i].key != key
    ensures Refines(Recycle(c, key, i), a)
  {
    var d := Recycle(c, key, i);
    assert !Cached(c, key);
    forall b | b in d.bufs && b != d.bufs[i]
      ensures Coherent(d, a.latest, b) && b in c.bufs
    {
      MemberAfterReplace(c, d, i, b);
    }
    forall k | k in d.disk && k.dev >= 1 && !Cached(d, k)
      ensures a.latest[k] == d.disk[k]
    {
      ReplaceKeeps(c, d, i, k);
      assert Coherent(c, a.latest, c.bufs[i]);
    }
    forall k | k in a.pinned
      ensures Pinned(d, k)
    {
      ReplaceKeeps(c, d, i, k);
    }
  }

  lemma FrontMembers(bufs: seq<Buf>, i: nat, b: Buf)
    requires i < |bufs|
    ensures b in ToFront(bufs, i) <==> b in bufs
  {
    assert bufs == bufs[..i] + [bufs[i]] + bufs[i + 1..];
  }

  lemma FrontUnique(c: Cache, i: nat)
    requires Unique(c) && i < |c.bufs|
    ensures Unique(c.(bufs := ToFront(c.bufs, i)))
  {
    var bufs := ToFront(c.bufs, i);
    assert forall j :: 0 <= j < |bufs| ==> bufs[j] == c.bufs[if j == 0 then i else if j <= i then j - 1 else j];
  }

  /** Reordering the buffers changes nothing a client can see. */
  lemma ReorderRefines(c: Cache, a: Spec, i: nat)
    requires Refines(c, a) && i < |c.bufs|
    ensures Refines(c.(bufs := ToFront(c.bufs, i)), a)
  {
    var d := c.(bufs := ToFront(c.bufs, i));
    FrontUnique(c, i);
    forall b
      ensures b in d.bufs <==> b in c.bufs
    {
      FrontMembers(c.bufs, i, b);
    }
    assert forall k :: Cached(c, k) ==> Cached(d, k);
    assert forall k :: Pinned(c, k) ==> Pinned(d, k);
  }

  lemma PinnedHere(c: Cache, a: Spec, i: nat)
    requires Refines(c, a) && i < |c.bufs| && c.bufs[i].key.dev >= 1
    ensures c.bufs[i].key in a.pinned ==> c.bufs[i].valid && c.bufs[i].dirty
  {
    if c.bufs[i].key in a.pinned {
      var b :| b in c.bufs && b.key == c.bufs[i].key && b.valid && b.dirty;
      var j :| 0 <= j < |c.bufs| && c.bufs[j] == b;
      assert i == j;
    }
  }

  /** Every step of the cache is a step of the map of latest writes. */
  lemma StepRefines(c: Cache, a: Spec, step: Step)
    requires Refines(c, a) && Enabled(c, step)
    ensures Refines(Next(c, step), NextSpec(c, a, step))
  {
    var i := step.i;
    assert c.bufs[i] in c.bufs && Coherent(c, a.latest, c.bufs[i]);
    if step.Get? && c.bufs[i].key != step.key {
      RecycleRefines(c, a, step.key, i);
    } else {
      PinnedHere(c, a, i);
      if step.Put? {
        var e := c.(bufs := c.bufs[i := c.bufs[i].(leaving := c.bufs[i].leaving - 1)]);
        SameBlock(c, a, e, a, i);
        ReorderRefines(e, a, i);
      } else {
        SameBlock(c, a, Next(c, step), NextSpec(c, a, step), i);
      }
    }
  }

  // ---------- runs ----------

  /** A run of the cache from c to d, with the abstract state going from a to b. */
  ghost predicate Runs(c: Cache, a: Spec, steps: seq<Step>, d: Cache, b: Spec)
    decreases |steps|
  {
    if steps == [] then c == d && a == b
    else Keyed(c) && Enabled(c, steps[0]) && Runs(Next(c, steps[0]), NextSpec(c, a, steps[0]), steps[1..], d, b)
  }

  lemma {:induction false} RunRefines(c: Cache, a: Spec, steps: seq<Step>, d: Cache, b: Spec)
    requires Refines(c, a) && Runs(c, a, steps, d, b)
    ensures Refines(d, b)
    decreases |steps|
  {
    if steps != [] {
      StepRefines(c, a, steps[0]);
      RunRefines(Next(c, steps[0]), NextSpec(c, a, steps[0]), steps[1..], d, b);
    }
  }

  /** In every run: at most one buffer per block, a locked valid buffer shows the latest contents of its
      block, what bread is about to read from the disk is the latest contents too, and a block that
      log_write pinned is still cached, its buffer no candidate for recycling. */
  lemma CacheIsTransparent(disk: map<Key, Data>, steps: seq<Step>, c: Cache, a: Spec, i: nat)
    requires Runs(Start(disk), Spec(disk, {}), steps, c, a) && i < |c.bufs|
    ensures Unique(c)
    ensures c.bufs[i].valid ==> c.bufs[i].key in a.latest && c.bufs[i].data == a.latest[c.bufs[i].key]
    ensures Enabled(c, Fill(i)) ==>
              c.bufs[i].key in a.latest && c.bufs[i].key in c.disk && c.disk[c.bufs[i].key] == a.latest[c.bufs[i].key]
    ensures forall key :: key in a.pinned ==>
              exists b :: b in c.bufs && b.key == key && !Free(b) && key in a.latest && b.data == a.latest[key]
    ensures c.bufs[i].key in a.pinned && c.bufs[i].key.dev >= 1 ==> !IsVictim(c.bufs, i)
  {
    StartRefines(disk);
    RunRefines(Start(disk), Spec(disk, {}), steps, c, a);
    assert c.bufs[i] in c.bufs && Coherent(c, a.latest, c.bufs[i]);
    if c.bufs[i].key.dev >= 1 {
      PinnedHere(c, a, i);
    }
    forall key | key in a.pinned
      ensures exists b :: b in c.bufs && b.key == key && !Free(b) && key in a.latest && b.data == a.latest[key]
    {
      var b :| b in c.bufs && b.key == key && b.valid && b.dirty;
      assert Coherent(c, a.latest, b);
    }
  }
}
