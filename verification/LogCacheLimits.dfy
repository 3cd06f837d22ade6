/** What NBUF buffers let the log do: runs of the log carried out through the cache, the run that breaks
    atomicity when the log is smaller than the cache, and the commit that finds no buffer. */
module LogCacheLimits {
  import opened Common
  import opened Log
  import opened LogCache
  import G = GroupCommit
  import S = GroupCommitSafety
  import B = BufferCache

  // ---------- clients getting and giving back buffers ----------

  ghost predicate UseRuns(c: B.Cache, us: seq<B.Step>, d: B.Cache)
    decreases |us|
  {
    if us == [] then d == c
    else IsUse(us[0]) && B.Enabled(c, us[0]) && B.Keyed(c) && UseRuns(B.Next(c, us[0]), us[1..], d)
  }

  /** bget, bread and brelse, by any number of clients, lead from c to d. */
  ghost predicate Uses(c: B.Cache, d: B.Cache) {
    exists us :: UseRuns(c, us, d)
  }

  lemma UsesSelf(c: B.Cache)
    ensures Uses(c, c)
  {
    assert UseRuns(c, [], c);
  }

  lemma UsesFirst(c: B.Cache, use: B.Step, d: B.Cache)
    requires IsUse(use) && B.Enabled(c, use) && B.Keyed(c) && Uses(B.Next(c, use), d)
    ensures Uses(c, d)
  {
    var us :| UseRuns(B.Next(c, use), us, d);
    assert ([use] + us)[1..] == us;
    assert UseRuns(c, [use] + us, d);
  }

  lemma {:induction false} UseRunsJoin(c: B.Cache, us: seq<B.Step>, m: B.Cache, vs: seq<B.Step>, d: B.Cache)
    requires UseRuns(c, us, m) && UseRuns(m, vs, d)
    ensures UseRuns(c, us + vs, d)
    decreases |us|
  {
    hide B.Next, B.Enabled, B.Keyed;
    if us == [] {
      assert us + vs == vs;
    } else {
      UseRunsJoin(B.Next(c, us[0]), us[1..], m, vs, d);
      assert (us + vs)[1..] == us[1..] + vs;
    }
  }

  lemma UsesTrans(c: B.Cache, m: B.Cache, d: B.Cache)
    requires Uses(c, m) && Uses(m, d)
    ensures Uses(c, d)
  {
    var us :| UseRuns(c, us, m);
    var vs :| UseRuns(m, vs, d);
    UseRunsJoin(c, us, m, vs, d);
  }

  lemma {:induction false} UseRunsReach(g: Geometry, s: G.State, c: B.Cache, us: seq<B.Step>, d: B.Cache)
    requires UseRuns(c, us, d)
    ensures Reaches(g, s, c, s, d)
    decreases |us|
  {
    if us == [] {
      ReachesSelf(g, s, c);
    } else {
      var n := B.Next(c, us[0]);
      assert Steps(g, s, c, Use(us[0]), s, n);
      hide B.Next, B.Enabled, Steps;
      UseRunsReach(g, s, n, us[1..], d);
      ReachesStep(g, s, c, Use(us[0]), s, n);
      ReachesTrans(g, s, c, s, n, s, d);
    }
  }

  lemma UsesReach(g: Geometry, s: G.State, c: B.Cache, d: B.Cache)
    requires Uses(c, d)
    ensures Reaches(g, s, c, s, d)
  {
    var us :| UseRuns(c, us, d);
    UseRunsReach(g, s, c, us, d);
  }

  lemma {:induction false} UseRunsJoined(s: G.State, c: B.Cache, us: seq<B.Step>, d: B.Cache)
    requires Joined(s, c) && UseRuns(c, us, d)
    ensures Joined(s, d)
    decreases |us|
  {
    if us != [] {
      UseJoins(s, c, us[0]);
      hide Joined;
      UseRunsJoined(s, B.Next(c, us[0]), us[1..], d);
    }
  }

  // ---------- getting a buffer ----------

  /** No client has a reference to any buffer. */
  ghost predicate Idle(c: B.Cache) {
    forall i :: 0 <= i < |c.bufs| ==> c.bufs[i].Refcnt() == 0
  }

  ghost predicate Releasable(c: B.Cache, b: B.Buf) {
    && b.waiting == 0 && b.leaving == 0
    && (b.held ==> b.valid && (b.dirty || (b.key in c.disk && b.data == c.disk[b.key])))
  }

  /** Whoever has a buffer holds its lock and may release it. */
  ghost predicate Calm(c: B.Cache) {
    forall i :: 0 <= i < |c.bufs| ==> Releasable(c, c.bufs[i])
  }

  lemma {:induction false} LastFree(bufs: seq<B.Buf>, j: nat) returns (i: nat)
    requires j < |bufs| && B.Free(bufs[j])
    ensures B.IsVictim(bufs, i)
  {
    var n := |bufs| - 1;
    if B.Free(bufs[n]) {
      i := n;
    } else {
      i := LastFree(bufs[..n], j);
    }
  }

  /** The buffer bget settles on for block b. */
  lemma Settles(c: B.Cache, a: B.Spec, b: nat, j: nat) returns (i: nat)
    requires B.Refines(c, a) && Key(DEV, b) in c.disk && j < |c.bufs| && (c.bufs[j].key == Key(DEV, b) || B.Free(c.bufs[j]))
    ensures B.Enabled(c, B.Step.Get(Key(DEV, b), i)) && i < |c.bufs|
    ensures c.bufs[i].key == Key(DEV, b) || (B.Free(c.bufs[i]) && !B.Cached(c, Key(DEV, b)))
  {
    if k :| 0 <= k < |c.bufs| && c.bufs[k].key == Key(DEV, b) {
      i := k;
      assert B.IsFirst(c.bufs, Key(DEV, b), i);
    } else {
      i := LastFree(c.bufs, j);
    }
  }

  /** bread: a buffer is there for block b if it has one that nobody holds, or some buffer is free. */
  lemma Obtain(c: B.Cache, a: B.Spec, b: nat, j: nat) returns (i: nat, d: B.Cache)
    requires B.Refines(c, a) && Key(DEV, b) in c.disk && j < |c.bufs| && (c.bufs[j].key == Key(DEV, b) || B.Free(c.bufs[j]))
    requires forall k :: 0 <= k < |c.bufs| && c.bufs[k].key == Key(DEV, b) ==> !c.bufs[k].held
    ensures Uses(c, d) && B.Refines(d, a) && d.disk == c.disk && Holds(d, i, b)
    ensures i < |c.bufs| && d.bufs == c.bufs[i := d.bufs[i]]
    ensures c.bufs[i].key == Key(DEV, b) || (B.Free(c.bufs[i]) && !B.Cached(c, Key(DEV, b)))
    ensures d.bufs[i].waiting == c.bufs[i].waiting && d.bufs[i].leaving == c.bufs[i].leaving
    ensures d.bufs[i].dirty || d.bufs[i].data == d.disk[Key(DEV, b)]
  {
    hide B.Refines, Uses, B.Keyed, B.Unique, B.IsFirst, B.IsVictim;
    i := Settles(c, a, b, j);
    var get, acquire := B.Step.Get(Key(DEV, b), i), B.Step.Acquire(i);
    RefinesMeans(c, a);
    B.StepRefines(c, a, get);
    var c1 := if c.bufs[i].key == Key(DEV, b) then B.Hit(c, i) else B.Recycle(c, Key(DEV, b), i);
    RefinesMeans(c1, a);
    B.StepRefines(c1, a, acquire);
    BufferShows(c1, a, i);
    d := FillIn(B.Lock(c1, i), a, i);
    UsesFirst(c1, acquire, d);
    UsesFirst(c, get, d);
  }

  lemma BufferShows(c: B.Cache, a: B.Spec, i: nat)
    requires B.Refines(c, a) && i < |c.bufs|
    ensures B.Coherent(c, a.latest, c.bufs[i]) && (c.bufs[i].Refcnt() > 0 ==> c.bufs[i].key in c.disk)
  {
    assert c.bufs[i] in c.bufs;
  }

  /** The read in bread, if the buffer is not valid. */
  lemma FillIn(c: B.Cache, a: B.Spec, i: nat) returns (d: B.Cache)
    requires B.Refines(c, a) && i < |c.bufs| && c.bufs[i].held
    requires c.bufs[i].valid && !c.bufs[i].dirty ==> c.bufs[i].key in c.disk && c.bufs[i].data == c.disk[c.bufs[i].key]
    ensures Uses(c, d) && B.Refines(d, a) && d.disk == c.disk && |d.bufs| == |c.bufs| && d.bufs == c.bufs[i := d.bufs[i]]
    ensures var n, b := d.bufs[i], c.bufs[i];
            && n.key == b.key && n.held && n.valid && n.waiting == b.waiting && n.leaving == b.leaving
            && (n.dirty || (n.key in d.disk && n.data == d.disk[n.key]))
  {
    hide B.Refines, Uses, B.Keyed, B.Unique;
    d := c;
    BufferShows(c, a, i);
    UsesSelf(c);
    if !c.bufs[i].valid {
      var fill := B.Step.Fill(i);
      RefinesMeans(c, a);
      B.StepRefines(c, a, fill);
      d := B.Transfer(c, i);
      UsesSelf(d);
      UsesFirst(c, fill, d);
    }
  }

  // ---------- giving buffers back ----------

  ghost function HeldKeys(c: B.Cache): set<Key> {
    set b | b in c.bufs && b.held :: b.key
  }

  lemma LetGoOne(c: B.Cache, a: B.Spec, i: nat) returns (d: B.Cache)
    requires B.Refines(c, a) && Calm(c) && i < |c.bufs| && c.bufs[i].held
    ensures Uses(c, d) && B.Refines(d, a) && d.disk == c.disk && Calm(d) && HeldKeys(d) < HeldKeys(c)
  {
    assert Releasable(c, c.bufs[i]);
    hide B.Refines, Uses, Calm, HeldKeys, B.Unique, B.Keyed;
    var release, put := B.Step.Release(i), B.Step.Put(i);
    RefinesMeans(c, a);
    B.StepRefines(c, a, release);
    var c1 := B.Unlock(c, i);
    RefinesMeans(c1, a);
    B.StepRefines(c1, a, put);
    d := B.Drop(c1, i);
    UsesSelf(d);
    UsesFirst(c1, put, d);
    UsesFirst(c, release, d);
    var e := c.bufs[i := c.bufs[i].(held := false)];
    assert c1.bufs[i := c1.bufs[i].(leaving := c1.bufs[i].leaving - 1)] == e;
    GaveBack(c, d, e, i);
  }

  lemma RefinesMeans(c: B.Cache, a: B.Spec)
    requires B.Refines(c, a)
    ensures B.Keyed(c) && B.Unique(c)
  {
  }

  lemma GaveBack(c: B.Cache, d: B.Cache, e: seq<B.Buf>, i: nat)
    requires B.Unique(c) && B.Keyed(c) && Calm(c) && i < |c.bufs| && c.bufs[i].held && d.disk == c.disk
    requires e == c.bufs[i := c.bufs[i].(held := false)] && d.bufs == B.ToFront(e, i)
    ensures Calm(d) && HeldKeys(d) < HeldKeys(c)
  {
    forall b | b in d.bufs
      ensures Releasable(d, b) && (b.held ==> b in c.bufs && b.key != c.bufs[i].key)
    {
      B.FrontMembers(e, i, b);
      var j :| 0 <= j < |e| && e[j] == b;
      assert Releasable(c, c.bufs[j]);
      if j != i {
        assert c.bufs[j] in c.bufs && c.bufs[i] in c.bufs;
      }
    }
    assert c.bufs[i].key in HeldKeys(c) && c.bufs[i].key !in HeldKeys(d);
    assert forall j :: 0 <= j < |d.bufs| ==> d.bufs[j] in d.bufs;
  }

  /** Every client releases what it holds. */
  lemma {:induction false} LetGo(c: B.Cache, a: B.Spec) returns (d: B.Cache)
    requires B.Refines(c, a) && Calm(c)
    ensures Uses(c, d) && B.Refines(d, a) && d.disk == c.disk && Idle(d)
    decreases HeldKeys(c)
  {
    if i :| 0 <= i < |c.bufs| && c.bufs[i].held {
      hide B.Refines, Uses, HeldKeys;
      var n := LetGoOne(c, a, i);
      d := LetGo(n, a);
      UsesTrans(c, n, d);
    } else {
      d := c;
      UsesSelf(c);
      assert forall i :: 0 <= i < |c.bufs| ==> Releasable(c, c.bufs[i]);
    }
  }

  // ---------- buffers for a write of the log ----------

  lemma IdleCalm(c: B.Cache)
    requires Idle(c)
    ensures Calm(c)
  {
  }

  lemma KeptCalm(c: B.Cache, d: B.Cache, i: nat)
    requires Calm(c) && i < |c.bufs| == |d.bufs| && d.bufs == c.bufs[i := d.bufs[i]] && d.disk == c.disk && Releasable(d, d.bufs[i])
    ensures Calm(d)
  {
    forall j | 0 <= j < |d.bufs|
      ensures Releasable(d, d.bufs[j])
    {
      assert Releasable(c, c.bufs[j]);
    }
  }

  /** Fewer blocks pinned than buffers and no references: some buffer is free. */
  lemma SomeFree(c: B.Cache, a: B.Spec) returns (j: nat)
    requires B.Refines(c, a) && Idle(c) && |a.pinned| < B.NBUF
    ensures j < |c.bufs| && B.Free(c.bufs[j])
  {
    if k :| 0 <= k < |c.bufs| && !c.bufs[k].dirty {
      j := k;
    } else {
      var ks := BufKeys(c.bufs);
      assert forall i :: 0 <= i < |c.bufs| ==> c.bufs[i] in c.bufs;
      KeySetSize(ks);
      SmallerSet(KeySet(ks), a.pinned);
      assert false;
    }
  }

  lemma BufferOf(c: B.Cache, a: B.Spec, b: nat) returns (j: nat)
    requires B.Refines(c, a) && Key(DEV, b) in a.pinned
    ensures j < |c.bufs| && c.bufs[j].key == Key(DEV, b) && c.bufs[j].dirty
  {
    assert B.Pinned(c, Key(DEV, b));
    var buf :| buf in c.bufs && buf.key == Key(DEV, b) && buf.valid && buf.dirty;
    j :| 0 <= j < |c.bufs| && c.bufs[j] == buf;
  }

  /** One buffer, for a block that is not pinned or is. */
  lemma TakeOne(c: B.Cache, a: B.Spec, b: nat) returns (i: nat, d: B.Cache)
    requires B.Refines(c, a) && Idle(c) && Key(DEV, b) in c.disk && |a.pinned| < B.NBUF
    ensures Uses(c, d) && B.Refines(d, a) && d.disk == c.disk && Calm(d) && Holds(d, i, b)
  {
    var j := SomeFree(c, a);
    i, d := Obtain(c, a, b, j);
    IdleCalm(c);
    KeptCalm(c, d, i);
  }

  /** Two buffers: one of them for a pinned block, or with nothing pinned at all. */
  lemma TakeTwo(c: B.Cache, a: B.Spec, b: nat, b': nat) returns (i: nat, i': nat, d: B.Cache)
    requires B.Refines(c, a) && Idle(c) && Key(DEV, b) in c.disk && Key(DEV, b') in c.disk && b != b' && |a.pinned| < B.NBUF
    requires Key(DEV, b) in a.pinned || a.pinned == {}
    ensures Uses(c, d) && B.Refines(d, a) && d.disk == c.disk && Calm(d) && Holds(d, i, b) && Holds(d, i', b')
  {
    var j, l;
    if Key(DEV, b) in a.pinned {
      j := BufferOf(c, a, b);
      assert c.bufs[j] in c.bufs;
    } else {
      j := SomeFree(c, a);
    }
    var m;
    i, m := Obtain(c, a, b, j);
    l := OtherFree(c, a, b, i);
    IdleCalm(c);
    KeptCalm(c, m, i);
    i', d := Obtain(m, a, b', l);
    KeptCalm(m, d, i');
    UsesTrans(c, m, d);
  }

  lemma OtherFree(c: B.Cache, a: B.Spec, b: nat, i: nat) returns (l: nat)
    requires B.Refines(c, a) && Idle(c) && |a.pinned| < B.NBUF && i < |c.bufs|
    requires Key(DEV, b) in a.pinned || a.pinned == {}
    requires c.bufs[i].key == Key(DEV, b) || (B.Free(c.bufs[i]) && !B.Cached(c, Key(DEV, b)))
    ensures l < |c.bufs| && l != i && B.Free(c.bufs[l])
  {
    if Key(DEV, b) in a.pinned {
      l := SomeFree(c, a);
      var j := BufferOf(c, a, b);
      assert c.bufs[j] in c.bufs;
      B.PinnedHere(c, a, i);
    } else {
      l := if i == 0 then 1 else 0;
      assert c.bufs[l] in c.bufs;
    }
  }

  // ---------- steps of the log through an idle cache ----------

  ghost predicate Plain(g: Geometry, s: G.State) {
    Listed(g, s) && S.Budgeted(s) && (!s.phase.Recovering? ==> |s.latest| == |s.disk|) && 1 <= g.size
  }

  lemma PlainStep(g: Geometry, s: G.State, step: G.Step)
    requires Plain(g, s) && G.Enabled(g, s, step)
    ensures Plain(g, G.Next(g, s, step))
  {
    S.BudgetKept(g, s, step);
    hide S.Budgeted;
  }

  /** The buffers for a write of commit or recovery. */
  lemma WriteBuffers(g: Geometry, s: G.State, c: B.Cache, step: G.Step, b: nat, x: Block) returns (to: nat, from: nat, d: B.Cache)
    requires Plain(g, s) && Joined(s, c) && Idle(c) && Writes(g, s, step, b, x) && |s.blocks| < B.NBUF
    requires CopyOf(g, s, step).Some? ==> CopyOf(g, s, step).value != b
    ensures Uses(c, d) && Joined(s, d) && Calm(d) && Holds(d, to, b)
    ensures CopyOf(g, s, step).Some? ==> Holds(d, from, CopyOf(g, s, step).value)
  {
    hide B.Refines, Uses, Calm, Idle, S.Budgeted, G.CommitValue;
    var a := SpecOf(s);
    PinnedSize(s.blocks, AtHome(s));
    WriteKeys(g, s, c, step, b, x);
    hide Writes, CopyOf, AtHome, Listed;
    from := 0;
    match CopyOf(g, s, step)
    case None =>
      to, d := TakeOne(c, a, b);
    case Some(v) =>
      if Key(DEV, b) in a.pinned || a.pinned == {} {
        to, from, d := TakeTwo(c, a, b, v);
      } else {
        from, to, d := TakeTwo(c, a, v, b);
      }
  }

  /** The blocks of a write are on the disk, and of the two that a copy needs one is pinned, or nothing is. */
  lemma WriteKeys(g: Geometry, s: G.State, c: B.Cache, step: G.Step, b: nat, x: Block)
    requires Plain(g, s) && Joined(s, c) && Writes(g, s, step, b, x)
    ensures Key(DEV, b) in c.disk
    ensures CopyOf(g, s, step).Some? ==>
              var v := CopyOf(g, s, step).value;
              && Key(DEV, v) in c.disk
              && (Key(DEV, b) in SpecOf(s).pinned || Key(DEV, v) in SpecOf(s).pinned || SpecOf(s).pinned == {})
  {
    hide B.Refines, S.Budgeted, G.CommitValue, Distinct;
    if step.RecoverWrite? {
      NoneListed();
    } else if s.phase.k < |s.blocks| {
      assert Key(DEV, s.blocks[s.phase.k]) in SpecOf(s).pinned;
    } else if |s.blocks| < s.phase.k <= 2 * |s.blocks| {
      assert Key(DEV, s.blocks[AtHome(s)]) in SpecOf(s).pinned;
    }
  }

  lemma WrittenCalm(c: B.Cache, a: B.Spec, i: nat, b: nat, x: Data, d: B.Cache)
    requires B.Refines(c, a) && Calm(c) && Holds(c, i, b) && ThroughTo(c, i, x, d)
    ensures Calm(d)
  {
    forall j | 0 <= j < |d.bufs|
      ensures Releasable(d, d.bufs[j])
    {
      assert Releasable(c, c.bufs[j]) && c.bufs[j] in c.bufs;
    }
  }

  lemma PinnedCalm(c: B.Cache, i: nat, b: nat, x: Data)
    requires Calm(c) && Holds(c, i, b)
    ensures Calm(B.SetDirty(B.SetData(c, i, x), i))
  {
    var d := B.SetDirty(B.SetData(c, i, x), i);
    assert Releasable(c, c.bufs[i]);
    KeptCalm(c, d, i);
  }

  lemma TheWrite(g: Geometry, s: G.State, step: G.Step) returns (b: nat, x: Block)
    requires G.Enabled(g, s, step) && (step.CommitWrite? || step.RecoverWrite?)
    ensures Writes(g, s, step, b, x)
  {
    if step.CommitWrite? {
      b, x := G.CommitTarget(g, s.blocks, s.phase.k), G.CommitValue(g, s.latest, s.blocks, s.phase.k);
    } else if s.phase.k < |s.phase.named| {
      b, x := s.phase.named[s.phase.k], s.disk[g.start + 1 + s.phase.k];
    } else {
      b, x := g.start, WithHead(s.disk[g.start], []);
    }
  }

  lemma HeldInDisk(c: B.Cache, a: B.Spec, i: nat, b: nat)
    requires B.Refines(c, a) && Holds(c, i, b)
    ensures Key(DEV, b) in c.disk
  {
    assert c.bufs[i] in c.bufs;
  }

  /** A write of commit or recovery, carried out. */
  lemma WriteGoes(g: Geometry, s: G.State, c: B.Cache, step: G.Step, b: nat, x: Block)
      returns (to: nat, from: nat, m: B.Cache, d: B.Cache)
    requires Plain(g, s) && Joined(s, c) && Idle(c) && (step.CommitWrite? || step.RecoverWrite?) && Writes(g, s, step, b, x)
    requires |s.blocks| < B.NBUF && (CopyOf(g, s, step).Some? ==> CopyOf(g, s, step).value != b)
    ensures Uses(c, m) && Steps(g, s, m, Log(step, to, from), G.Next(g, s, step), d) && Calm(d)
    ensures Joined(s, m) && Holds(m, to, b) && ThroughTo(m, to, x, d)
  {
    hide B.Refines, Plain, Idle, Calm, Uses, CopyOf, SpecOf, AsMap;
    to, from, m := WriteBuffers(g, s, c, step, b, x);
    HeldInDisk(m, SpecOf(s), to, b);
    d := B.Transfer(B.SetDirty(B.SetData(m, to, x), to), to);
    assert ThroughTo(m, to, x, d);
    WrittenCalm(m, SpecOf(s), to, b, x, d);
    hide ThroughTo, Joined;
    assert Writes(g, s, step, b, x) && Holds(m, to, b);
    hide Writes;
    assert GoesThrough(g, s, m, step, to, from, d);
    assert G.Enabled(g, s, step) by { WritesEnabled(g, s, step, b, x); }
    hide GoesThrough, G.Enabled;
  }

  lemma WritesEnabled(g: Geometry, s: G.State, step: G.Step, b: nat, x: Block)
    requires Writes(g, s, step, b, x)
    ensures G.Enabled(g, s, step)
  {
  }

  /** Commit and recovery copy between different blocks. */
  lemma CopiesApart(g: Geometry, s: G.State, step: G.Step, b: nat, x: Block)
    requires Plain(g, s) && Writes(g, s, step, b, x) && CopyOf(g, s, step).Some?
    requires step.CommitWrite? ==> S.InRegion(g, s)
    requires step.RecoverWrite? ==> Loggable(g, |s.disk|, s.phase.named)
    ensures CopyOf(g, s, step).value != b
  {
    hide S.Budgeted, G.CommitValue;
  }

  lemma LiftWrite(g: Geometry, s: G.State, c: B.Cache, step: G.Step) returns (d: B.Cache)
    requires Plain(g, s) && Joined(s, c) && Idle(c) && G.Enabled(g, s, step) && (step.CommitWrite? || step.RecoverWrite?)
    requires |s.blocks| < B.NBUF && (step.CommitWrite? ==> S.InRegion(g, s))
    requires step.RecoverWrite? ==> Loggable(g, |s.disk|, s.phase.named)
    ensures Reaches(g, s, c, G.Next(g, s, step), d) && Joined(G.Next(g, s, step), d) && Idle(d)
  {
    var t := G.Next(g, s, step);
    assert Listed(g, s) && 1 <= g.size;
    hide G.Enabled, G.Next;
    var b, x := TheWrite(g, s, step);
    if CopyOf(g, s, step).Some? {
      CopiesApart(g, s, step, b, x);
    }
    var to, from, m, n := WriteGoes(g, s, c, step, b, x);
    hide Joined, Plain, Idle, Calm, Uses, Writes, Steps, Listed, Holds, ThroughTo, CopyOf, Reaches;
    if step.CommitWrite? {
      CommitJoins(g, s, m, to, b, x, n);
    } else {
      RecoverJoins(g, s, m, to, b, x, n);
    }
    UsesReach(g, s, c, m);
    ReachesStep(g, s, m, Log(step, to, from), t, n);
    ReachesTrans(g, s, c, s, m, t, n);
    d := Settle(g, t, n);
    ReachesTrans(g, s, c, t, n, t, d);
  }

  /** After a step everyone lets go. */
  lemma Settle(g: Geometry, t: G.State, n: B.Cache) returns (d: B.Cache)
    requires Joined(t, n) && Calm(n)
    ensures Reaches(g, t, n, t, d) && Joined(t, d) && Idle(d)
  {
    hide B.Refines, Uses, Calm, Idle, Reaches;
    d := LetGo(n, SpecOf(t));
    UsesReach(g, t, n, d);
  }

  lemma AppendBuffer(g: Geometry, s: G.State, c: B.Cache, b: nat) returns (i: nat, m: B.Cache)
    requires Joined(s, c) && Idle(c) && b < |s.disk| && |s.blocks| < B.NBUF
    ensures Uses(c, m) && Joined(s, m) && Calm(m) && Holds(m, i, b)
  {
    hide B.Refines, Uses, Calm, Idle, ListedFrom, AtHome;
    PinnedSize(s.blocks, AtHome(s));
    assert Key(DEV, b) in AsMap(s.disk);
    i, m := TakeOne(c, SpecOf(s), b);
  }

  lemma AppendSteps(g: Geometry, s: G.State, m: B.Cache, i: nat, p: nat, b: nat, x: Block)
    requires G.Enabled(g, s, G.Step.Append(p, b, x)) && Holds(m, i, b)
    ensures i < |m.bufs| && Steps(g, s, m, Log(G.Step.Append(p, b, x), i, 0), G.DoAppend(s, p, b, x), B.SetDirty(B.SetData(m, i, x), i))
  {
  }

  lemma LiftAppend(g: Geometry, s: G.State, c: B.Cache, p: nat, b: nat, x: Block) returns (d: B.Cache)
    requires Plain(g, s) && Joined(s, c) && Idle(c) && G.Enabled(g, s, G.Step.Append(p, b, x)) && |s.blocks| < B.NBUF
    ensures var t := G.DoAppend(s, p, b, x); Reaches(g, s, c, t, d) && Joined(t, d) && Idle(d)
  {
    var step, t := G.Step.Append(p, b, x), G.DoAppend(s, p, b, x);
    ActiveRuns(s, p);
    assert b < |s.disk|;
    hide B.Refines, Uses, Calm, Idle, Plain, Reaches, Joined, Holds, Steps, G.DoAppend, G.Enabled;
    var i, m := AppendBuffer(g, s, c, b);
    assert i < |m.bufs| by { AppendSteps(g, s, m, i, p, b, x); }
    var n := B.SetDirty(B.SetData(m, i, x), i);
    AppendJoins(g, s, m, i, p, b, x);
    PinnedCalm(m, i, b, x);
    AppendSteps(g, s, m, i, p, b, x);
    UsesReach(g, s, c, m);
    ReachesStep(g, s, m, Log(step, i, 0), t, n);
    ReachesTrans(g, s, c, s, m, t, n);
    d := Settle(g, t, n);
    ReachesTrans(g, s, c, t, n, t, d);
  }

  lemma LiftQuiet(g: Geometry, s: G.State, c: B.Cache, step: G.Step) returns (d: B.Cache)
    requires Plain(g, s) && Joined(s, c) && Idle(c) && G.Enabled(g, s, step)
    requires !step.Append? && !step.CommitWrite? && !step.RecoverWrite?
    ensures var t := G.Next(g, s, step); Reaches(g, s, c, t, d) && Joined(t, d) && Idle(d)
  {
    var t := G.Next(g, s, step);
    d := if step.Crash? then B.Start(c.disk) else c;
    if step.End? {
      ActiveRuns(s, step.p);
    }
    assert Idle(d);
    hide Joined, Idle, Reaches, Plain;
    assert Steps(g, s, c, Log(step, 0, 0), t, d);
    hide Steps;
    ReachesStep(g, s, c, Log(step, 0, 0), t, d);
    if step.Crash? {
      CrashJoins(g, s, c);
    } else {
      QuietJoins(g, s, c, step);
    }
  }

  /** A thrifty run of the log without crashes is one the cache can serve. */
  lemma {:induction false} Lift(g: Geometry, s: G.State, c: B.Cache, steps: seq<G.Step>, t: G.State) returns (d: B.Cache)
    requires Plain(g, s) && Joined(s, c) && Idle(c) && S.ThriftyRuns(g, s, steps, t, B.NBUF)
    ensures Reaches(g, s, c, t, d) && Joined(t, d) && Idle(d) && Plain(g, t)
    decreases |steps|
  {
    if steps == [] {
      d := c;
      ReachesSelf(g, s, c);
    } else {
      var step := steps[0];
      var u := G.Next(g, s, step);
      PlainStep(g, s, step);
      hide Joined, Idle, Plain, Reaches;
      var n;
      if step.Append? {
        n := LiftAppend(g, s, c, step.p, step.b, step.x);
      } else if step.CommitWrite? {
        n := LiftWrite(g, s, c, step);
      } else {
        n := LiftQuiet(g, s, c, step);
      }
      d := Lift(g, u, n, steps[1..], t);
      ReachesTrans(g, s, c, u, n, t, d);
    }
  }

  lemma WithinReached(g: Geometry, d0: Disk, procs: nat, s: G.State) returns (c: B.Cache)
    requires G.IsClean(g, d0) && S.Within(g, d0, procs, B.NBUF, s)
    ensures Reached(g, d0, procs, s, c) && Joined(s, c) && Idle(c) && Plain(g, s)
  {
    var s0, c0 := G.Init(g, d0, procs), B.Start(AsMap(d0));
    var steps :| S.ThriftyRuns(g, s0, steps, s, B.NBUF);
    StartJoined(g, d0, procs);
    assert Plain(g, s0) && Idle(c0);
    hide Joined, Plain, Idle, Reaches;
    c := Lift(g, s0, c0, steps, s);
  }

  // ---------- atomicity ----------

  /** With a log smaller than the cache the overrun happens: a commit writes its last slot over the first block
      after the log, and the disk stands for no committed state. */
  lemma OverrunBreaks(g: Geometry, d0: Disk, procs: nat) returns (s: G.State, c: B.Cache)
    requires G.IsClean(g, d0) && procs >= 3 && 2 <= g.size < B.NBUF && g.start + g.size + LOGSIZE <= |d0|
    ensures Reached(g, d0, procs, s, c) && !Represents(g, s.disk, G.ApplyGroups(d0, s.groups))
  {
    var s0 := S.Overrun(g, d0, procs, B.NBUF);
    var c0 := WithinReached(g, d0, procs, s0);
    var step := G.Step.CommitWrite;
    assert Distinct(s0.blocks) && CopyOf(g, s0, step) == Some(s0.blocks[g.size - 1]);
    hide G.CommitValue, Plain, Joined, Idle, Reaches, S.Within, Represents;
    var b, x := TheWrite(g, s0, step);
    var to, from, m, d := WriteGoes(g, s0, c0, step, b, x);
    s, c := G.DoCommitWrite(g, s0), d;
    hide G.Enabled, Steps;
    UsesReach(g, s0, c0, m);
    ReachesStep(g, s0, m, Log(step, to, from), s, c);
    var i, n := G.Init(g, d0, procs), B.Start(AsMap(d0));
    ReachesTrans(g, i, n, s0, c0, s0, m);
    ReachesTrans(g, i, n, s0, m, s, c);
  }

  /** Log and cache together keep calls atomic in every run if and only if the log has at least as many blocks as
      the cache has buffers (or none to log in). mkfs gives it exactly as many. */
  lemma AtomicIff(g: Geometry, d0: Disk, procs: nat)
    requires G.IsClean(g, d0) && procs >= 3 && g.start + g.size + LOGSIZE <= |d0|
    ensures (forall s, c :: Reached(g, d0, procs, s, c) ==> Represents(g, s.disk, G.ApplyGroups(d0, s.groups))) <==> Sized(g)
  {
    hide Reached, Represents;
    if Sized(g) {
      forall s, c | Reached(g, d0, procs, s, c)
        ensures Represents(g, s.disk, G.ApplyGroups(d0, s.groups))
      {
        ReachedFine(g, d0, procs, s, c);
        S.DurableMeans(g, s);
      }
    } else {
      var s, c := OverrunBreaks(g, d0, procs);
    }
  }

  // ---------- progress ----------

  predicate Advances(step: G.Step) {
    step.CommitWrite? || step.CommitDone? || step.RecoverWrite? || step.RecoverDone?
  }

  /** Commit or recovery gets the buffers for its next write, or finishes. */
  ghost predicate CanGoOn(g: Geometry, s: G.State, c: B.Cache) {
    exists n, step, to, from, t, d :: Uses(c, n) && Advances(step) && Steps(g, s, n, Log(step, to, from), t, d)
  }

  lemma FullStops(g: Geometry, d0: Disk, s: G.State, c: B.Cache)
    requires g.size >= B.NBUF && Fine(g, d0, s) && Joined(s, c) && s.phase.Committing? && |s.blocks| == B.NBUF
    ensures !CanGoOn(g, s, c)
  {
    assert s.phase.k == 0;
    assert Listed(g, s) by { FineMeans(g, d0, s); }
    hide Fine, Joined, Steps, Listed;
    forall n, step, to, from, t, d | Uses(c, n) && Advances(step)
      ensures !Steps(g, s, n, Log(step, to, from), t, d)
    {
      var us :| UseRuns(c, us, n);
      UseRunsJoined(s, c, us, n);
      StepStops(g, s, n, step, to, from, t, d);
    }
  }

  lemma StepStops(g: Geometry, s: G.State, c: B.Cache, step: G.Step, to: nat, from: nat, t: G.State, d: B.Cache)
    requires g.size >= B.NBUF && Listed(g, s) && Joined(s, c) && Advances(step)
    requires s.phase.Committing? && s.phase.k == 0 && |s.blocks| == B.NBUF
    ensures !Steps(g, s, c, Log(step, to, from), t, d)
  {
    NoBuffer(g, s, c, to, g.start + 1);
    hide Joined, Listed, Holds, ThroughTo, G.CommitValue, CopyOf;
    if step.CommitWrite? {
      forall b: nat, x: Block
        ensures !(Writes(g, s, step, b, x) && Holds(c, to, b) && ThroughTo(c, to, x, d))
      {
        assert Writes(g, s, step, b, x) ==> b == g.start + 1;
      }
    }
  }

  lemma Finishes(g: Geometry, s: G.State, c: B.Cache, step: G.Step)
    requires G.Enabled(g, s, step) && (step.CommitDone? || step.RecoverDone?)
    ensures CanGoOn(g, s, c)
  {
    UsesSelf(c);
    assert Steps(g, s, c, Log(step, 0, 0), G.Next(g, s, step), c);
    hide Uses, Steps;
    assert Advances(step);
  }

  lemma NextWrite(g: Geometry, s: G.State, c: B.Cache, step: G.Step)
    requires Plain(g, s) && Joined(s, c) && Idle(c) && G.Enabled(g, s, step) && (step.CommitWrite? || step.RecoverWrite?)
    requires |s.blocks| < B.NBUF && (step.CommitWrite? ==> S.InRegion(g, s))
    requires step.RecoverWrite? ==> Loggable(g, |s.disk|, s.phase.named)
    ensures CanGoOn(g, s, c)
  {
    var t := G.Next(g, s, step);
    hide G.Enabled, G.Next, Joined, Idle, Uses, Steps;
    var b, x := TheWrite(g, s, step);
    if CopyOf(g, s, step).Some? {
      CopiesApart(g, s, step, b, x);
    }
    var to, from, m, n := WriteGoes(g, s, c, step, b, x);
    assert Advances(step);
  }

  lemma RecoveryNamed(g: Geometry, d0: Disk, s: G.State)
    requires S.Safe(g, d0, s) && s.phase.Recovering?
    ensures Loggable(g, |s.disk|, s.phase.named)
  {
  }

  lemma FinePlain(g: Geometry, d0: Disk, s: G.State)
    requires Fine(g, d0, s) && Sized(g)
    ensures S.Safe(g, d0, s) && S.Durable(g, s) && Plain(g, s) && |s.blocks| <= B.NBUF && (g.size == 1 ==> s.blocks == [])
  {
    S.SpareNonNegative(s.ops);
  }

  /** With no client holding a buffer, a commit or recovery under way goes on unless it is a commit that has
      logged as many blocks as there are buffers: then bget finds none for the first slot and panics. */
  lemma GoesOnIff(g: Geometry, d0: Disk, procs: nat, s: G.State, c: B.Cache)
    requires G.IsClean(g, d0) && Sized(g) && Reached(g, d0, procs, s, c) && Idle(c) && !s.phase.Running?
    ensures CanGoOn(g, s, c) <==> !(s.phase.Committing? && |s.blocks| == B.NBUF)
    ensures G.Enabled(g, s, G.Step.Crash)
  {
    hide Joined, Fine, Idle, CanGoOn, Reached;
    ReachedFine(g, d0, procs, s, c);
    FineCrash(g, d0, s);
    if s.phase.Recovering? {
      RecoveryGoesOn(g, d0, s, c);
    } else if |s.blocks| == B.NBUF {
      assert g.size >= B.NBUF by { FinePlain(g, d0, s); }
      FullStops(g, d0, s, c);
    } else {
      CommitGoesOn(g, d0, s, c);
    }
  }

  lemma FineCrash(g: Geometry, d0: Disk, s: G.State)
    requires Fine(g, d0, s)
    ensures G.Enabled(g, s, G.Step.Crash)
  {
    S.DurableMeans(g, s);
    S.CanCrash(g, s);
  }

  lemma RecoveryGoesOn(g: Geometry, d0: Disk, s: G.State, c: B.Cache)
    requires Sized(g) && Fine(g, d0, s) && Joined(s, c) && Idle(c) && s.phase.Recovering?
    ensures CanGoOn(g, s, c)
  {
    hide S.Safe, S.Durable, Joined, Fine, Idle, Plain, G.Enabled, CanGoOn;
    FinePlain(g, d0, s);
    S.RecoveryNotStuck(g, s);
    RecoveryNamed(g, d0, s);
    NoneWhileRecovering(s, c);
    if G.Enabled(g, s, G.Step.RecoverDone) {
      Finishes(g, s, c, G.Step.RecoverDone);
    } else {
      NextWrite(g, s, c, G.Step.RecoverWrite);
    }
  }

  lemma CommitGoesOn(g: Geometry, d0: Disk, s: G.State, c: B.Cache)
    requires Sized(g) && Fine(g, d0, s) && Joined(s, c) && Idle(c) && s.phase.Committing? && |s.blocks| != B.NBUF
    ensures CanGoOn(g, s, c)
  {
    hide S.Safe, S.Durable, Joined, Fine, Idle, Plain, G.Enabled, CanGoOn;
    FinePlain(g, d0, s);
    S.CommitNotStuck(g, s);
    if G.Enabled(g, s, G.Step.CommitDone) {
      Finishes(g, s, c, G.Step.CommitDone);
    } else {
      NextWrite(g, s, c, G.Step.CommitWrite);
    }
  }

  lemma NoneWhileRecovering(s: G.State, c: B.Cache)
    requires Joined(s, c) && s.phase.Recovering?
    ensures s.blocks == []
  {
  }

  /** It happens, however large the log: three operations use their whole budgets and end, and the commit finds
      every buffer pinned. */
  lemma FullLogStops(g: Geometry, d0: Disk, procs: nat) returns (s: G.State, c: B.Cache)
    requires G.IsClean(g, d0) && procs >= 3 && g.size >= B.NBUF && g.start + g.size + LOGSIZE <= |d0|
    ensures Reached(g, d0, procs, s, c) && Idle(c) && s.phase.Committing? && s.phase.k == 0 && |s.blocks| == B.NBUF
    ensures !CanGoOn(g, s, c)
  {
    s := S.FullCommit(g, d0, procs, B.NBUF);
    c := WithinReached(g, d0, procs, s);
    hide Joined, Idle, Plain, CanGoOn, Reached;
    ReachedFine(g, d0, procs, s, c);
    FullStops(g, d0, s, c);
  }
}
