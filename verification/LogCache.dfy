/** The log above the buffer cache (log.c, bio.c): the two step systems run together, log_write pinning
    buffers and commit and recovery writing through them. */
module LogCache {
  import opened Common
  import opened Log
  import G = GroupCommit
  import S = GroupCommitSafety
  import B = BufferCache

  const DEV: nat := 1

  /** The blocks of the log's device, by name. */
  function AsMap(d: Disk): (m: map<Key, Data>)
    ensures forall key :: key in m <==> key.dev == DEV && key.blockno < |d|
    ensures forall b: nat :: b < |d| ==> Key(DEV, b) in m && m[Key(DEV, b)] == d[b]
  {
    map key | key in (set b: nat | b < |d| :: Key(DEV, b)) :: d[key.blockno]
  }

  lemma AsMapUpdate(d: Disk, b: nat, x: Block)
    requires b < |d|
    ensures AsMap(d[b := x]) == AsMap(d)[Key(DEV, b) := x]
  {
  }

  /** How many of the listed blocks commit has written home. */
  function AtHome(s: G.State): nat {
    match s.phase
    case Running => 0
    case Committing(_, _, k) => if k <= |s.blocks| then 0 else if k <= 2 * |s.blocks| then k - |s.blocks| - 1 else |s.blocks|
    case Recovering(_, _, _) => |s.blocks|
  }

  function ListedFrom(blocks: seq<nat>, i: nat): (r: set<Key>)
    ensures forall key :: key in r <==> key.dev == DEV && exists j :: i <= j < |blocks| && blocks[j] == key.blockno
  {
    set j | i <= j < |blocks| :: Key(DEV, blocks[j])
  }

  /** What the log takes the cache to hold: the contents as last written, and pinned the blocks logged and
      not yet at home. */
  function SpecOf(s: G.State): B.Spec {
    B.Spec(AsMap(if s.phase.Recovering? then s.disk else s.latest), ListedFrom(s.blocks, AtHome(s)))
  }

  ghost predicate Joined(s: G.State, c: B.Cache) {
    B.Refines(c, SpecOf(s)) && c.disk == AsMap(s.disk) && (s.phase.Recovering? ==> s.blocks == [])
  }

  // ---------- steps of both ----------

  datatype Step =
    | Use(use: B.Step)                          // bget, acquiresleep, the read in bread, brelse
    | Log(step: G.Step, to: nat, from: nat)     // a step of the log, the buffer it writes and the one it copies from

  predicate IsUse(use: B.Step) {
    use.Get? || use.Acquire? || use.Fill? || use.Release? || use.Put?
  }

  predicate Holds(c: B.Cache, i: nat, b: nat) {
    i < |c.bufs| && c.bufs[i].key == Key(DEV, b) && c.bufs[i].held && c.bufs[i].valid
  }

  /** The block and contents of a disk write of the log. */
  ghost predicate Writes(g: Geometry, s: G.State, step: G.Step, b: nat, x: Block) {
    && G.Enabled(g, s, step)
    && match step
       case CommitWrite => b == G.CommitTarget(g, s.blocks, s.phase.k) && x == G.CommitValue(g, s.latest, s.blocks, s.phase.k)
       case RecoverWrite =>
         if s.phase.k < |s.phase.named| then b == s.phase.named[s.phase.k] && x == s.disk[g.start + 1 + s.phase.k]
         else b == g.start && x == WithHead(s.disk[g.start], [])
       case _ => false
  }

  /** The block it copies: a logged block into its slot, or a slot to the block's home. */
  function CopyOf(g: Geometry, s: G.State, step: G.Step): Option<nat> {
    match s.phase
    case Running => None
    case Committing(_, _, k) =>
      if step != G.Step.CommitWrite then None
      else if k < |s.blocks| then Some(s.blocks[k])
      else if |s.blocks| < k <= 2 * |s.blocks| then Some(g.start + (k - |s.blocks|))
      else None
    case Recovering(_, named, k) => if step == G.Step.RecoverWrite && k < |named| then Some(g.start + 1 + k) else None
  }

  /** The write goes through a locked buffer of its block, with a locked buffer of the block it copies. */
  ghost predicate GoesThrough(g: Geometry, s: G.State, c: B.Cache, step: G.Step, to: nat, from: nat, d: B.Cache) {
    && (CopyOf(g, s, step).Some? ==> Holds(c, from, CopyOf(g, s, step).value))
    && exists b: nat, x: Block :: Writes(g, s, step, b, x) && Holds(c, to, b) && ThroughTo(c, to, x, d)
  }

  /** Both systems take the step. */
  ghost predicate Steps(g: Geometry, s: G.State, c: B.Cache, e: Step, t: G.State, d: B.Cache) {
    match e
    case Use(use) =>
      t == s && IsUse(use) && B.Enabled(c, use) && B.Keyed(c) && d == B.Next(c, use)
    case Log(step, to, from) =>
      && G.Enabled(g, s, step) && t == G.Next(g, s, step)
      && match step
         case Append(_, b, x) => Holds(c, to, b) && d == B.SetDirty(B.SetData(c, to, x), to)
         case CommitWrite => GoesThrough(g, s, c, step, to, from, d)
         case RecoverWrite => GoesThrough(g, s, c, step, to, from, d)
         case Crash => d == B.Start(c.disk)
         case _ => d == c
  }

  /** The buffer gets new contents and bwrite writes them. */
  ghost predicate ThroughTo(c: B.Cache, i: nat, x: Data, d: B.Cache) {
    i < |c.bufs| && c.bufs[i].key in c.disk && d == B.Transfer(B.SetDirty(B.SetData(c, i, x), i), i)
  }

  // ---------- runs ----------

  ghost predicate Runs(g: Geometry, s: G.State, c: B.Cache, es: seq<Step>, t: G.State, d: B.Cache)
    decreases |es|
  {
    if es == [] then t == s && d == c
    else exists m, n :: Steps(g, s, c, es[0], m, n) && Runs(g, m, n, es[1..], t, d)
  }

  ghost predicate Reaches(g: Geometry, s: G.State, c: B.Cache, t: G.State, d: B.Cache) {
    exists es :: Runs(g, s, c, es, t, d)
  }

  lemma ReachesSelf(g: Geometry, s: G.State, c: B.Cache)
    ensures Reaches(g, s, c, s, c)
  {
    assert Runs(g, s, c, [], s, c);
  }

  lemma ReachesStep(g: Geometry, s: G.State, c: B.Cache, e: Step, t: G.State, d: B.Cache)
    requires Steps(g, s, c, e, t, d)
    ensures Reaches(g, s, c, t, d)
  {
    assert Runs(g, t, d, [e][1..], t, d);
    assert Runs(g, s, c, [e], t, d);
  }

  lemma {:induction false} RunsJoin(g: Geometry, s: G.State, c: B.Cache, es: seq<Step>, m: G.State, n: B.Cache, fs: seq<Step>,
                                    t: G.State, d: B.Cache)
    requires Runs(g, s, c, es, m, n) && Runs(g, m, n, fs, t, d)
    ensures Runs(g, s, c, es + fs, t, d)
    decreases |es|
  {
    hide Steps;
    if es == [] {
      assert es + fs == fs;
    } else {
      var m', n' :| Steps(g, s, c, es[0], m', n') && Runs(g, m', n', es[1..], m, n);
      RunsJoin(g, m', n', es[1..], m, n, fs, t, d);
      assert (es + fs)[1..] == es[1..] + fs && (es + fs)[0] == es[0];
    }
  }

  lemma ReachesTrans(g: Geometry, s: G.State, c: B.Cache, m: G.State, n: B.Cache, t: G.State, d: B.Cache)
    requires Reaches(g, s, c, m, n) && Reaches(g, m, n, t, d)
    ensures Reaches(g, s, c, t, d)
  {
    var es :| Runs(g, s, c, es, m, n);
    var fs :| Runs(g, m, n, fs, t, d);
    RunsJoin(g, s, c, es, m, n, fs, t, d);
  }

  // ---------- the cache's side ----------

  lemma PinRefines(c: B.Cache, a: B.Spec, i: nat, b: nat, x: Data)
    requires B.Refines(c, a) && Holds(c, i, b)
    ensures B.Refines(B.SetDirty(B.SetData(c, i, x), i), B.Spec(a.latest[Key(DEV, b) := x], a.pinned + {Key(DEV, b)}))
  {
    hide B.Refines;
    B.StepRefines(c, a, B.Step.Modify(i, x));
    var c' := B.SetData(c, i, x);
    var a' := a.(latest := a.latest[Key(DEV, b) := x]);
    B.StepRefines(c', a', B.Step.Pin(i));
  }

  lemma SyncRefines(c: B.Cache, a: B.Spec, i: nat, b: nat, x: Data, d: B.Cache)
    requires B.Refines(c, a) && Holds(c, i, b) && ThroughTo(c, i, x, d)
    ensures B.Refines(d, B.Spec(a.latest[Key(DEV, b) := x], a.pinned - {Key(DEV, b)})) && d.disk == c.disk[Key(DEV, b) := x]
  {
    hide B.Refines;
    B.StepRefines(c, a, B.Step.Modify(i, x));
    var c' := B.SetData(c, i, x);
    var a' := a.(latest := a.latest[Key(DEV, b) := x]);
    B.StepRefines(c', a', B.Step.Sync(i));
  }

  // ---------- the log's side ----------

  /** The listed blocks are distinct home blocks. */
  ghost predicate Listed(g: Geometry, s: G.State) {
    Distinct(s.blocks) && forall i :: 0 <= i < |s.blocks| ==> IsHome(g, |s.disk|, s.blocks[i])
  }

  lemma NoneListed()
    ensures ListedFrom([], 0) == {}
  {
  }

  lemma ListMore(blocks: seq<nat>, b: nat)
    ensures ListedFrom(Absorb(blocks, b), 0) == ListedFrom(blocks, 0) + {Key(DEV, b)}
  {
    if b in blocks {
      assert Absorb(blocks, b) == blocks;
    } else {
      assert Absorb(blocks, b) == blocks + [b];
      assert (blocks + [b])[|blocks|] == b;
      assert forall j :: 0 <= j < |blocks| ==> (blocks + [b])[j] == blocks[j];
    }
  }

  lemma ListLess(blocks: seq<nat>, i: nat)
    requires i < |blocks| && Distinct(blocks)
    ensures ListedFrom(blocks, i) - {Key(DEV, blocks[i])} == ListedFrom(blocks, i + 1)
  {
  }

  lemma NotListed(g: Geometry, s: G.State, i: nat, b: nat)
    requires Listed(g, s) && InLog(g, b)
    ensures Key(DEV, b) !in ListedFrom(s.blocks, i)
  {
  }

  /** A write into the log region leaves the listed blocks pinned; a write home unpins that block. */
  lemma CommitUnpins(g: Geometry, s: G.State)
    requires G.Enabled(g, s, G.Step.CommitWrite) && Listed(g, s) && S.InRegion(g, s) && 1 <= g.size
    ensures ListedFrom(s.blocks, AtHome(G.DoCommitWrite(g, s))) ==
            ListedFrom(s.blocks, AtHome(s)) - {Key(DEV, G.CommitTarget(g, s.blocks, s.phase.k))}
  {
    assert Distinct(s.blocks);
    hide G.CommitValue, ListedFrom, Listed, Distinct;
    var n, k := |s.blocks|, s.phase.k;
    if n < k <= 2 * n {
      ListLess(s.blocks, k - n - 1);
    } else {
      NotListed(g, s, AtHome(s), G.CommitTarget(g, s.blocks, k));
    }
  }

  lemma CommitJoins(g: Geometry, s: G.State, c: B.Cache, i: nat, b: nat, x: Block, d: B.Cache)
    requires Writes(g, s, G.Step.CommitWrite, b, x) && Listed(g, s) && S.InRegion(g, s) && 1 <= g.size
    requires Joined(s, c) && Holds(c, i, b) && ThroughTo(c, i, x, d)
    ensures Joined(G.DoCommitWrite(g, s), d)
  {
    hide B.Refines, ListedFrom, AsMap, G.CommitTarget, G.CommitValue, ThroughTo, Listed;
    CommitUnpins(g, s);
    SyncRefines(c, SpecOf(s), i, b, x, d);
    AsMapUpdate(s.latest, b, x);
    AsMapUpdate(s.disk, b, x);
  }

  lemma RecoverJoins(g: Geometry, s: G.State, c: B.Cache, i: nat, b: nat, x: Block, d: B.Cache)
    requires Writes(g, s, G.Step.RecoverWrite, b, x)
    requires Joined(s, c) && Holds(c, i, b) && ThroughTo(c, i, x, d)
    ensures Joined(G.DoRecoverWrite(g, s), d)
  {
    hide B.Refines, ListedFrom, AsMap, ThroughTo;
    SyncRefines(c, SpecOf(s), i, b, x, d);
    AsMapUpdate(s.disk, b, x);
    NoneListed();
    assert SpecOf(G.DoRecoverWrite(g, s)) == B.Spec(SpecOf(s).latest[Key(DEV, b) := x], SpecOf(s).pinned - {Key(DEV, b)});
  }

  lemma AppendJoins(g: Geometry, s: G.State, c: B.Cache, i: nat, p: nat, b: nat, x: Block)
    requires G.Enabled(g, s, G.Step.Append(p, b, x)) && s.phase.Running? && Joined(s, c) && Holds(c, i, b)
    ensures Joined(G.DoAppend(s, p, b, x), B.SetDirty(B.SetData(c, i, x), i))
  {
    hide B.Refines, ListedFrom, AsMap;
    PinRefines(c, SpecOf(s), i, b, x);
    ListMore(s.blocks, b);
    AsMapUpdate(s.latest, b, x);
  }

  /** No operation is active while the log commits or recovers. */
  lemma ActiveRuns(s: G.State, p: nat)
    requires S.Budgeted(s) && G.IsActive(s, p)
    ensures s.phase.Running?
  {
    S.SomeActive(s.ops, p);
  }

  /** Steps of the log that touch no buffer. */
  lemma QuietJoins(g: Geometry, s: G.State, c: B.Cache, step: G.Step)
    requires G.Enabled(g, s, step) && (step.Try? || step.Guard? || step.End? || step.CommitDone? || step.RecoverDone?) && Joined(s, c)
    requires step.End? ==> s.phase.Running?
    ensures Joined(G.Next(g, s, step), c)
  {
    hide B.Refines, AsMap;
    assert SpecOf(G.Next(g, s, step)) == SpecOf(s);
  }

  lemma CrashJoins(g: Geometry, s: G.State, c: B.Cache)
    requires G.Enabled(g, s, G.Step.Crash) && Joined(s, c)
    ensures Joined(G.DoCrash(g, s), B.Start(c.disk))
  {
    hide B.Refines, AsMap;
    B.StartRefines(c.disk);
    NoneListed();
  }

  lemma UseKeepsDisk(c: B.Cache, a: B.Spec, use: B.Step)
    requires B.Refines(c, a) && IsUse(use) && B.Enabled(c, use)
    ensures B.Next(c, use).disk == c.disk
  {
    if use.Fill? {
      assert c.bufs[use.i] in c.bufs;
    }
    hide B.Unique, B.Cached, B.Pinned, B.IsFirst, B.IsVictim;
  }

  lemma UseJoins(s: G.State, c: B.Cache, use: B.Step)
    requires Joined(s, c) && IsUse(use) && B.Enabled(c, use) && B.Keyed(c)
    ensures Joined(s, B.Next(c, use))
  {
    hide B.Refines, B.Next, AsMap, ListedFrom, AtHome;
    B.StepRefines(c, SpecOf(s), use);
    UseKeepsDisk(c, SpecOf(s), use);
  }

  // ---------- a full log pins every buffer ----------

  function KeySet(ks: seq<Key>): set<Key> {
    set k | k in ks
  }

  lemma {:induction false} KeySetSize(ks: seq<Key>)
    ensures |KeySet(ks)| <= |ks|
    ensures (forall i, j :: 0 <= i < j < |ks| ==> ks[i] != ks[j]) ==> |KeySet(ks)| == |ks|
  {
    if ks != [] {
      var n := |ks| - 1;
      KeySetSize(ks[..n]);
      assert KeySet(ks) == KeySet(ks[..n]) + {ks[n]};
    }
  }

  function BufKeys(bufs: seq<B.Buf>): (ks: seq<Key>)
    ensures |ks| == |bufs| && forall i :: 0 <= i < |bufs| ==> ks[i] == bufs[i].key
  {
    seq(|bufs|, i requires 0 <= i < |bufs| => bufs[i].key)
  }

  function BlockKeys(blocks: seq<nat>): (ks: seq<Key>)
    ensures |ks| == |blocks| && forall i :: 0 <= i < |blocks| ==> ks[i] == Key(DEV, blocks[i])
  {
    seq(|blocks|, i requires 0 <= i < |blocks| => Key(DEV, blocks[i]))
  }

  lemma PinnedSize(blocks: seq<nat>, i: nat)
    ensures |ListedFrom(blocks, i)| <= |blocks|
    ensures i == 0 && Distinct(blocks) ==> |ListedFrom(blocks, i)| == |blocks|
  {
    var ks := BlockKeys(blocks);
    KeySetSize(ks);
    forall key | key in ListedFrom(blocks, i)
      ensures key in KeySet(ks)
    {
      var j :| i <= j < |blocks| && blocks[j] == key.blockno;
      assert ks[j] == key;
    }
    SmallerSet(ListedFrom(blocks, i), KeySet(ks));
    if i == 0 {
      forall key | key in KeySet(ks)
        ensures key in ListedFrom(blocks, i)
      {
        var j :| 0 <= j < |ks| && ks[j] == key;
        assert blocks[j] == key.blockno;
      }
      SmallerSet(KeySet(ks), ListedFrom(blocks, i));
    }
  }

  lemma SmallerSet(s: set<Key>, t: set<Key>)
    requires s <= t
    ensures |s| <= |t| && (|s| == |t| ==> s == t)
  {
    assert t == s + (t - s) && |t| == |s| + |t - s|;
  }

  /** With as many blocks pinned as there are buffers, every buffer is a pinned one. */
  lemma AllPinned(c: B.Cache, a: B.Spec, i: nat)
    requires B.Refines(c, a) && |a.pinned| >= B.NBUF && i < |c.bufs|
    ensures c.bufs[i].key in a.pinned
  {
    var ks := BufKeys(c.bufs);
    KeySetSize(ks);
    forall key | key in a.pinned
      ensures key in KeySet(ks)
    {
      assert B.Pinned(c, key);
      var b :| b in c.bufs && b.key == key && b.valid && b.dirty;
      var j :| 0 <= j < |c.bufs| && c.bufs[j] == b;
      assert ks[j] == key;
    }
    SmallerSet(a.pinned, KeySet(ks));
    assert ks[i] in ks;
  }

  /** With NBUF blocks logged and none home yet, no buffer holds a block of the log region. */
  lemma NoBuffer(g: Geometry, s: G.State, c: B.Cache, i: nat, b: nat)
    requires Joined(s, c) && Listed(g, s) && |s.blocks| >= B.NBUF && AtHome(s) == 0 && InLog(g, b)
    ensures !Holds(c, i, b)
  {
    if Holds(c, i, b) {
      PinnedSize(s.blocks, 0);
      AllPinned(c, SpecOf(s), i);
      NotListed(g, s, 0, b);
    }
  }

  // ---------- what every joint run keeps ----------

  /** A log of at least as many blocks as the cache has buffers, or one too small to log anything. */
  predicate Sized(g: Geometry) {
    g.size >= B.NBUF || g.size == 1
  }

  ghost predicate Fine(g: Geometry, d0: Disk, s: G.State) {
    && S.Safe(g, d0, s) && S.Reserved(g, s)
    && (s.phase.Committing? && |s.blocks| >= B.NBUF ==> s.phase.k == 0)
  }

  /** A commit that writes has logged fewer blocks than there are buffers, and so fits the region. */
  lemma WriterFits(g: Geometry, d0: Disk, s: G.State, c: B.Cache, to: nat, from: nat, d: B.Cache)
    requires Sized(g) && Fine(g, d0, s) && Joined(s, c) && GoesThrough(g, s, c, G.Step.CommitWrite, to, from, d)
    ensures |s.blocks| < B.NBUF && |s.blocks| < g.size
  {
    var b: nat, x: Block :| Writes(g, s, G.Step.CommitWrite, b, x) && Holds(c, to, b) && ThroughTo(c, to, x, d);
    assert Listed(g, s) && (g.size == 1 ==> s.blocks == []);
    if |s.blocks| >= B.NBUF {
      NoBuffer(g, s, c, to, b);
    }
  }

  lemma FineMeans(g: Geometry, d0: Disk, s: G.State)
    requires Sized(g) && Fine(g, d0, s)
    ensures Listed(g, s) && S.Budgeted(s) && 1 <= g.size
  {
  }

  lemma LogJoins(g: Geometry, d0: Disk, s: G.State, c: B.Cache, step: G.Step, to: nat, from: nat, t: G.State, d: B.Cache)
    requires Sized(g) && Fine(g, d0, s) && Joined(s, c) && Steps(g, s, c, Log(step, to, from), t, d)
    ensures Joined(t, d)
  {
    hide Joined, Holds, ThroughTo, Writes, Listed, S.Safe, S.Durable, S.Reserved;
    assert Listed(g, s) && S.Budgeted(s) && 1 <= g.size by { FineMeans(g, d0, s); }
    if step.CommitWrite? {
      WriterFits(g, d0, s, c, to, from, d);
    }
    hide Fine, S.Budgeted;
    match step
    case Append(p, b, x) => ActiveRuns(s, p); AppendJoins(g, s, c, to, p, b, x);
    case CommitWrite =>
      var b: nat, x: Block :| Writes(g, s, step, b, x) && Holds(c, to, b) && ThroughTo(c, to, x, d);
      CommitJoins(g, s, c, to, b, x, d);
    case RecoverWrite =>
      var b: nat, x: Block :| Writes(g, s, step, b, x) && Holds(c, to, b) && ThroughTo(c, to, x, d);
      RecoverJoins(g, s, c, to, b, x, d);
    case Crash => CrashJoins(g, s, c);
    case End(p) => ActiveRuns(s, p); QuietJoins(g, s, c, step);
    case _ => QuietJoins(g, s, c, step);
  }

  lemma LogFine(g: Geometry, d0: Disk, s: G.State, c: B.Cache, step: G.Step, to: nat, from: nat, t: G.State, d: B.Cache)
    requires Sized(g) && Fine(g, d0, s) && Joined(s, c) && Steps(g, s, c, Log(step, to, from), t, d)
    ensures Fine(g, d0, t)
  {
    hide Joined, S.Safe, S.Reserved, GoesThrough;
    if step.CommitWrite? {
      WriterFits(g, d0, s, c, to, from, d);
    } else if step.Append? {
      assert s.phase.Running? by { SafeActive(g, d0, s, step.p); }
    }
    S.SafeStep(g, d0, s, step);
    S.ReservedStep(g, s, step);
  }

  lemma SafeActive(g: Geometry, d0: Disk, s: G.State, p: nat)
    requires S.Safe(g, d0, s) && G.IsActive(s, p)
    ensures s.phase.Running?
  {
    ActiveRuns(s, p);
  }

  lemma StepJoins(g: Geometry, d0: Disk, s: G.State, c: B.Cache, e: Step, t: G.State, d: B.Cache)
    requires Sized(g) && Fine(g, d0, s) && Joined(s, c) && Steps(g, s, c, e, t, d)
    ensures Fine(g, d0, t) && Joined(t, d)
  {
    match e
    case Use(use) => UseJoins(s, c, use);
    case Log(step, to, from) =>
      hide Joined, Fine, Steps;
      LogJoins(g, d0, s, c, step, to, from, t, d);
      LogFine(g, d0, s, c, step, to, from, t, d);
  }

  lemma {:induction false} RunJoins(g: Geometry, d0: Disk, s: G.State, c: B.Cache, es: seq<Step>, t: G.State, d: B.Cache)
    requires Sized(g) && Fine(g, d0, s) && Joined(s, c) && Runs(g, s, c, es, t, d)
    ensures Fine(g, d0, t) && Joined(t, d)
    decreases |es|
  {
    hide Fine, Joined, Steps;
    if es != [] {
      var m, n :| Steps(g, s, c, es[0], m, n) && Runs(g, m, n, es[1..], t, d);
      StepJoins(g, d0, s, c, es[0], m, n);
      RunJoins(g, d0, m, n, es[1..], t, d);
    }
  }

  lemma StartJoined(g: Geometry, d0: Disk, procs: nat)
    requires G.IsClean(g, d0)
    ensures Fine(g, d0, G.Init(g, d0, procs)) && Joined(G.Init(g, d0, procs), B.Start(AsMap(d0)))
  {
    S.InitSafe(g, d0, procs);
    S.InitReserved(g, d0, procs);
    hide B.Refines, AsMap, S.Safe, S.Reserved;
    B.StartRefines(AsMap(d0));
    NoneListed();
  }

  /** The joint runs: from a clean disk and an empty cache. */
  ghost predicate Reached(g: Geometry, d0: Disk, procs: nat, s: G.State, c: B.Cache) {
    Reaches(g, G.Init(g, d0, procs), B.Start(AsMap(d0)), s, c)
  }

  lemma ReachedFine(g: Geometry, d0: Disk, procs: nat, s: G.State, c: B.Cache)
    requires G.IsClean(g, d0) && Sized(g) && Reached(g, d0, procs, s, c)
    ensures Fine(g, d0, s) && Joined(s, c)
  {
    var s0, c0 := G.Init(g, d0, procs), B.Start(AsMap(d0));
    var es :| Runs(g, s0, c0, es, s, c);
    StartJoined(g, d0, procs);
    hide Fine, Joined, Runs;
    RunJoins(g, d0, s0, c0, es, s, c);
  }

  /** A call takes effect whole or not at all, with the log as large as the cache, as mkfs lays it out: in every
      state of every joint run the disk stands for the committed groups in order, and the writes of a call are
      all in one of those groups or in none. */
  lemma CallsAreAtomic(g: Geometry, d0: Disk, procs: nat, s: G.State, c: B.Cache, call: nat)
    requires G.IsClean(g, d0) && Sized(g) && Reached(g, d0, procs, s, c) && call < |s.script|
    ensures Represents(g, s.disk, G.ApplyGroups(d0, s.groups)) && S.WholeOrNot(s, call)
    ensures |s.fate| == |s.script| && (s.fate[call] == G.Open ==> forall j :: 0 <= j < |s.groups| ==> G.Of(s.groups[j], call) == [])
  {
    ReachedFine(g, d0, procs, s, c);
    S.SafeCalls(g, d0, s, call);
  }

  /** When recovery completes, the home blocks are the committed groups and nothing else. */
  lemma RecoveryRestores(g: Geometry, d0: Disk, procs: nat, s: G.State, c: B.Cache)
    requires G.IsClean(g, d0) && Sized(g) && Reached(g, d0, procs, s, c) && G.Enabled(g, s, G.Step.RecoverDone)
    ensures SameHome(g, s.disk, G.ApplyGroups(d0, s.groups)) && Fits(g, s.disk) && HeadIs(g, s.disk, [])
  {
    ReachedFine(g, d0, procs, s, c);
    S.SafeRecovery(g, d0, s);
  }

  /** A buffer that is not free holds block b with the latest contents. */
  ghost predicate PinnedTo(c: B.Cache, b: nat, latest: map<Key, Data>) {
    exists buf :: buf in c.bufs && buf.key == Key(DEV, b) && !B.Free(buf) && buf.key in latest && buf.data == latest[buf.key]
  }

  lemma PinnedMeans(c: B.Cache, a: B.Spec, b: nat)
    requires B.Refines(c, a) && Key(DEV, b) in a.pinned
    ensures PinnedTo(c, b, a.latest)
  {
    assert B.Pinned(c, Key(DEV, b));
    var buf :| buf in c.bufs && buf.key == Key(DEV, b) && buf.valid && buf.dirty;
    assert B.Coherent(c, a.latest, buf);
  }

  /** In every joint run: a block that is logged and not yet at home is in the cache with the contents last
      logged, in a buffer that is not recycled; and whatever the cache shows or would read is what the log
      takes for the latest contents. */
  lemma LoggedStayCached(g: Geometry, d0: Disk, procs: nat, s: G.State, c: B.Cache, i: nat)
    requires G.IsClean(g, d0) && Sized(g) && Reached(g, d0, procs, s, c) && i < |c.bufs|
    ensures c.disk == AsMap(s.disk) && (!s.phase.Recovering? ==> |s.latest| == |s.disk|)
    ensures forall j :: AtHome(s) <= j < |s.blocks| ==> PinnedTo(c, s.blocks[j], SpecOf(s).latest)
    ensures c.bufs[i].valid ==> c.bufs[i].key in SpecOf(s).latest && c.bufs[i].data == SpecOf(s).latest[c.bufs[i].key]
    ensures c.bufs[i].dirty <==> c.bufs[i].key in SpecOf(s).pinned
    ensures c.bufs[i].dirty ==> !B.IsVictim(c.bufs, i)
  {
    ReachedFine(g, d0, procs, s, c);
    assert B.Refines(c, SpecOf(s)) && c.bufs[i] in c.bufs;
    assert !s.phase.Recovering? ==> |s.latest| == |s.disk|;
    hide S.Safe, S.Reserved, AsMap, Fine, B.Unique;
    forall j | AtHome(s) <= j < |s.blocks|
      ensures PinnedTo(c, s.blocks[j], SpecOf(s).latest)
    {
      PinnedMeans(c, SpecOf(s), s.blocks[j]);
    }
    if c.bufs[i].key in SpecOf(s).pinned {
      B.PinnedHere(c, SpecOf(s), i);
    }
  }

  /** What commit and recovery copy between buffers is what the log takes them to write. */
  lemma CopyShows(g: Geometry, s: G.State, c: B.Cache, step: G.Step, from: nat, b: nat, x: Block)
    requires Joined(s, c) && Writes(g, s, step, b, x) && CopyOf(g, s, step).Some? && Holds(c, from, CopyOf(g, s, step).value)
    ensures c.bufs[from].data == x
  {
    hide B.Refines, ListedFrom, AtHome, WithHead, SpecOf;
    Shows(c, SpecOf(s), from);
    CopiedIs(g, s, step, b, x);
  }

  lemma CopiedIs(g: Geometry, s: G.State, step: G.Step, b: nat, x: Block)
    requires Writes(g, s, step, b, x) && CopyOf(g, s, step).Some?
    ensures var key := Key(DEV, CopyOf(g, s, step).value); key in SpecOf(s).latest && SpecOf(s).latest[key] == x
  {
    hide ListedFrom, AtHome, WithHead;
  }

  lemma Shows(c: B.Cache, a: B.Spec, i: nat)
    requires B.Refines(c, a) && i < |c.bufs|
    ensures c.bufs[i].valid ==> c.bufs[i].key in a.latest && c.bufs[i].data == a.latest[c.bufs[i].key]
  {
    assert c.bufs[i] in c.bufs && B.Coherent(c, a.latest, c.bufs[i]);
  }
}
