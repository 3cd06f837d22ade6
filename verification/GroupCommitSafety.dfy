/** What every step of group commit keeps, and what that says about whole runs. */
module GroupCommitSafety {
  import opened Common
  import opened Log
  import opened GroupCommit

  // ---------- reservations ----------

  /** The log space a process still has reserved. */
  function SpareOf(o: Op): int {
    if o.Active? then MAXOPBLOCKS - |o.wrote| else 0
  }

  function Spare(ops: seq<Op>): int {
    if ops == [] then 0 else Spare(ops[..|ops| - 1]) + SpareOf(ops[|ops| - 1])
  }

  function Actives(ops: seq<Op>): nat {
    if ops == [] then 0 else Actives(ops[..|ops| - 1]) + if ops[|ops| - 1].Active? then 1 else 0
  }

  lemma {:induction false} SpareUpdate(ops: seq<Op>, p: nat, o: Op)
    requires p < |ops|
    ensures Spare(ops[p := o]) == Spare(ops) - SpareOf(ops[p]) + SpareOf(o)
    ensures Actives(ops[p := o]) ==
            Actives(ops) - (if ops[p].Active? then 1 else 0) + if o.Active? then 1 else 0
  {
    var n := |ops| - 1;
    if p == n {
      assert ops[p := o][..n] == ops[..n];
    } else {
      assert ops[p := o][..n] == ops[..n][p := o];
      SpareUpdate(ops[..n], p, o);
    }
  }

  lemma {:induction false} SpareBound(ops: seq<Op>)
    ensures Spare(ops) <= Actives(ops) * MAXOPBLOCKS
  {
    if ops != [] {
      SpareBound(ops[..|ops| - 1]);
    }
  }

  lemma {:induction false} SpareNonNegative(ops: seq<Op>)
    requires forall i :: 0 <= i < |ops| && ops[i].Active? ==> |ops[i].wrote| <= MAXOPBLOCKS
    ensures Spare(ops) >= 0
  {
    if ops != [] {
      SpareNonNegative(ops[..|ops| - 1]);
    }
  }

  lemma {:induction false} SpareOfWoken(ops: seq<Op>)
    ensures Spare(Wake(ops)) == Spare(ops) && Actives(Wake(ops)) == Actives(ops)
  {
    if ops != [] {
      SpareOfWoken(ops[..|ops| - 1]);
      assert Wake(ops)[..|ops| - 1] == Wake(ops[..|ops| - 1]);
    }
  }

  lemma {:induction false} NoActives(ops: seq<Op>)
    requires forall i :: 0 <= i < |ops| ==> !ops[i].Active?
    ensures Spare(ops) == 0 && Actives(ops) == 0
  {
    if ops != [] {
      NoActives(ops[..|ops| - 1]);
    }
  }

  lemma {:induction false} SomeActive(ops: seq<Op>, p: nat)
    requires p < |ops| && ops[p].Active?
    ensures Actives(ops) > 0
  {
    if p < |ops| - 1 {
      SomeActive(ops[..|ops| - 1], p);
    }
  }

  /** Reservations cover the log, and whoever sleeps in begin_op has a reason to. */
  ghost predicate Budgeted(s: State) {
    && s.outstanding == Actives(s.ops)
    && Distinct(s.blocks) && |s.blocks| + Spare(s.ops) <= LOGSIZE
    && (!s.phase.Running? ==> s.outstanding == 0)
    && (forall p :: 0 <= p < |s.ops| && s.ops[p].Active? ==>
          |s.ops[p].wrote| <= MAXOPBLOCKS && forall b :: b in s.ops[p].wrote ==> b in s.blocks)
    && (forall p :: 0 <= p < |s.ops| && s.ops[p].Asleep? ==>
          MustWait(|s.blocks|, s.outstanding, s.phase.Committing?))
  }

  lemma BudgetTry(g: Geometry, s: State, p: nat)
    requires Budgeted(s) && Enabled(g, s, Try(p))
    ensures Budgeted(DoTry(s, p))
  {
    SpareUpdate(s.ops, p, Asleep);
    SpareUpdate(s.ops, p, Active(|s.script|, {}, false));
    SpareBound(s.ops);
  }

  lemma BudgetAppend(g: Geometry, s: State, p: nat, b: nat, x: Block)
    requires Budgeted(s) && Enabled(g, s, Append(p, b, x))
    ensures Budgeted(DoAppend(s, p, b, x))
  {
    var o := s.ops[p];
    SpareUpdate(s.ops, p, Active(o.call, o.wrote + {b}, false));
    if b !in s.blocks {
      assert b !in o.wrote && |o.wrote + {b}| == |o.wrote| + 1;
    } else if b in o.wrote {
      assert o.wrote + {b} == o.wrote;
    }
  }

  lemma BudgetEnd(g: Geometry, s: State, p: nat)
    requires Budgeted(s) && Enabled(g, s, End(p))
    ensures Budgeted(DoEnd(s, p))
  {
    hide Spare, Actives;
    var ops := s.ops[p := Outside];
    SpareUpdate(s.ops, p, Outside);
    SpareOfWoken(ops);
    NoneLeft(ops);
  }

  lemma NoneLeft(ops: seq<Op>)
    ensures Actives(ops) == 0 ==> forall i :: 0 <= i < |ops| ==> !ops[i].Active?
  {
    forall i | 0 <= i < |ops| && ops[i].Active?
      ensures Actives(ops) > 0
    {
      SomeActive(ops, i);
    }
  }

  lemma BudgetKept(g: Geometry, s: State, step: Step)
    requires Budgeted(s) && Enabled(g, s, step)
    ensures Budgeted(Next(g, s, step))
  {
    match step
    case Try(p) => BudgetTry(g, s, p);
    case Guard(p) => SpareUpdate(s.ops, p, s.ops[p].(guarded := true));
    case Append(p, b, x) => BudgetAppend(g, s, p, b, x);
    case End(p) => BudgetEnd(g, s, p);
    case CommitDone => BudgetCommitDone(g, s);
    case Crash => NoActives(DoCrash(g, s).ops);
    case _ =>
  }

  lemma BudgetCommitDone(g: Geometry, s: State)
    requires Budgeted(s) && Enabled(g, s, CommitDone)
    ensures Budgeted(Next(g, s, CommitDone))
  {
    SpareOfWoken(s.ops);
    SpareBound(s.ops);
    forall i | 0 <= i < |s.ops| && s.ops[i].Active?
      ensures false
    {
      SomeActive(s.ops, i);
    }
  }

  // ---------- the disk ----------

  /** A commit in progress: `after` is what it makes of `before`. */
  ghost predicate CommitUnderway(g: Geometry, s: State, after: Disk)
    requires s.phase.Committing?
  {
    var Committing(from, before, k) := s.phase;
    && RepresentsVia(g, from, before, [])
    && |s.latest| == |from|
    && (k == 0 ==> s.disk == from)
    && (k > 0 ==>
          && Loggable(g, |from|, s.blocks) && s.blocks != [] && k <= 2 * |s.blocks| + 2
          && IsUpdate(g, before, after, s.blocks, ContentsOf(s.latest, s.blocks))
          && s.disk == CommitDisk(g, from, s.blocks, ContentsOf(s.latest, s.blocks), k))
  }

  /** Before its header is written a commit has changed nothing; from then on it has happened. */
  ghost predicate CommitKnown(s: State)
    requires s.phase.Committing?
  {
    if s.phase.k <= |s.blocks| then s.phase.before == s.home else s.pending == []
  }

  /** The cache shows the log region as it is on disk. */
  ghost predicate LogCached(g: Geometry, disk: Disk, latest: Disk) {
    |latest| == |disk| && forall b :: InLog(g, b) && 0 <= b < |disk| ==> latest[b] == disk[b]
  }

  ghost predicate LogListed(g: Geometry, s: State) {
    && Distinct(s.blocks)
    && (forall i :: 0 <= i < |s.blocks| ==> IsHome(g, |s.disk|, s.blocks[i]))
    && (forall w :: w in s.pending ==> w.block in s.blocks)
  }

  /** The disk always stands for the committed contents, and the cache for those plus the pending writes. */
  ghost predicate Durable(g: Geometry, s: State) {
    && |s.home| == |s.disk|
    && LogListed(g, s)
    && (!s.phase.Recovering? ==> SameHome(g, s.latest, Apply(s.home, s.pending)) && LogCached(g, s.disk, s.latest))
    && match s.phase
       case Running => RepresentsVia(g, s.disk, s.home, [])
       case Committing(from, before, k) =>
         CommitUnderway(g, s, Apply(s.home, s.pending)) && CommitKnown(s)
       case Recovering(from, named, k) =>
         && s.pending == [] && k <= |named| + 1
         && RepresentsVia(g, from, s.home, named) && s.disk == RecoverDisk(g, from, named, k)
  }

  lemma DurableMeans(g: Geometry, s: State)
    requires Durable(g, s)
    ensures Represents(g, s.disk, s.home)
  {
    match s.phase
    case Running =>
    case Committing(from, before, k) =>
      if k == 0 {
        assert RepresentsVia(g, s.disk, s.home, []);
      } else {
        CommitPoint(g, from, before, Apply(s.home, s.pending), s.blocks, ContentsOf(s.latest, s.blocks), k);
      }
    case Recovering(from, named, k) =>
      if k <= |named| {
        InstallKeeps(g, from, s.home, named, k);
        assert RepresentsVia(g, s.disk, s.home, named);
      } else {
        ClearKeeps(g, from, s.home, named);
        assert RepresentsVia(g, s.disk, s.home, []);
      }
  }

  lemma DurableAppend(g: Geometry, s: State, p: nat, b: nat, x: Block)
    requires Durable(g, s) && Budgeted(s) && Enabled(g, s, Append(p, b, x))
    ensures Durable(g, DoAppend(s, p, b, x))
  {
    SomeActive(s.ops, p);
    assert s.phase.Running?;
    var w := Write(s.ops[p].call, b, x);
    ApplyMore(s.home, s.pending, w);
    var t := DoAppend(s, p, b, x);
    forall v | v in t.pending
      ensures v.block in t.blocks
    {
      assert v in s.pending || v == w;
    }
  }

  /** The pending writes are an update of exactly the logged blocks. */
  lemma PendingIsUpdate(g: Geometry, s: State)
    requires |s.home| == |s.disk| == |s.latest| && LogListed(g, s) && Loggable(g, |s.disk|, s.blocks)
    requires SameHome(g, s.latest, Apply(s.home, s.pending))
    ensures IsUpdate(g, s.home, Apply(s.home, s.pending), s.blocks, ContentsOf(s.latest, s.blocks))
  {
    var after := Apply(s.home, s.pending);
    forall b | IsHome(g, |s.home|, b) && b !in s.blocks
      ensures after[b] == s.home[b]
    {
      ApplyFrame(s.home, s.pending, b);
    }
    assert forall i :: 0 <= i < |s.blocks| ==> s.latest[s.blocks[i]] == after[s.blocks[i]];
  }

  /** The target and the source of every write of a commit within the region exist. */
  lemma CommitInDisk(g: Geometry, from: Disk, blocks: seq<nat>, k: nat)
    requires Fits(g, from) && Loggable(g, |from|, blocks) && k < 2 * |blocks| + 2
    ensures InDisk(g, from, blocks) && SlotInDisk(g, |from|, blocks, k) && CommitTarget(g, blocks, k) < |from|
  {
  }

  /** What one write must do to disk and cache. */
  ghost predicate StepsOn(g: Geometry, from: Disk, disk: Disk, latest: Disk, blocks: seq<nat>, k: nat, b: nat, x: Block)
    requires Fits(g, from) && Loggable(g, |from|, blocks) && k < 2 * |blocks| + 2 && |latest| == |from| == |disk| && b < |disk|
  {
    && disk[b := x] == CommitDisk(g, from, blocks, ContentsOf(latest, blocks), k + 1)
    && ContentsOf(latest[b := x], blocks) == ContentsOf(latest, blocks)
    && SameHome(g, latest[b := x], latest) && LogCached(g, disk[b := x], latest[b := x])
  }

  lemma CommitLogStep(g: Geometry, from: Disk, disk: Disk, latest: Disk, blocks: seq<nat>, k: nat)
    requires Fits(g, from) && Loggable(g, |from|, blocks) && k < |blocks|
    requires |latest| == |from| && LogCached(g, disk, latest) && disk == CommitDisk(g, from, blocks, ContentsOf(latest, blocks), k)
    ensures StepsOn(g, from, disk, latest, blocks, k, g.start + 1 + k, latest[blocks[k]])
  {
    SlotWritten(g, from, ContentsOf(latest, blocks), k);
    hide Logged, Installed, Headed;
  }

  lemma CommitHeadStep(g: Geometry, from: Disk, disk: Disk, latest: Disk, blocks: seq<nat>, k: nat)
    requires Fits(g, from) && Loggable(g, |from|, blocks) && (k == |blocks| || k == 2 * |blocks| + 1)
    requires |latest| == |from| && LogCached(g, disk, latest) && disk == CommitDisk(g, from, blocks, ContentsOf(latest, blocks), k)
    ensures StepsOn(g, from, disk, latest, blocks, k, g.start, WithHead(latest[g.start], if k == |blocks| then blocks else []))
  {
    assert latest[g.start] == disk[g.start];
    hide Logged, WithHead;
  }

  lemma CommitInstallStep(g: Geometry, from: Disk, disk: Disk, latest: Disk, blocks: seq<nat>, k: nat)
    requires Fits(g, from) && Loggable(g, |from|, blocks) && |blocks| < k <= 2 * |blocks|
    requires |latest| == |from| && LogCached(g, disk, latest) && disk == CommitDisk(g, from, blocks, ContentsOf(latest, blocks), k)
    ensures StepsOn(g, from, disk, latest, blocks, k, blocks[k - |blocks| - 1], latest[g.start + (k - |blocks|)])
  {
    var n, data := |blocks|, ContentsOf(latest, blocks);
    var i := k - n - 1;
    var committed := Headed(g, Logged(g, from, data, n), blocks);
    assert committed[g.start + 1 + i] == data[i];
    assert g.start + 1 + i !in blocks[..i];
    InstalledFrame(g, committed, blocks, i, g.start + 1 + i);
    hide Logged, WithHead;
    assert latest[g.start + 1 + i] == data[i] == latest[blocks[i]];
    assert latest[blocks[i] := data[i]] == latest;
  }

  /** Write k of commit takes the disk from its k-th state to the next, and the cached home blocks stay as they are. */
  lemma CommitStep(g: Geometry, from: Disk, disk: Disk, latest: Disk, blocks: seq<nat>, k: nat)
    requires Fits(g, from) && Loggable(g, |from|, blocks) && k < 2 * |blocks| + 2
    requires |latest| == |from| && LogCached(g, disk, latest) && disk == CommitDisk(g, from, blocks, ContentsOf(latest, blocks), k)
    ensures InDisk(g, latest, blocks) && SlotInDisk(g, |disk|, blocks, k) && CommitTarget(g, blocks, k) < |disk|
    ensures StepsOn(g, from, disk, latest, blocks, k, CommitTarget(g, blocks, k), CommitValue(g, latest, blocks, k))
  {
    hide CommitDisk, SameHome, StepsOn;
    CommitInDisk(g, from, blocks, k);
    if k < |blocks| {
      CommitLogStep(g, from, disk, latest, blocks, k);
    } else if k == |blocks| || k == 2 * |blocks| + 1 {
      CommitHeadStep(g, from, disk, latest, blocks, k);
    } else {
      CommitInstallStep(g, from, disk, latest, blocks, k);
    }
  }

  lemma SlotWritten(g: Geometry, d: Disk, data: seq<Block>, k: nat)
    requires Fits(g, d) && k < |data| < g.size
    ensures Logged(g, d, data, k)[g.start + 1 + k := data[k]] == Logged(g, d, data, k + 1)
  {
  }

  lemma CommitUnderwayKept(g: Geometry, s: State, after: Disk)
    requires Enabled(g, s, CommitWrite) && Loggable(g, |s.disk|, s.blocks) && CommitUnderway(g, s, after) && LogCached(g, s.disk, s.latest)
    requires s.phase.k == 0 ==> IsUpdate(g, s.phase.before, after, s.blocks, ContentsOf(s.latest, s.blocks))
    ensures var t := DoCommitWrite(g, s);
            CommitUnderway(g, t, after) && LogCached(g, t.disk, t.latest) && SameHome(g, t.latest, s.latest)
  {
    hide RepresentsVia, IsUpdate, CommitDisk, CommitTarget, CommitValue, SameHome, LogCached;
    var Committing(from, before, k) := s.phase;
    HeadEmpty(g, from, before);
    if k == 0 {
      NothingLogged(g, from, s.blocks, ContentsOf(s.latest, s.blocks));
    }
    CommitStep(g, from, s.disk, s.latest, s.blocks, k);
  }

  lemma HeadEmpty(g: Geometry, d: Disk, h: Disk)
    requires RepresentsVia(g, d, h, [])
    ensures Fits(g, d) && |h| == |d|
  {
  }

  lemma NothingLogged(g: Geometry, d: Disk, blocks: seq<nat>, data: seq<Block>)
    requires Fits(g, d) && Loggable(g, |d|, blocks) && |data| == |blocks|
    ensures CommitDisk(g, d, blocks, data, 0) == d
  {
  }

  /** The disks a commit goes through are those of `Log.CommitDisk`, which `LogDevice.Commit` writes. */
  lemma {:induction false} CommitRunIs(g: Geometry, s: State, k: nat, t: State)
    requires s.phase.Committing? && s.phase.k == 0 && Fits(g, s.disk) && Loggable(g, |s.disk|, s.blocks) && LogCached(g, s.disk, s.latest)
    requires k <= 2 * |s.blocks| + 2 && Runs(g, s, seq(k, _ => CommitWrite), t)
    ensures t.disk == CommitDisk(g, s.disk, s.blocks, ContentsOf(s.latest, s.blocks), k) && SameHome(g, t.latest, s.latest)
  {
    NothingLogged(g, s.disk, s.blocks, ContentsOf(s.latest, s.blocks));
    CommitRunFrom(g, s.disk, s, 0, k, t);
  }

  lemma {:induction false} CommitRunFrom(g: Geometry, from: Disk, s: State, i: nat, k: nat, t: State)
    requires s.phase.Committing? && s.phase.k == i <= k <= 2 * |s.blocks| + 2 && Fits(g, from) && Loggable(g, |from|, s.blocks)
    requires |s.latest| == |from| && LogCached(g, s.disk, s.latest)
    requires s.disk == CommitDisk(g, from, s.blocks, ContentsOf(s.latest, s.blocks), i)
    requires Runs(g, s, seq(k - i, _ => CommitWrite), t)
    ensures |t.latest| == |from| && t.blocks == s.blocks && SameHome(g, t.latest, s.latest)
    ensures t.disk == CommitDisk(g, from, s.blocks, ContentsOf(s.latest, s.blocks), k)
    decreases k - i
  {
    hide CommitDisk, CommitTarget, CommitValue, LogCached, SameHome, Loggable, ContentsOf;
    var steps: seq<Step> := seq(k - i, _ => CommitWrite);
    if i == k {
      assert steps == [];
      SameHomeSelf(g, s.latest);
    } else {
      CommitStep(g, from, s.disk, s.latest, s.blocks, i);
      assert steps[0] == CommitWrite && steps[1..] == seq(k - (i + 1), _ => CommitWrite);
      var u := Next(g, s, CommitWrite);
      CommitRunFrom(g, from, u, i + 1, k, t);
      SameHomeTrans(g, t.latest, u.latest, s.latest);
    }
  }

  lemma DurableCommitWrite(g: Geometry, s: State)
    requires Durable(g, s) && Enabled(g, s, CommitWrite) && |s.blocks| < g.size
    ensures Durable(g, DoCommitWrite(g, s))
  {
    hide RepresentsVia, IsUpdate, CommitDisk, CommitTarget, CommitValue, LogCached;
    var after := Apply(s.home, s.pending);
    if s.phase.k == 0 {
      PendingIsUpdate(g, s);
    }
    var t := DoCommitWrite(g, s);
    CommitUnderwayKept(g, s, after);
    SameHomeTrans(g, t.latest, s.latest, after);
    assert Apply(t.home, t.pending) == after;
    hide SameHome, CommitUnderway;
  }

  lemma SameHomeSelf(g: Geometry, d: Disk)
    ensures SameHome(g, d, d)
  {
  }

  lemma SameHomeTrans(g: Geometry, d: Disk, e: Disk, f: Disk)
    requires SameHome(g, d, e) && SameHome(g, e, f)
    ensures SameHome(g, d, f)
  {
  }

  lemma DurableCrash(g: Geometry, s: State)
    requires Durable(g, s) && Enabled(g, s, Crash)
    ensures Durable(g, DoCrash(g, s))
  {
    DurableMeans(g, s);
    var named :| RepresentsVia(g, s.disk, s.home, named);
    HeadBlocksReads(g, s.disk, named);
  }

  lemma DurableCommitDone(g: Geometry, s: State)
    requires Durable(g, s) && Enabled(g, s, CommitDone)
    ensures Durable(g, Next(g, s, CommitDone))
  {
    if s.blocks != [] {
      CommitEnd(g, s.phase.from, s.phase.before, s.home, s.blocks, ContentsOf(s.latest, s.blocks));
    }
    if s.pending != [] {
      assert false;
    }
  }

  lemma DurableKept(g: Geometry, s: State, step: Step)
    requires Durable(g, s) && Budgeted(s) && Enabled(g, s, step) && (step == CommitWrite ==> |s.blocks| < g.size)
    ensures Durable(g, Next(g, s, step))
  {
    hide Durable, Budgeted;
    match step
    case Append(p, b, x) => DurableAppend(g, s, p, b, x);
    case CommitWrite => DurableCommitWrite(g, s);
    case CommitDone => DurableCommitDone(g, s);
    case Crash => DurableCrash(g, s);
    case RecoverWrite => DurableRecover(g, s, step);
    case RecoverDone => DurableRecover(g, s, step);
    case _ => DurableOther(g, s, step);
  }

  /** Steps that write nothing to the cache and do not commit. */
  lemma DurableOther(g: Geometry, s: State, step: Step)
    requires Durable(g, s) && Budgeted(s) && Enabled(g, s, step)
    requires step.Try? || step.Guard? || step.End?
    ensures Durable(g, Next(g, s, step))
  {
    if step.End? {
      SomeActive(s.ops, step.p);
    }
    hide RepresentsVia, SameHome, Actives, Spare;
  }

  lemma RecoverStep(g: Geometry, from: Disk, disk: Disk, named: seq<nat>, k: nat)
    requires Fits(g, from) && Loggable(g, |from|, named) && k <= |named| && disk == RecoverDisk(g, from, named, k)
    ensures |disk| == |from|
    ensures RecoverDisk(g, from, named, k + 1) ==
            if k < |named| then disk[named[k] := disk[g.start + 1 + k]] else disk[g.start := WithHead(disk[g.start], [])]
  {
    hide WithHead;
  }

  lemma DurableRecover(g: Geometry, s: State, step: Step)
    requires Durable(g, s) && Enabled(g, s, step) && (step.RecoverWrite? || step.RecoverDone?)
    ensures Durable(g, Next(g, s, step))
  {
    var Recovering(from, named, k) := s.phase;
    if step.RecoverDone? {
      ClearKeeps(g, from, s.home, named);
      hide Installed, WithHead;
    } else {
      RecoverStep(g, from, s.disk, named, k);
      hide RepresentsVia, RecoverDisk, SameHome, WithHead;
    }
  }

  // ---------- whole calls ----------

  /** An open call belongs to exactly one process, which is inside its operation. */
  ghost predicate OpenCalls(s: State) {
    && |s.fate| == |s.script|
    && (forall p :: 0 <= p < |s.ops| && s.ops[p].Active? ==>
          s.ops[p].call < |s.fate| && s.fate[s.ops[p].call] == Open)
    && (forall p, q :: 0 <= p < q < |s.ops| && s.ops[p].Active? && s.ops[q].Active? ==>
          s.ops[p].call != s.ops[q].call)
    && (forall c :: 0 <= c < |s.fate| && s.fate[c] == Open ==>
          exists p :: 0 <= p < |s.ops| && s.ops[p].Active? && s.ops[p].call == c)
  }

  predicate Undecided(f: Fate) {
    f.Open? || f.Ended?
  }

  /** All writes of an undecided call are pending; all writes of a committed call are in its group. */
  ghost predicate Whole(s: State) {
    && |s.fate| == |s.script|
    && (forall c :: 0 <= c < |s.fate| && Undecided(s.fate[c]) ==> Of(s.pending, c) == s.script[c])
    && (forall c :: 0 <= c < |s.fate| && s.fate[c].InGroup? ==>
          s.fate[c].group < |s.groups| && Of(s.groups[s.fate[c].group], c) == s.script[c])
    && (forall w :: w in s.pending ==> w.call < |s.fate| && Undecided(s.fate[w.call]))
    && (forall j, w :: 0 <= j < |s.groups| && w in s.groups[j] ==>
          w.call < |s.fate| && s.fate[w.call] == InGroup(j))
  }

  lemma OpenCallsKept(g: Geometry, s: State, step: Step)
    requires OpenCalls(s) && Budgeted(s) && Enabled(g, s, step)
    ensures OpenCalls(Next(g, s, step))
  {
    hide OpenCalls, Budgeted;
    match step
    case Try(p) => OpenCallsTry(g, s, p);
    case Guard(p) => OpenCallsUpdate(s, Next(g, s, step));
    case Append(p, b, x) => OpenCallsUpdate(s, DoAppend(s, p, b, x));
    case End(p) => OpenCallsEnd(g, s, p);
    case CommitWrite => OpenCallsCommit(g, s);
    case CommitDone => OpenCallsUpdate(s, Next(g, s, step));
    case Crash => OpenCallsCrash(g, s);
    case RecoverWrite => OpenCallsUpdate(s, Next(g, s, step));
    case RecoverDone => OpenCallsUpdate(s, Next(g, s, step));
  }

  lemma OpenCallsCrash(g: Geometry, s: State)
    requires OpenCalls(s) && Enabled(g, s, Crash)
    ensures OpenCalls(DoCrash(g, s))
  {
  }

  lemma OpenCallsCommit(g: Geometry, s: State)
    requires OpenCalls(s) && Budgeted(s) && Enabled(g, s, CommitWrite)
    ensures OpenCalls(DoCommitWrite(g, s))
  {
    forall c | 0 <= c < |s.fate| && s.fate[c] == Open
      ensures false
    {
      var p :| 0 <= p < |s.ops| && s.ops[p].Active? && s.ops[p].call == c;
      SomeActive(s.ops, p);
    }
    forall p | 0 <= p < |s.ops| && s.ops[p].Active?
      ensures false
    {
      SomeActive(s.ops, p);
    }
  }

  /** Steps that leave every process in the same call. */
  lemma OpenCallsUpdate(s: State, t: State)
    requires OpenCalls(s)
    requires |t.ops| == |s.ops| && t.fate == s.fate && |t.script| == |s.script|
    requires forall p :: 0 <= p < |s.ops| ==> (s.ops[p].Active? <==> t.ops[p].Active?)
    requires forall p :: 0 <= p < |s.ops| && s.ops[p].Active? ==> s.ops[p].call == t.ops[p].call
    ensures OpenCalls(t)
  {
    forall c | 0 <= c < |t.fate| && t.fate[c] == Open
      ensures exists p :: 0 <= p < |t.ops| && t.ops[p].Active? && t.ops[p].call == c
    {
      var p :| 0 <= p < |s.ops| && s.ops[p].Active? && s.ops[p].call == c;
      assert t.ops[p].Active? && t.ops[p].call == c;
    }
  }

  lemma OpenCallsTry(g: Geometry, s: State, p: nat)
    requires OpenCalls(s) && Enabled(g, s, Try(p))
    ensures OpenCalls(DoTry(s, p))
  {
    var t := DoTry(s, p);
    forall c | 0 <= c < |t.fate| && t.fate[c] == Open
      ensures exists q :: 0 <= q < |t.ops| && t.ops[q].Active? && t.ops[q].call == c
    {
      if c < |s.fate| {
        var q :| 0 <= q < |s.ops| && s.ops[q].Active? && s.ops[q].call == c;
        assert t.ops[q] == s.ops[q];
      } else {
        assert t.ops[p].Active? && t.ops[p].call == c;
      }
    }
  }

  lemma OpenCallsEnd(g: Geometry, s: State, p: nat)
    requires OpenCalls(s) && Enabled(g, s, End(p))
    ensures OpenCalls(DoEnd(s, p))
  {
    var t := DoEnd(s, p);
    forall c | 0 <= c < |t.fate| && t.fate[c] == Open
      ensures exists q :: 0 <= q < |t.ops| && t.ops[q].Active? && t.ops[q].call == c
    {
      hide Enabled;
      var q :| 0 <= q < |s.ops| && s.ops[q].Active? && s.ops[q].call == c;
      assert t.ops[q] == s.ops[q];
    }
  }

  lemma WholeAppend(g: Geometry, s: State, p: nat, b: nat, x: Block)
    requires Whole(s) && OpenCalls(s) && Enabled(g, s, Append(p, b, x))
    ensures Whole(DoAppend(s, p, b, x))
  {
    var w := Write(s.ops[p].call, b, x);
    var t := DoAppend(s, p, b, x);
    forall c | 0 <= c < |t.fate| && Undecided(t.fate[c])
      ensures Of(t.pending, c) == t.script[c]
    {
      OfMore(s.pending, w, c);
    }
    forall v | v in t.pending
      ensures v.call < |t.fate| && Undecided(t.fate[v.call])
    {
      assert v in s.pending || v == w;
    }
  }

  lemma WholeTry(g: Geometry, s: State, p: nat)
    requires Whole(s) && Enabled(g, s, Try(p))
    ensures Whole(DoTry(s, p))
  {
    OfNone(s.pending, |s.script|);
  }

  lemma WholeCommitWrite(g: Geometry, s: State)
    requires Whole(s) && Enabled(g, s, CommitWrite)
    ensures Whole(DoCommitWrite(g, s))
  {
    var t := DoCommitWrite(g, s);
    if s.phase.k == |s.blocks| {
      forall c | 0 <= c < |t.fate| && t.fate[c].InGroup?
        ensures t.fate[c].group < |t.groups| && Of(t.groups[t.fate[c].group], c) == t.script[c]
      {
        if Undecided(s.fate[c]) {
          assert t.groups[|s.groups|] == s.pending;
        }
      }
      forall j, w | 0 <= j < |t.groups| && w in t.groups[j]
        ensures w.call < |t.fate| && t.fate[w.call] == InGroup(j)
      {
        if j < |s.groups| {
          assert w in s.groups[j];
        } else {
          assert w in s.pending;
        }
      }
    }
  }

  lemma WholeEnd(g: Geometry, s: State, p: nat)
    requires Whole(s) && OpenCalls(s) && Enabled(g, s, End(p))
    ensures Whole(DoEnd(s, p))
  {
    hide Whole;
    WholeFates(s, DoEnd(s, p), false);
  }

  lemma WholeKept(g: Geometry, s: State, step: Step)
    requires Whole(s) && OpenCalls(s) && Enabled(g, s, step)
    ensures Whole(Next(g, s, step))
  {
    hide Whole, OpenCalls;
    match step
    case Try(p) => WholeTry(g, s, p);
    case Append(p, b, x) => WholeAppend(g, s, p, b, x);
    case End(p) => WholeEnd(g, s, p);
    case CommitWrite => WholeCommitWrite(g, s);
    case Crash => WholeFates(s, DoCrash(g, s), true);
    case _ => WholeFates(s, Next(g, s, step), false);
  }

  /** Steps that only decide some fates, losing whatever is dropped from the pending writes. */
  lemma WholeFates(s: State, t: State, lost: bool)
    requires Whole(s)
    requires t.script == s.script && t.groups == s.groups && |t.fate| == |s.fate|
    requires forall c :: 0 <= c < |s.fate| ==> if s.fate[c].InGroup? then t.fate[c] == s.fate[c] else !t.fate[c].InGroup?
    requires t.pending == if lost then [] else s.pending
    requires forall c :: 0 <= c < |s.fate| ==> Undecided(t.fate[c]) == (!lost && Undecided(s.fate[c]))
    ensures Whole(t)
  {
  }

  // ---------- runs ----------

  ghost predicate Safe(g: Geometry, d: Disk, s: State) {
    && Budgeted(s) && Durable(g, s) && OpenCalls(s) && Whole(s)
    && s.home == ApplyGroups(d, s.groups)
  }

  lemma InitSafe(g: Geometry, d: Disk, procs: nat)
    requires IsClean(g, d)
    ensures Safe(g, d, Init(g, d, procs))
  {
    NoActives(Init(g, d, procs).ops);
    assert RepresentsVia(g, d, d, []);
  }

  /** Every step keeps the invariant, a write of commit provided the logged blocks fit the region. */
  lemma SafeStep(g: Geometry, d: Disk, s: State, step: Step)
    requires Safe(g, d, s) && Enabled(g, s, step) && (step == CommitWrite ==> |s.blocks| < g.size)
    ensures Safe(g, d, Next(g, s, step))
  {
    BudgetKept(g, s, step);
    DurableKept(g, s, step);
    OpenCallsKept(g, s, step);
    WholeKept(g, s, step);
    var t := Next(g, s, step);
    if t.groups != s.groups {
      assert t.groups[..|s.groups|] == s.groups;
    }
  }

  /** Large enough for every header, or too small to log anything. */
  predicate Roomy(g: Geometry) {
    g.size > LOGSIZE || g.size == 1
  }

  ghost predicate NothingGuarded(s: State) {
    s.blocks == [] && forall p :: 0 <= p < |s.ops| && s.ops[p].Active? ==> !s.ops[p].guarded
  }

  /** What holds however large the region is. */
  ghost predicate Reserved(g: Geometry, s: State) {
    Budgeted(s) && OpenCalls(s) && (g.size == 1 ==> NothingGuarded(s))
  }

  lemma ReservedStep(g: Geometry, s: State, step: Step)
    requires Reserved(g, s) && Enabled(g, s, step)
    ensures Reserved(g, Next(g, s, step))
  {
    BudgetKept(g, s, step);
    OpenCallsKept(g, s, step);
    hide Budgeted, OpenCalls;
  }

  lemma {:induction false} ReservedRun(g: Geometry, s: State, steps: seq<Step>, t: State)
    requires Reserved(g, s) && Runs(g, s, steps, t)
    ensures Reserved(g, t)
    decreases |steps|
  {
    hide Reserved;
    if steps != [] {
      ReservedStep(g, s, steps[0]);
      ReservedRun(g, Next(g, s, steps[0]), steps[1..], t);
    }
  }

  lemma InitReserved(g: Geometry, d: Disk, procs: nat)
    ensures Reserved(g, Init(g, d, procs))
  {
    NoActives(Init(g, d, procs).ops);
  }

  lemma ReachableReserved(g: Geometry, d: Disk, procs: nat, s: State)
    requires Reachable(g, d, procs, s)
    ensures Reserved(g, s)
  {
    var steps :| Runs(g, Init(g, d, procs), steps, s);
    InitReserved(g, d, procs);
    ReservedRun(g, Init(g, d, procs), steps, s);
  }

  lemma ReservedFits(g: Geometry, s: State)
    requires Reserved(g, s) && Roomy(g)
    ensures |s.blocks| < g.size
  {
    SpareNonNegative(s.ops);
  }

  lemma {:induction false} SafeRun(g: Geometry, d: Disk, s: State, steps: seq<Step>, t: State)
    requires Roomy(g) && Safe(g, d, s) && Reserved(g, s) && Runs(g, s, steps, t)
    ensures Safe(g, d, t)
    decreases |steps|
  {
    hide Safe, Reserved;
    if steps != [] {
      ReservedFits(g, s);
      SafeStep(g, d, s, steps[0]);
      ReservedStep(g, s, steps[0]);
      SafeRun(g, d, Next(g, s, steps[0]), steps[1..], t);
    }
  }

  lemma ReachableSafe(g: Geometry, d: Disk, procs: nat, s: State)
    requires IsClean(g, d) && Roomy(g) && Reachable(g, d, procs, s)
    ensures Safe(g, d, s)
  {
    var steps :| Runs(g, Init(g, d, procs), steps, s);
    InitSafe(g, d, procs);
    InitReserved(g, d, procs);
    SafeRun(g, d, Init(g, d, procs), steps, s);
  }

  /** What the invariant says of a call: its writes are all in one committed group or in none. */
  ghost predicate WholeOrNot(s: State, call: nat)
    requires call < |s.script|
  {
    || (forall j :: 0 <= j < |s.groups| ==> Of(s.groups[j], call) == [])
    || (exists j :: 0 <= j < |s.groups| && Of(s.groups[j], call) == s.script[call]
          && forall i :: 0 <= i < |s.groups| && i != j ==> Of(s.groups[i], call) == [])
  }

  lemma SafeCalls(g: Geometry, d: Disk, s: State, call: nat)
    requires Safe(g, d, s) && call < |s.script|
    ensures Represents(g, s.disk, ApplyGroups(d, s.groups)) && WholeOrNot(s, call)
    ensures |s.fate| == |s.script| && (s.fate[call] == Open ==> forall j :: 0 <= j < |s.groups| ==> Of(s.groups[j], call) == [])
  {
    DurableMeans(g, s);
    forall i | 0 <= i < |s.groups| && s.fate[call] != InGroup(i)
      ensures Of(s.groups[i], call) == []
    {
      OfNone(s.groups[i], call);
    }
    if s.fate[call].InGroup? {
      var j := s.fate[call].group;
      assert Of(s.groups[j], call) == s.script[call];
    }
  }

  /** When recovery completes, the home blocks are the committed groups and nothing else. */
  lemma SafeRecovery(g: Geometry, d: Disk, s: State)
    requires Safe(g, d, s) && Enabled(g, s, RecoverDone)
    ensures SameHome(g, s.disk, ApplyGroups(d, s.groups)) && Fits(g, s.disk) && HeadIs(g, s.disk, [])
  {
    ClearKeeps(g, s.phase.from, s.home, s.phase.named);
  }

  /** A commit whose blocks fit the region has a next write or can finish. */
  lemma CommitNotStuck(g: Geometry, s: State)
    requires Durable(g, s) && s.phase.Committing? && |s.blocks| < g.size && |s.blocks| <= LOGSIZE
    ensures Enabled(g, s, CommitWrite) || Enabled(g, s, CommitDone)
  {
    hide Apply, IsUpdate, SameHome, CommitKnown;
    assert Fits(g, s.phase.from) && |s.disk| == |s.phase.from| == |s.latest|;
    hide RepresentsVia, CommitDisk;
  }

  lemma RecoveryNotStuck(g: Geometry, s: State)
    requires Durable(g, s) && s.phase.Recovering?
    ensures Enabled(g, s, RecoverWrite) || Enabled(g, s, RecoverDone)
  {
    hide Apply, SameHome;
  }

  lemma CanCrash(g: Geometry, s: State)
    requires Represents(g, s.disk, s.home)
    ensures Enabled(g, s, Crash)
  {
  }

  /** The processes inside an operation. */
  function Inside(ops: seq<Op>): set<nat> {
    set p: nat | p < |ops| && ops[p].Active?
  }

  lemma {:induction false} InsideSize(ops: seq<Op>)
    ensures |Inside(ops)| == Actives(ops)
  {
    if ops != [] {
      var n := |ops| - 1;
      InsideSize(ops[..n]);
      assert Inside(ops) == Inside(ops[..n]) + if ops[n].Active? then {n} else {};
    }
  }

  /** All the blocks logged once `more` are logged too. */
  function LoggedWith(blocks: seq<nat>, more: set<nat>): set<nat> {
    SetOf(blocks) + more
  }

  function SetOf(blocks: seq<nat>): set<nat> {
    set b | b in blocks
  }

  /** Whatever blocks n operations log from now on, at most MAXOPBLOCKS each, the header has an entry for every
      block logged. */
  ghost predicate RoomFor(blocks: seq<nat>, n: nat) {
    forall more: set<nat> :: |more| <= n * MAXOPBLOCKS ==> |LoggedWith(blocks, more)| <= LOGSIZE
  }

  lemma {:induction false} DistinctSize(blocks: seq<nat>)
    requires Distinct(blocks)
    ensures |SetOf(blocks)| == |blocks|
  {
    if blocks != [] {
      var n := |blocks| - 1;
      DistinctSize(blocks[..n]);
      assert SetOf(blocks) == SetOf(blocks[..n]) + {blocks[n]};
    }
  }

  lemma {:induction false} UnionAtMost(s: set<nat>, t: set<nat>)
    ensures |s + t| <= |s| + |t|
  {
    assert |s + t| + |s * t| == |s| + |t|;
  }

  /** k blocks that are not listed. */
  lemma {:induction false} Unlisted(blocks: seq<nat>, k: nat) returns (more: set<nat>)
    ensures |more| == k && more !! SetOf(blocks)
    decreases k
  {
    if k == 0 {
      more := {};
    } else {
      var b := Above(blocks);
      more := Unlisted(blocks + [b], k - 1);
      assert b in SetOf(blocks + [b]);
      forall c | c in more
        ensures c !in SetOf(blocks)
      {
        assert c !in SetOf(blocks + [b]);
      }
      more := more + {b};
    }
  }

  lemma {:induction false} Above(blocks: seq<nat>) returns (b: nat)
    ensures forall c :: c in blocks ==> c < b
  {
    if blocks == [] {
      b := 0;
    } else {
      var n := |blocks| - 1;
      b := Above(blocks[..n]);
      b := if b > blocks[n] then b else blocks[n] + 1;
      assert blocks == blocks[..n] + [blocks[n]];
    }
  }

  lemma RoomIff(blocks: seq<nat>, n: nat)
    requires Distinct(blocks)
    ensures RoomFor(blocks, n) <==> |blocks| + n * MAXOPBLOCKS <= LOGSIZE
  {
    DistinctSize(blocks);
    var listed := SetOf(blocks);
    if |blocks| + n * MAXOPBLOCKS <= LOGSIZE {
      forall more: set<nat> | |more| <= n * MAXOPBLOCKS
        ensures |LoggedWith(blocks, more)| <= LOGSIZE
      {
        UnionAtMost(listed, more);
      }
    } else {
      var more := Unlisted(blocks, n * MAXOPBLOCKS);
      assert |LoggedWith(blocks, more)| == |listed| + |more|;
    }
  }

  /** begin_op lets a process in exactly if no commit is running and there would be room for whatever it and the
      operations in progress may still log. */
  lemma BeginAdmitsIff(g: Geometry, d: Disk, procs: nat, s: State, p: nat)
    requires Reachable(g, d, procs, s) && Enabled(g, s, Try(p))
    ensures p in Inside(DoTry(s, p).ops) <==> !s.phase.Committing? && RoomFor(s.blocks, |Inside(s.ops)| + 1)
  {
    ReachableReserved(g, d, procs, s);
    InsideSize(s.ops);
    RoomIff(s.blocks, |Inside(s.ops)| + 1);
  }

  /** A commit runs with no operation in progress, and whoever sleeps in begin_op sleeps because of a commit, or
      because there would not be room for all it and the operations in progress may still log. */
  lemma CommitRunsAlone(g: Geometry, d: Disk, procs: nat, s: State, p: nat)
    requires Reachable(g, d, procs, s) && p < |s.ops|
    ensures s.phase.Committing? ==> Inside(s.ops) == {}
    ensures s.ops[p].Asleep? ==> s.phase.Committing? || !RoomFor(s.blocks, |Inside(s.ops)| + 1)
  {
    ReachableReserved(g, d, procs, s);
    InsideSize(s.ops);
    RoomIff(s.blocks, |Inside(s.ops)| + 1);
  }

  /** The logged blocks never outnumber the header's entries, with every reservation still honoured. */
  lemma ReservationsHold(g: Geometry, d: Disk, procs: nat, s: State)
    requires Reachable(g, d, procs, s)
    ensures 0 <= Spare(s.ops) <= LOGSIZE - |s.blocks|
  {
    ReachableReserved(g, d, procs, s);
    SpareNonNegative(s.ops);
  }

  /** A log_write that got past the guard finds room in the header, or its block already there. */
  lemma AppendHasRoom(g: Geometry, d: Disk, procs: nat, s: State, p: nat, b: nat, x: Block)
    requires Reachable(g, d, procs, s) && Enabled(g, s, Append(p, b, x))
    ensures |s.blocks| < LOGSIZE || b in s.blocks
  {
    ReachMore(g, d, procs, s, Append(p, b, x));
    ReservationsHold(g, d, procs, DoAppend(s, p, b, x));
  }

  lemma {:induction false} RunsMore(g: Geometry, s: State, steps: seq<Step>, t: State, step: Step)
    requires Runs(g, s, steps, t) && Enabled(g, t, step)
    ensures Runs(g, s, steps + [step], Next(g, t, step))
    decreases |steps|
  {
    if steps == [] {
      assert Runs(g, Next(g, s, step), [], Next(g, t, step));
      assert ([] + [step])[1..] == [];
    } else {
      RunsMore(g, Next(g, s, steps[0]), steps[1..], t, step);
      assert (steps + [step])[1..] == steps[1..] + [step];
    }
  }

  lemma ReachMore(g: Geometry, d: Disk, procs: nat, s: State, step: Step)
    requires Reachable(g, d, procs, s) && Enabled(g, s, step)
    ensures Reachable(g, d, procs, Next(g, s, step))
  {
    var steps :| Runs(g, Init(g, d, procs), steps, s);
    RunsMore(g, Init(g, d, procs), steps, s, step);
  }

  // ---------- runs that a cache of m buffers can serve ----------

  /** A write of commit goes to a slot inside the region, or all slots are. */
  predicate InRegion(g: Geometry, s: State) {
    s.phase.Committing? ==> (if s.phase.k < |s.blocks| then s.phase.k + 1 else |s.blocks|) < g.size
  }

  /** The step leaves one of m buffers for the block it goes through, and stays inside the log region. */
  predicate Thrifty(g: Geometry, s: State, step: Step, m: nat) {
    (step.Append? || step.CommitWrite? ==> |s.blocks| < m) && (step.CommitWrite? ==> InRegion(g, s)) && !step.RecoverWrite?
  }

  ghost predicate ThriftyRuns(g: Geometry, s: State, steps: seq<Step>, t: State, m: nat)
    decreases |steps|
  {
    if steps == [] then s == t
    else Enabled(g, s, steps[0]) && Thrifty(g, s, steps[0], m) && ThriftyRuns(g, Next(g, s, steps[0]), steps[1..], t, m)
  }

  ghost predicate Within(g: Geometry, d: Disk, procs: nat, m: nat, t: State) {
    exists steps :: ThriftyRuns(g, Init(g, d, procs), steps, t, m)
  }

  lemma {:induction false} ThriftyIsRun(g: Geometry, s: State, steps: seq<Step>, t: State, m: nat)
    requires ThriftyRuns(g, s, steps, t, m)
    ensures Runs(g, s, steps, t)
    decreases |steps|
  {
    if steps != [] {
      ThriftyIsRun(g, Next(g, s, steps[0]), steps[1..], t, m);
    }
  }

  lemma WithinReaches(g: Geometry, d: Disk, procs: nat, m: nat, s: State)
    requires Within(g, d, procs, m, s)
    ensures Reachable(g, d, procs, s)
  {
    var steps :| ThriftyRuns(g, Init(g, d, procs), steps, s, m);
    ThriftyIsRun(g, Init(g, d, procs), steps, s, m);
  }

  lemma {:induction false} ThriftyMore(g: Geometry, s: State, steps: seq<Step>, t: State, step: Step, m: nat)
    requires ThriftyRuns(g, s, steps, t, m) && Enabled(g, t, step) && Thrifty(g, t, step, m)
    ensures ThriftyRuns(g, s, steps + [step], Next(g, t, step), m)
    decreases |steps|
  {
    if steps == [] {
      assert ThriftyRuns(g, Next(g, s, step), [], Next(g, t, step), m);
      assert ([] + [step])[1..] == [];
    } else {
      ThriftyMore(g, Next(g, s, steps[0]), steps[1..], t, step, m);
      assert (steps + [step])[1..] == steps[1..] + [step];
    }
  }

  lemma WithinMore(g: Geometry, d: Disk, procs: nat, m: nat, s: State, step: Step)
    requires Within(g, d, procs, m, s) && Enabled(g, s, step) && Thrifty(g, s, step, m)
    ensures Within(g, d, procs, m, Next(g, s, step))
  {
    var steps :| ThriftyRuns(g, Init(g, d, procs), steps, s, m);
    ThriftyMore(g, Init(g, d, procs), steps, s, step, m);
  }

  // ---------- does the log region have a slot for every logged block? ----------

  /** Three operations, which in turn have logged the first `k` blocks after the log region with contents x. */
  ghost predicate Filled(g: Geometry, d: Disk, s: State, k: nat, x: Block) {
    && |s.ops| >= 3 && s.phase.Running? && s.outstanding == 3 && s.disk == d && |s.latest| == |d| && s.groups == []
    && (forall j :: 0 <= j < 3 ==>
          s.ops[j].Active? && !s.ops[j].guarded && s.ops[j].call < |s.script| && |s.ops[j].wrote| <= (k + 2 - j) / 3)
    && LogsRun(g, s, k, x)
  }

  ghost predicate LogsRun(g: Geometry, s: State, k: nat, x: Block) {
    && |s.blocks| == k && (forall i :: 0 <= i < k ==> s.blocks[i] == g.start + g.size + i)
    && forall b :: g.start + g.size <= b < g.start + g.size + k && b < |s.latest| ==> s.latest[b] == x
  }

  lemma ThreeBegin(g: Geometry, d: Disk, procs: nat, m: nat, x: Block) returns (s: State)
    requires IsClean(g, d) && procs >= 3
    ensures Within(g, d, procs, m, s) && Filled(g, d, s, 0, x)
  {
    s := Init(g, d, procs);
    assert ThriftyRuns(g, s, [], s, m);
    WithinMore(g, d, procs, m, s, Try(0));
    s := DoTry(s, 0);
    WithinMore(g, d, procs, m, s, Try(1));
    s := DoTry(s, 1);
    WithinMore(g, d, procs, m, s, Try(2));
    s := DoTry(s, 2);
  }

  lemma {:induction false} Fill(g: Geometry, d: Disk, procs: nat, m: nat, k: nat, x: Block) returns (s: State)
    requires IsClean(g, d) && procs >= 3 && g.start + g.size + LOGSIZE <= |d|
    requires k <= LOGSIZE && k < g.size && k <= m
    ensures Within(g, d, procs, m, s) && Filled(g, d, s, k, x)
  {
    if k == 0 {
      s := ThreeBegin(g, d, procs, m, x);
    } else {
      s := Fill(g, d, procs, m, k - 1, x);
      s := LogNext(g, d, procs, m, s, k - 1, x);
    }
  }

  /** A guarded operation with budget left logs the next block of the run. */
  lemma LogFresh(g: Geometry, d: Disk, procs: nat, m: nat, s: State, p: nat, k: nat, x: Block) returns (t: State)
    requires Within(g, d, procs, m, s) && IsActive(s, p) && s.ops[p].guarded && s.ops[p].call < |s.script|
    requires |s.latest| == |s.disk| && g.start + g.size + k < |s.disk| && LogsRun(g, s, k, x) && |s.ops[p].wrote| < MAXOPBLOCKS && k < m
    ensures Within(g, d, procs, m, t) && LogsRun(g, t, k + 1, x) && |t.latest| == |t.disk| && t.disk == s.disk
    ensures |t.ops| == |s.ops| && |t.script| == |s.script| && IsActive(t, p) && t.ops[p].call < |t.script| && !t.ops[p].guarded
    ensures |t.ops[p].wrote| <= |s.ops[p].wrote| + 1
    ensures t.phase == s.phase && t.groups == s.groups && t.outstanding == s.outstanding
    ensures forall q :: 0 <= q < |s.ops| && q != p ==> t.ops[q] == s.ops[q]
  {
    hide Within;
    var b := g.start + g.size + k;
    assert |s.ops[p].wrote + {b}| <= |s.ops[p].wrote| + 1;
    WithinMore(g, d, procs, m, s, Append(p, b, x));
    t := DoAppend(s, p, b, x);
  }

  lemma LogNext(g: Geometry, d: Disk, procs: nat, m: nat, s: State, k: nat, x: Block) returns (t: State)
    requires g.start + g.size + LOGSIZE <= |d|
    requires Within(g, d, procs, m, s) && Filled(g, d, s, k, x) && k < LOGSIZE && k + 1 < g.size && k < m
    ensures Within(g, d, procs, m, t) && Filled(g, d, t, k + 1, x)
  {
    hide Within, LogsRun;
    var p := k % 3;
    assert |s.blocks| == k by { CountsRun(g, s, k, x); }
    WithinMore(g, d, procs, m, s, Guard(p));
    t := Next(g, s, Guard(p));
    assert LogsRun(g, t, k, x) by { SameRun(g, s, t, k, x); }
    t := LogFresh(g, d, procs, m, t, p, k, x);
  }

  lemma CountsRun(g: Geometry, s: State, k: nat, x: Block)
    requires LogsRun(g, s, k, x)
    ensures |s.blocks| == k
  {
  }

  lemma SameRun(g: Geometry, s: State, t: State, k: nat, x: Block)
    requires LogsRun(g, s, k, x) && t.blocks == s.blocks && t.latest == s.latest
    ensures LogsRun(g, t, k, x)
  {
  }

  /** Three operations ready to end that have together logged n blocks. */
  ghost predicate Loaded(g: Geometry, d: Disk, s: State, n: nat, x: Block) {
    && |s.ops| >= 3 && s.phase.Running? && s.outstanding == 3 && s.disk == d && |s.latest| == |d| && s.groups == []
    && (forall j :: 0 <= j < 3 ==> s.ops[j].Active? && !s.ops[j].guarded)
    && LogsRun(g, s, n, x)
  }

  /** Two operations pass the guard together and then both log a block: one block more than there are slots. */
  lemma Race(g: Geometry, d: Disk, procs: nat, m: nat, s: State, k: nat, x: Block) returns (t: State)
    requires g.start + g.size + LOGSIZE <= |d|
    requires Within(g, d, procs, m, s) && Filled(g, d, s, k, x) && k + 2 == g.size <= LOGSIZE && g.size <= m
    ensures Within(g, d, procs, m, t) && Loaded(g, d, t, g.size, x)
  {
    hide Within;
    var p, q := k % 3, (k + 1) % 3;
    WithinMore(g, d, procs, m, s, Guard(p));
    t := Next(g, s, Guard(p));
    WithinMore(g, d, procs, m, t, Guard(q));
    t := Next(g, t, Guard(q));
    assert LogsRun(g, t, k, x);
    hide LogsRun;
    t := LogFresh(g, d, procs, m, t, p, k, x);
    t := LogFresh(g, d, procs, m, t, q, k + 1, x);
  }

  /** Every logged block has a data slot, in every run, if and only if the log region is larger than
      LOGSIZE blocks (or is a header with no slots at all). With size == LOGSIZE, as mkfs lays the disk
      out, two log_writes racing past the unlocked guard log one block more than there are slots. */
  lemma SlotsSufficeIff(g: Geometry, d: Disk, procs: nat)
    requires IsClean(g, d) && procs >= 3 && g.start + g.size + LOGSIZE <= |d|
    ensures (forall s :: Reachable(g, d, procs, s) ==> |s.blocks| < g.size) <==> Roomy(g)
  {
    if Roomy(g) {
      forall s | Reachable(g, d, procs, s)
        ensures |s.blocks| < g.size
      {
        ReachableReserved(g, d, procs, s);
        ReservedFits(g, s);
      }
    } else {
      var m := LOGSIZE + 1;
      var s := Fill(g, d, procs, m, g.size - 2, d[0]);
      var t := Race(g, d, procs, m, s, g.size - 2, d[0]);
      WithinReaches(g, d, procs, m, t);
    }
  }

  // ---------- and what happens if it has not ----------

  /** The commit of n blocks logged so, k slots into write_log. */
  ghost predicate Writing(g: Geometry, d: Disk, s: State, n: nat, k: nat, x: Block) {
    && s.phase.Committing? && s.phase.k == k && s.groups == [] && |s.disk| == |s.latest| == |d| && g.start + g.size < |d|
    && LogsRun(g, s, n, x) && s.disk[g.start] == d[g.start]
    && (k == n == g.size ==> s.disk[g.start + g.size] == x)
  }

  lemma AllEnd(g: Geometry, d: Disk, procs: nat, m: nat, s: State, n: nat, x: Block) returns (t: State)
    requires Within(g, d, procs, m, s) && Loaded(g, d, s, n, x) && 0 < n && g.start + g.size < |d|
    ensures Within(g, d, procs, m, t) && Writing(g, d, t, n, 0, x)
  {
    WithinReaches(g, d, procs, m, s);
    ReachableReserved(g, d, procs, s);
    assert OpenCalls(s);
    hide Within, LogsRun, Budgeted;
    WithinMore(g, d, procs, m, s, End(0));
    t := DoEnd(s, 0);
    WithinMore(g, d, procs, m, t, End(1));
    t := DoEnd(t, 1);
    WithinMore(g, d, procs, m, t, End(2));
    t := DoEnd(t, 2);
    SameRun(g, s, t, n, x);
  }

  lemma {:induction false} WriteSlots(g: Geometry, d: Disk, procs: nat, m: nat, s: State, k: nat, x: Block) returns (t: State)
    requires 2 <= g.size <= LOGSIZE && g.size < m && g.start + g.size + LOGSIZE <= |d| && k < g.size
    requires Within(g, d, procs, m, s) && Writing(g, d, s, g.size, 0, x)
    ensures Within(g, d, procs, m, t) && Writing(g, d, t, g.size, k, x)
    decreases k
  {
    if k == 0 {
      t := s;
    } else {
      t := WriteSlots(g, d, procs, m, s, k - 1, x);
      SlotStep(g, d, t, k - 1, x);
      WithinMore(g, d, procs, m, t, CommitWrite);
      t := DoCommitWrite(g, t);
    }
  }

  lemma SlotStep(g: Geometry, d: Disk, s: State, k: nat, x: Block)
    requires 2 <= g.size <= LOGSIZE && g.start + g.size + LOGSIZE <= |d| && k < g.size && Writing(g, d, s, g.size, k, x)
    ensures Enabled(g, s, CommitWrite) && Writing(g, d, DoCommitWrite(g, s), g.size, k + 1, x)
  {
    assert s.blocks[k] == g.start + g.size + k;
  }

  /** A run up to the last slot write of a commit that has one slot too few. The write goes to the first home
      block after the region: before anything is committed, the disk no longer stands for what was. */
  lemma Overrun(g: Geometry, d: Disk, procs: nat, m: nat) returns (s: State)
    requires IsClean(g, d) && procs >= 3 && 2 <= g.size <= LOGSIZE && g.size < m && g.start + g.size + LOGSIZE <= |d|
    ensures Within(g, d, procs, m, s) && s.phase.Committing? && |s.blocks| == g.size && s.phase.k == g.size - 1
    ensures Enabled(g, s, CommitWrite) && CommitTarget(g, s.blocks, s.phase.k) == s.blocks[0] && |s.disk| == |s.latest|
    ensures var t := DoCommitWrite(g, s); t.groups == [] && |t.disk| == |d| && !Represents(g, t.disk, ApplyGroups(d, t.groups))
  {
    var was := d[g.start + g.size];
    var x: Block := was[0 := was[0] + 1];
    assert x[0] != was[0];
    s := Fill(g, d, procs, m, g.size - 2, x);
    s := Race(g, d, procs, m, s, g.size - 2, x);
    s := AllEnd(g, d, procs, m, s, g.size, x);
    s := WriteSlots(g, d, procs, m, s, g.size - 1, x);
    SlotStep(g, d, s, g.size - 1, x);
    var t := DoCommitWrite(g, s);
    assert s.blocks[0] == g.start + g.size;
    assert |s.blocks| == g.size && t.groups == [] && |t.disk| == |d| && t.disk[g.start] == d[g.start] && t.disk[g.start + g.size] == x;
    hide Within, LogsRun, Writing, DoCommitWrite, CommitValue;
    NotStood(g, d, t.disk, x);
    assert ApplyGroups(d, []) == d;
  }

  lemma NotStood(g: Geometry, d: Disk, e: Disk, x: Block)
    requires IsClean(g, d) && |e| == |d| && g.start + g.size < |d| && e[g.start] == d[g.start] && e[g.start + g.size] == x != d[g.start + g.size]
    ensures !Represents(g, e, d)
  {
    forall named
      ensures !RepresentsVia(g, e, d, named)
    {
      if named == [] {
        assert IsHome(g, |d|, g.start + g.size);
      }
    }
  }

  /** The log by itself, over a cache with a buffer for every write: atomicity holds in every run if and only if
      the log region is larger than LOGSIZE blocks (or cannot log at all). */
  lemma LogAtomicIff(g: Geometry, d: Disk, procs: nat)
    requires IsClean(g, d) && procs >= 3 && g.start + g.size + LOGSIZE <= |d|
    ensures (forall s :: Reachable(g, d, procs, s) ==> Represents(g, s.disk, ApplyGroups(d, s.groups))) <==> Roomy(g)
  {
    hide Reachable, Represents, Within;
    if Roomy(g) {
      forall s | Reachable(g, d, procs, s)
        ensures Represents(g, s.disk, ApplyGroups(d, s.groups))
      {
        ReachableSafe(g, d, procs, s);
        DurableMeans(g, s);
      }
    } else {
      var s := Overrun(g, d, procs, LOGSIZE + 1);
      WithinReaches(g, d, procs, LOGSIZE + 1, s);
      ReachMore(g, d, procs, s, CommitWrite);
    }
  }

  /** Three operations log LOGSIZE blocks and end. */
  lemma FullCommit(g: Geometry, d: Disk, procs: nat, m: nat) returns (s: State)
    requires IsClean(g, d) && procs >= 3 && LOGSIZE <= g.size && LOGSIZE <= m && g.start + g.size + LOGSIZE <= |d| && g.start + g.size < |d|
    ensures Within(g, d, procs, m, s) && s.phase.Committing? && s.phase.k == 0 && |s.blocks| == LOGSIZE
  {
    if g.size > LOGSIZE {
      s := Fill(g, d, procs, m, LOGSIZE, d[0]);
      assert Loaded(g, d, s, LOGSIZE, d[0]);
    } else {
      s := Fill(g, d, procs, m, g.size - 2, d[0]);
      s := Race(g, d, procs, m, s, g.size - 2, d[0]);
    }
    s := AllEnd(g, d, procs, m, s, LOGSIZE, d[0]);
  }

  /** With a large enough region the guard turns away only writes that would need no new slot: a block
      that an operation within its budget has not logged yet always passes. */
  lemma GuardRejectsOnlyAbsorbed(g: Geometry, d: Disk, procs: nat, s: State, p: nat, b: nat)
    requires IsClean(g, d) && Reachable(g, d, procs, s) && g.size > LOGSIZE
    requires IsActive(s, p) && |s.ops[p].wrote + {b}| <= MAXOPBLOCKS
    ensures !GuardPasses(g, s) <==> |s.blocks| == LOGSIZE
    ensures !GuardPasses(g, s) ==> b in s.blocks
  {
    ReachableReserved(g, d, procs, s);
    ReservationsHold(g, d, procs, s);
    if |s.blocks| == LOGSIZE {
      var o := s.ops[p];
      SpareUpdate(s.ops, p, Outside);
      SpareNonNegative(s.ops[p := Outside]);
      assert |o.wrote| == MAXOPBLOCKS;
      if b !in o.wrote {
        assert false;
      }
    }
  }

  /** It does turn such writes away: three operations that use their whole budget fill the header, and
      the next log_write panics even though its block is already logged. */
  lemma GuardRejectsAbsorbed(g: Geometry, d: Disk, procs: nat) returns (s: State)
    requires IsClean(g, d) && procs >= 3 && g.size > LOGSIZE && g.start + g.size + LOGSIZE <= |d|
    ensures Reachable(g, d, procs, s) && IsActive(s, 0) && s.ops[0].wrote != {}
    ensures !GuardPasses(g, s) && forall b :: b in s.ops[0].wrote ==> b in s.blocks && |s.ops[0].wrote + {b}| <= MAXOPBLOCKS
  {
    s := Fill(g, d, procs, LOGSIZE, LOGSIZE, d[0]);
    WithinReaches(g, d, procs, LOGSIZE, s);
    ReachableReserved(g, d, procs, s);
    ReservationsHold(g, d, procs, s);
    SpareUpdate(s.ops, 0, Outside);
    SpareNonNegative(s.ops[0 := Outside]);
    forall b | b in s.ops[0].wrote
      ensures |s.ops[0].wrote + {b}| <= MAXOPBLOCKS
    {
      assert s.ops[0].wrote + {b} == s.ops[0].wrote;
    }
  }
}
