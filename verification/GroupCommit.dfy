/** Group commit as a step system: file-system calls of many processes share one log transaction.

    A step is a section of log.c that runs under the log lock, the unlocked guard of log_write, one
    disk write of commit or of recovery, or a crash. */
module GroupCommit {
  import opened Common
  import opened Log

  /** One log_write: which call made it, to which block, with which contents. */
  datatype Write = Write(call: nat, block: nat, data: Block)

  /** Where a process stands. */
  datatype Op =
    | Outside
    | Asleep                                                // in begin_op, asleep on the log
    | Awake                                                 // in begin_op, about to test again
    | Active(call: nat, wrote: set<nat>, guarded: bool)     // between begin_op and end_op

  datatype Phase =
    | Running
    | Committing(from: Disk, before: Disk, k: nat)          // k writes of commit done on `from`
    | Recovering(from: Disk, named: seq<nat>, k: nat)       // k writes of recovery done on `from`

  /** What became of a call. */
  datatype Fate = Open | Ended | InGroup(group: nat) | Lost

  datatype State = State(
    ops: seq<Op>,                 // one per process
    blocks: seq<nat>,             // log.lh
    outstanding: nat,             // log.outstanding
    phase: Phase,
    disk: Disk,
    latest: Disk,                 // the cached view of the disk
    // history, not program state:
    home: Disk,                   // contents as of the last commit point
    pending: seq<Write>,          // writes since then
    groups: seq<seq<Write>>,      // writes of each committed transaction
    script: seq<seq<Write>>,      // every write of each call
    fate: seq<Fate>)

  datatype Step =
    | Try(p: nat) | Guard(p: nat) | Append(p: nat, b: nat, x: Block) | End(p: nat)
    | CommitWrite | CommitDone | Crash | RecoverWrite | RecoverDone

  // ---------- the steps ----------

  predicate IsClean(g: Geometry, d: Disk) {
    Fits(g, d) && d[g.start][0] == 0
  }

  function Init(g: Geometry, d: Disk, procs: nat): State {
    State(seq(procs, _ => Outside), [], 0, Running, d, d, d, [], [], [], [])
  }

  function Wake(ops: seq<Op>): (r: seq<Op>)
    ensures |r| == |ops|
    ensures forall i :: 0 <= i < |r| ==> r[i] == if ops[i].Asleep? then Awake else ops[i]
  {
    seq(|ops|, i requires 0 <= i < |ops| => if ops[i].Asleep? then Awake else ops[i])
  }

  predicate IsActive(s: State, p: nat) {
    p < |s.ops| && s.ops[p].Active?
  }

  /** The condition under which log_write does not panic with "too big a transaction". */
  predicate GuardPasses(g: Geometry, s: State) {
    |s.blocks| < LOGSIZE && |s.blocks| + 1 < g.size
  }

  /** The blocks named and the header exist; a transfer beyond the disk is a panic of the driver. */
  predicate InDisk(g: Geometry, d: Disk, blocks: seq<nat>) {
    g.start < |d| && forall i :: 0 <= i < |blocks| ==> blocks[i] < |d|
  }

  /** The block that write k of commit goes to: the slots one after another, wherever the region ends,
      the header, the homes, and the header again. */
  function CommitTarget(g: Geometry, blocks: seq<nat>, k: nat): nat
    requires k < 2 * |blocks| + 2
  {
    var n := |blocks|;
    if k < n then g.start + 1 + k else if n < k <= 2 * n then blocks[k - n - 1] else g.start
  }

  /** The slot that an install reads exists. */
  predicate SlotInDisk(g: Geometry, total: nat, blocks: seq<nat>, k: nat) {
    |blocks| < k <= 2 * |blocks| ==> g.start + (k - |blocks|) < total
  }

  /** What it writes there, read through the cache. */
  function CommitValue(g: Geometry, latest: Disk, blocks: seq<nat>, k: nat): Block
    requires k < 2 * |blocks| + 2 && |blocks| <= LOGSIZE && InDisk(g, latest, blocks) && SlotInDisk(g, |latest|, blocks, k)
  {
    var n := |blocks|;
    if k < n then latest[blocks[k]]
    else if k == n then WithHead(latest[g.start], blocks)
    else if k <= 2 * n then latest[g.start + (k - n)]
    else WithHead(latest[g.start], [])
  }

  ghost predicate Enabled(g: Geometry, s: State, step: Step) {
    match step
    case Try(p) => p < |s.ops| && (s.ops[p].Outside? || s.ops[p].Awake?) && !s.phase.Recovering?
    case Guard(p) => IsActive(s, p) && GuardPasses(g, s)
    case Append(p, b, _) =>
      && IsActive(s, p) && s.ops[p].guarded && IsHome(g, |s.disk|, b) && |s.latest| == |s.disk|
      && s.ops[p].call < |s.script|
      && |s.ops[p].wrote + {b}| <= MAXOPBLOCKS   // what the callers of log_write undertake
    case End(p) => IsActive(s, p) && !s.ops[p].guarded && s.outstanding > 0 && s.ops[p].call < |s.fate|
    case CommitWrite =>
      && s.phase.Committing? && s.blocks != [] && |s.blocks| <= LOGSIZE && s.phase.k < 2 * |s.blocks| + 2
      && InDisk(g, s.latest, s.blocks) && |s.disk| == |s.latest| && CommitTarget(g, s.blocks, s.phase.k) < |s.disk|
      && SlotInDisk(g, |s.disk|, s.blocks, s.phase.k)
    case CommitDone => s.phase.Committing? && s.phase.k == if s.blocks == [] then 0 else 2 * |s.blocks| + 2
    case Crash => Fits(g, s.disk)
    case RecoverWrite =>
      && s.phase.Recovering? && s.phase.k < |s.phase.named| + 1 && InDisk(g, s.disk, s.phase.named)
      && (s.phase.k < |s.phase.named| ==> g.start + 1 + s.phase.k < |s.disk|)
    case RecoverDone => s.phase.Recovering? && s.phase.k == |s.phase.named| + 1
  }

  function DoTry(s: State, p: nat): State
    requires p < |s.ops|
  {
    if MustWait(|s.blocks|, s.outstanding, s.phase.Committing?) then s.(ops := s.ops[p := Asleep])
    else s.(ops := s.ops[p := Active(|s.script|, {}, false)], outstanding := s.outstanding + 1,
            script := s.script + [[]], fate := s.fate + [Open])
  }

  function DoAppend(s: State, p: nat, b: nat, x: Block): State
    requires IsActive(s, p) && b < |s.latest| && s.ops[p].call < |s.script|
  {
    var Active(call, wrote, _) := s.ops[p];
    var w := Write(call, b, x);
    s.(ops := s.ops[p := Active(call, wrote + {b}, false)], blocks := Absorb(s.blocks, b),
       latest := s.latest[b := x], pending := s.pending + [w],
       script := s.script[call := s.script[call] + [w]])
  }

  function DoEnd(s: State, p: nat): State
    requires IsActive(s, p) && s.outstanding > 0 && s.ops[p].call < |s.fate|
  {
    var t := s.(outstanding := s.outstanding - 1, fate := s.fate[s.ops[p].call := Ended]);
    if t.outstanding == 0
    then t.(ops := s.ops[p := Outside], phase := Committing(s.disk, s.home, 0))
    else t.(ops := Wake(s.ops[p := Outside]))
  }

  function Settle(fate: seq<Fate>, f: Fate): (r: seq<Fate>)
    ensures |r| == |fate|
    ensures forall i :: 0 <= i < |r| ==> r[i] == if fate[i].Open? || fate[i].Ended? then f else fate[i]
  {
    seq(|fate|, i requires 0 <= i < |fate| => if fate[i].Open? || fate[i].Ended? then f else fate[i])
  }

  ghost function DoCommitWrite(g: Geometry, s: State): State
    requires Enabled(g, s, CommitWrite)
  {
    var k := s.phase.k + 1;
    var b, x := CommitTarget(g, s.blocks, s.phase.k), CommitValue(g, s.latest, s.blocks, s.phase.k);
    var t := s.(disk := s.disk[b := x], latest := s.latest[b := x], phase := Committing(s.phase.from, s.phase.before, k));
    if k != |s.blocks| + 1 then t
    else t.(home := Apply(s.home, s.pending), groups := s.groups + [s.pending], pending := [],
            fate := Settle(s.fate, InGroup(|s.groups|)))
  }

  function DoCrash(g: Geometry, s: State): State
    requires Fits(g, s.disk)
  {
    s.(ops := seq(|s.ops|, _ => Outside), blocks := [], outstanding := 0,
       phase := Recovering(s.disk, HeadBlocks(g, s.disk), 0), pending := [], fate := Settle(s.fate, Lost))
  }

  /** One write of recovery: a slot's contents to the block it belongs to, or the cleared header. */
  ghost function DoRecoverWrite(g: Geometry, s: State): State
    requires Enabled(g, s, RecoverWrite)
  {
    var Recovering(from, named, k) := s.phase;
    var disk := if k < |named| then s.disk[named[k] := s.disk[g.start + 1 + k]] else s.disk[g.start := WithHead(s.disk[g.start], [])];
    s.(disk := disk, phase := Recovering(from, named, k + 1))
  }

  ghost function Next(g: Geometry, s: State, step: Step): State
    requires Enabled(g, s, step)
  {
    match step
    case Try(p) => DoTry(s, p)
    case Guard(p) => s.(ops := s.ops[p := s.ops[p].(guarded := true)])
    case Append(p, b, x) => DoAppend(s, p, b, x)
    case End(p) => DoEnd(s, p)
    case CommitWrite => DoCommitWrite(g, s)
    case CommitDone => s.(blocks := [], phase := Running, ops := Wake(s.ops))
    case Crash => DoCrash(g, s)
    case RecoverWrite => DoRecoverWrite(g, s)
    case RecoverDone => s.(phase := Running, latest := s.disk)
  }

  /** A run from `s` to `t`. */
  ghost predicate Runs(g: Geometry, s: State, steps: seq<Step>, t: State)
    decreases |steps|
  {
    if steps == [] then s == t
    else Enabled(g, s, steps[0]) && Runs(g, Next(g, s, steps[0]), steps[1..], t)
  }

  ghost predicate Reachable(g: Geometry, d: Disk, procs: nat, t: State) {
    exists steps :: Runs(g, Init(g, d, procs), steps, t)
  }

  // ---------- what writes amount to ----------

  /** Writes applied in order; those outside the disk do not occur. */
  function Apply(d: Disk, ws: seq<Write>): (r: Disk)
    ensures |r| == |d|
  {
    if ws == [] then d
    else
      var p, w := Apply(d, ws[..|ws| - 1]), ws[|ws| - 1];
      if w.block < |d| then p[w.block := w.data] else p
  }

  function ApplyGroups(d: Disk, groups: seq<seq<Write>>): (r: Disk)
    ensures |r| == |d|
  {
    if groups == [] then d else Apply(ApplyGroups(d, groups[..|groups| - 1]), groups[|groups| - 1])
  }

  /** The writes a call made, in order. */
  function Of(ws: seq<Write>, call: nat): seq<Write> {
    if ws == [] then []
    else Of(ws[..|ws| - 1], call) + (if ws[|ws| - 1].call == call then [ws[|ws| - 1]] else [])
  }

  lemma {:induction false} ApplyFrame(d: Disk, ws: seq<Write>, b: nat)
    requires b < |d| && forall w :: w in ws ==> w.block != b
    ensures Apply(d, ws)[b] == d[b]
  {
    if ws != [] {
      ApplyFrame(d, ws[..|ws| - 1], b);
    }
  }

  lemma ApplyMore(d: Disk, ws: seq<Write>, w: Write)
    requires w.block < |d|
    ensures Apply(d, ws + [w]) == Apply(d, ws)[w.block := w.data]
  {
    assert (ws + [w])[..|ws|] == ws;
  }

  lemma OfMore(ws: seq<Write>, w: Write, call: nat)
    ensures Of(ws + [w], call) == Of(ws, call) + if w.call == call then [w] else []
  {
    assert (ws + [w])[..|ws|] == ws;
  }

  lemma {:induction false} OfNone(ws: seq<Write>, call: nat)
    requires forall w :: w in ws ==> w.call != call
    ensures Of(ws, call) == []
  {
    if ws != [] {
      OfNone(ws[..|ws| - 1], call);
    }
  }
}
