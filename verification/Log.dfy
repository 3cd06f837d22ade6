/** The redo log of log.c on a disk whose single-block writes are atomic.

    The log region of the disk is a header block followed by data slots. `Represents` is what a disk
    means to recovery; the lemmas show what every write of a commit and of a recovery does to it. */
module Log {
  import opened Common

  const LOGSIZE: nat := 30        // most blocks a header can name (param.h)
  const WORDS: nat := 128         // BSIZE / sizeof(int)

  /** A disk block as its 32-bit words. */
  type Block = b: seq<int> | |b| == WORDS witness seq(WORDS, _ => 0)
  type Disk = seq<Block>

  /** Where the superblock puts the log: a header at `start`, data slots up to `start + size`. */
  datatype Geometry = Geometry(start: nat, size: nat)

  predicate InLog(g: Geometry, b: int) {
    g.start <= b < g.start + g.size
  }

  predicate IsHome(g: Geometry, blocks: nat, b: int) {
    0 <= b < blocks && !InLog(g, b)
  }

  predicate Fits(g: Geometry, d: Disk) {
    1 <= g.size && g.start + g.size <= |d|
  }

  predicate Distinct(s: seq<nat>) {
    forall i, j :: 0 <= i < j < |s| ==> s[i] != s[j]
  }

  /** A list of block numbers the log can carry: distinct home blocks, at most one per slot. */
  ghost predicate Loggable(g: Geometry, total: nat, blocks: seq<nat>) {
    && |blocks| <= LOGSIZE
    && |blocks| < g.size
    && Distinct(blocks)
    && forall i :: 0 <= i < |blocks| ==> IsHome(g, total, blocks[i])
  }

  // ---------- the on-disk header ----------

  /** The header block after write_head: the count and the first entries; the other words stay. */
  function WithHead(b: Block, blocks: seq<nat>): Block
    requires |blocks| <= LOGSIZE
  {
    seq(WORDS, j requires 0 <= j < WORDS =>
      if j == 0 then |blocks| else if j <= |blocks| then blocks[j - 1] else b[j])
  }

  ghost predicate HeadIs(g: Geometry, d: Disk, blocks: seq<nat>)
    requires Fits(g, d)
  {
    && |blocks| <= LOGSIZE
    && d[g.start][0] == |blocks|
    && forall i :: 0 <= i < |blocks| ==> d[g.start][i + 1] == blocks[i]
  }

  /** What read_head reads. */
  function HeadBlocks(g: Geometry, d: Disk): seq<nat>
    requires Fits(g, d)
  {
    var head := d[g.start];
    if 0 <= head[0] <= LOGSIZE && forall i :: 1 <= i <= head[0] ==> head[i] >= 0
    then seq(head[0], i requires 0 <= i < head[0] => head[i + 1])
    else []
  }

  /** The disk stands for home contents `h`: the header names blocks whose new contents are in the
      slots, and every home block it does not name already has its contents. */
  ghost predicate RepresentsVia(g: Geometry, d: Disk, h: Disk, blocks: seq<nat>) {
    && |h| == |d|
    && Fits(g, d)
    && Loggable(g, |d|, blocks)
    && HeadIs(g, d, blocks)
    && (forall i :: 0 <= i < |blocks| ==> d[g.start + 1 + i] == h[blocks[i]])
    && (forall b :: IsHome(g, |d|, b) && b !in blocks ==> d[b] == h[b])
  }

  ghost predicate Represents(g: Geometry, d: Disk, h: Disk) {
    exists blocks :: RepresentsVia(g, d, h, blocks)
  }

  ghost predicate SameHome(g: Geometry, d: Disk, h: Disk) {
    |d| == |h| && forall b :: IsHome(g, |d|, b) ==> d[b] == h[b]
  }

  // ---------- what log.c keeps in memory ----------

  function ContentsOf(latest: Disk, blocks: seq<nat>): seq<Block>
    requires forall i :: 0 <= i < |blocks| ==> blocks[i] < |latest|
  {
    seq(|blocks|, i requires 0 <= i < |blocks| => latest[blocks[i]])
  }

  /** log_write's effect on the list of logged blocks: a block already listed is absorbed. */
  function Absorb(blocks: seq<nat>, b: nat): seq<nat> {
    if b in blocks then blocks else blocks + [b]
  }

  /** begin_op's reasons to sleep. */
  predicate MustWait(n: nat, outstanding: nat, committing: bool) {
    committing || n + (outstanding + 1) * MAXOPBLOCKS > LOGSIZE
  }

  // ---------- disk contents after each write ----------

  /** write_log after `k` writes: the first `k` slots hold the new contents. */
  function Logged(g: Geometry, d: Disk, data: seq<Block>, k: nat): Disk
    requires Fits(g, d) && k <= |data| < g.size
  {
    seq(|d|, b requires 0 <= b < |d| => if g.start < b <= g.start + k then data[b - g.start - 1] else d[b])
  }

  /** install_trans after `k` writes: slot contents copied home, one block after another. */
  function Installed(g: Geometry, d: Disk, blocks: seq<nat>, k: nat): (r: Disk)
    requires Fits(g, d) && k <= |blocks| < g.size
    requires forall i :: 0 <= i < |blocks| ==> IsHome(g, |d|, blocks[i])
    ensures |r| == |d|
  {
    if k == 0 then d
    else
      var p := Installed(g, d, blocks, k - 1);
      p[blocks[k - 1] := p[g.start + k]]
  }

  function Headed(g: Geometry, d: Disk, blocks: seq<nat>): Disk
    requires Fits(g, d) && |blocks| <= LOGSIZE
  {
    d[g.start := WithHead(d[g.start], blocks)]
  }

  /** The disk after the first `k` of the 2n+2 writes of commit. */
  function CommitDisk(g: Geometry, d: Disk, blocks: seq<nat>, data: seq<Block>, k: nat): Disk
    requires Fits(g, d) && |blocks| == |data| <= LOGSIZE && |blocks| < g.size
    requires forall i :: 0 <= i < |blocks| ==> IsHome(g, |d|, blocks[i])
    requires k <= 2 * |blocks| + 2
  {
    var n := |blocks|;
    if k <= n then Logged(g, d, data, k)
    else
      var committed := Headed(g, Logged(g, d, data, n), blocks);
      if k <= 2 * n + 1 then Installed(g, committed, blocks, k - n - 1)
      else Headed(g, Installed(g, committed, blocks, n), [])
  }

  /** The disk after the first `k` of the n+1 writes of recover_from_log. */
  function RecoverDisk(g: Geometry, d: Disk, blocks: seq<nat>, k: nat): Disk
    requires Fits(g, d) && |blocks| < g.size && k <= |blocks| + 1
    requires forall i :: 0 <= i < |blocks| ==> IsHome(g, |d|, blocks[i])
  {
    if k <= |blocks| then Installed(g, d, blocks, k)
    else Headed(g, Installed(g, d, blocks, |blocks|), [])
  }

  // ---------- the same, as the list of disks a run of writes leaves behind ----------

  function LoggedTrace(g: Geometry, d: Disk, data: seq<Block>, k: nat): (r: seq<Disk>)
    requires Fits(g, d) && k <= |data| < g.size
    ensures |r| == k && forall i {:trigger r[i]} :: 0 <= i < k ==> r[i] == Logged(g, d, data, i + 1)
  {
    if k == 0 then [] else LoggedTrace(g, d, data, k - 1) + [Logged(g, d, data, k)]
  }

  function InstalledTrace(g: Geometry, d: Disk, blocks: seq<nat>, k: nat): (r: seq<Disk>)
    requires Fits(g, d) && k <= |blocks| < g.size
    requires forall i :: 0 <= i < |blocks| ==> IsHome(g, |d|, blocks[i])
    ensures |r| == k && forall i {:trigger r[i]} :: 0 <= i < k ==> r[i] == Installed(g, d, blocks, i + 1)
  {
    if k == 0 then [] else InstalledTrace(g, d, blocks, k - 1) + [Installed(g, d, blocks, k)]
  }

  function CommitTrace(g: Geometry, d: Disk, blocks: seq<nat>, data: seq<Block>): (r: seq<Disk>)
    requires Fits(g, d) && |blocks| == |data| <= LOGSIZE && |blocks| < g.size
    requires forall i :: 0 <= i < |blocks| ==> IsHome(g, |d|, blocks[i])
    ensures |r| == 2 * |blocks| + 2
    ensures forall i {:trigger r[i]} :: 0 <= i < |r| ==> r[i] == CommitDisk(g, d, blocks, data, i + 1)
  {
    var n := |blocks|;
    var committed := Headed(g, Logged(g, d, data, n), blocks);
    LoggedTrace(g, d, data, n) + [committed] + InstalledTrace(g, committed, blocks, n)
      + [Headed(g, Installed(g, committed, blocks, n), [])]
  }

  function RecoverTrace(g: Geometry, d: Disk, blocks: seq<nat>): (r: seq<Disk>)
    requires Fits(g, d) && |blocks| < g.size
    requires forall i :: 0 <= i < |blocks| ==> IsHome(g, |d|, blocks[i])
    ensures |r| == |blocks| + 1
    ensures forall i {:trigger r[i]} :: 0 <= i < |r| ==> r[i] == RecoverDisk(g, d, blocks, i + 1)
  {
    InstalledTrace(g, d, blocks, |blocks|) + [Headed(g, Installed(g, d, blocks, |blocks|), [])]
  }

  // ---------- what the writes mean ----------

  /** The log blocks are untouched by installing, and a home block is touched only if named. */
  lemma {:induction false} InstalledFrame(g: Geometry, d: Disk, blocks: seq<nat>, k: nat, b: int)
    requires Fits(g, d) && k <= |blocks| < g.size
    requires forall i :: 0 <= i < |blocks| ==> IsHome(g, |d|, blocks[i])
    requires 0 <= b < |d| && b !in blocks[..k]
    ensures Installed(g, d, blocks, k)[b] == d[b]
  {
    if k > 0 {
      assert blocks[..k] == blocks[..k - 1] + [blocks[k - 1]];
      InstalledFrame(g, d, blocks, k - 1, b);
    }
  }

  lemma {:induction false} InstalledAt(g: Geometry, d: Disk, blocks: seq<nat>, k: nat, i: nat)
    requires Fits(g, d) && k <= |blocks| < g.size && Distinct(blocks)
    requires forall j :: 0 <= j < |blocks| ==> IsHome(g, |d|, blocks[j])
    requires i < k
    ensures Installed(g, d, blocks, k)[blocks[i]] == d[g.start + 1 + i]
  {
    if i < k - 1 {
      InstalledAt(g, d, blocks, k - 1, i);
    } else {
      InstalledFrame(g, d, blocks, k - 1, g.start + k);
    }
  }

  /** Installing any number of blocks does not change what the disk stands for. */
  lemma InstallKeeps(g: Geometry, d: Disk, h: Disk, blocks: seq<nat>, k: nat)
    requires RepresentsVia(g, d, h, blocks) && k <= |blocks|
    ensures RepresentsVia(g, Installed(g, d, blocks, k), h, blocks)
  {
    var r := Installed(g, d, blocks, k);
    forall b | 0 <= b < |d| && b !in blocks[..k]
      ensures r[b] == d[b]
    {
      InstalledFrame(g, d, blocks, k, b);
    }
  }

  lemma InstallOne(g: Geometry, d: Disk, h: Disk, blocks: seq<nat>, b: nat)
    requires |h| == |d| && Fits(g, d) && Loggable(g, |d|, blocks) && IsHome(g, |d|, b)
    requires forall i :: 0 <= i < |blocks| ==> d[g.start + 1 + i] == h[blocks[i]]
    requires b !in blocks ==> d[b] == h[b]
    ensures Installed(g, d, blocks, |blocks|)[b] == h[b]
  {
    if b in blocks {
      var i :| 0 <= i < |blocks| && blocks[i] == b;
      InstalledAt(g, d, blocks, |blocks|, i);
    } else {
      assert blocks[..|blocks|] == blocks;
      InstalledFrame(g, d, blocks, |blocks|, b);
    }
  }

  /** A full install brings every home block to the contents its slot, or it itself, held. */
  lemma InstallAll(g: Geometry, d: Disk, h: Disk, blocks: seq<nat>)
    requires |h| == |d| && Fits(g, d) && Loggable(g, |d|, blocks)
    requires forall i :: 0 <= i < |blocks| ==> d[g.start + 1 + i] == h[blocks[i]]
    requires forall b :: IsHome(g, |d|, b) && b !in blocks ==> d[b] == h[b]
    ensures SameHome(g, Installed(g, d, blocks, |blocks|), h)
  {
    forall b | IsHome(g, |d|, b)
      ensures Installed(g, d, blocks, |blocks|)[b] == h[b]
    {
      InstallOne(g, d, h, blocks, b);
    }
  }

  /** Clearing the header after a full install leaves exactly the contents stood for at home. */
  lemma ClearKeeps(g: Geometry, d: Disk, h: Disk, blocks: seq<nat>)
    requires RepresentsVia(g, d, h, blocks)
    ensures var r := Headed(g, Installed(g, d, blocks, |blocks|), []);
            RepresentsVia(g, r, h, []) && SameHome(g, r, h)
  {
    InstallAll(g, d, h, blocks);
  }

  /** Until the header is written the disk stands for the old contents. */
  lemma LoggingKeeps(g: Geometry, d: Disk, h: Disk, data: seq<Block>, k: nat)
    requires RepresentsVia(g, d, h, []) && k <= |data| < g.size
    ensures RepresentsVia(g, Logged(g, d, data, k), h, [])
  {
  }

  /** A reboot that crashes: recovery ran on `d`, found the header naming some blocks, and stopped
      after `k` of its writes (none, some, or all of them), leaving `e`. */
  ghost predicate RecoveryReaches(g: Geometry, d: Disk, e: Disk) {
    && Fits(g, d)
    && exists blocks: seq<nat>, k: nat ::
         && Loggable(g, |d|, blocks) && HeadIs(g, d, blocks) && k <= |blocks| + 1
         && e == RecoverDisk(g, d, blocks, k)
  }

  /** A completed recovery. */
  ghost predicate Recovers(g: Geometry, d: Disk, e: Disk) {
    && Fits(g, d)
    && exists blocks: seq<nat> ::
         && Loggable(g, |d|, blocks) && HeadIs(g, d, blocks)
         && e == RecoverDisk(g, d, blocks, |blocks| + 1)
  }

  /** Any number of reboots, each crashing somewhere inside recovery. */
  ghost predicate Reboots(g: Geometry, disks: seq<Disk>) {
    |disks| > 0 && forall i :: 0 <= i < |disks| - 1 ==> RecoveryReaches(g, disks[i], disks[i + 1])
  }

  lemma HeadBlocksReads(g: Geometry, d: Disk, blocks: seq<nat>)
    requires Fits(g, d) && HeadIs(g, d, blocks)
    ensures HeadBlocks(g, d) == blocks
  {
    forall i | 1 <= i <= |blocks|
      ensures d[g.start][i] == blocks[i - 1]
    {
      assert d[g.start][(i - 1) + 1] == blocks[i - 1];
    }
  }

  lemma HeadIsUnique(g: Geometry, d: Disk, b1: seq<nat>, b2: seq<nat>)
    requires Fits(g, d) && HeadIs(g, d, b1) && HeadIs(g, d, b2)
    ensures b1 == b2
  {
    forall i | 0 <= i < |b1|
      ensures b1[i] == b2[i]
    {
      assert d[g.start][i + 1] == b1[i];
    }
  }

  /** A recovery cut short anywhere keeps what the disk stands for. */
  lemma CutRecoveryKeeps(g: Geometry, d: Disk, h: Disk, e: Disk)
    requires Represents(g, d, h) && RecoveryReaches(g, d, e)
    ensures Represents(g, e, h)
  {
    var named :| RepresentsVia(g, d, h, named);
    var blocks: seq<nat>, k: nat :|
      && Loggable(g, |d|, blocks) && HeadIs(g, d, blocks) && k <= |blocks| + 1
      && e == RecoverDisk(g, d, blocks, k);
    HeadIsUnique(g, d, named, blocks);
    if k <= |blocks| {
      InstallKeeps(g, d, h, blocks, k);
      assert RepresentsVia(g, e, h, blocks);
    } else {
      ClearKeeps(g, d, h, blocks);
      assert RepresentsVia(g, e, h, []);
    }
  }

  /** Completed recovery after any number of crashes inside recovery: the home blocks are exactly
      what the disk stood for at the first crash, and the log is empty. */
  lemma {:induction false} RebootsRecover(g: Geometry, disks: seq<Disk>, h: Disk, e: Disk)
    requires Reboots(g, disks) && Represents(g, disks[0], h) && Recovers(g, disks[|disks| - 1], e)
    ensures SameHome(g, e, h) && Fits(g, e) && HeadIs(g, e, [])
  {
    var d := disks[0];
    if |disks| == 1 {
      var named :| RepresentsVia(g, d, h, named);
      var blocks: seq<nat> :|
        && Loggable(g, |d|, blocks) && HeadIs(g, d, blocks)
        && e == RecoverDisk(g, d, blocks, |blocks| + 1);
      HeadIsUnique(g, d, named, blocks);
      ClearKeeps(g, d, h, blocks);
    } else {
      assert RecoveryReaches(g, disks[0], disks[1]);
      CutRecoveryKeeps(g, disks[0], h, disks[1]);
      forall i | 0 <= i < |disks[1..]| - 1
        ensures RecoveryReaches(g, disks[1..][i], disks[1..][i + 1])
      {
        assert RecoveryReaches(g, disks[i + 1], disks[i + 2]);
      }
      RebootsRecover(g, disks[1..], h, e);
    }
  }

  /** A transaction: its blocks get the contents `data`, and nothing else differs. */
  ghost predicate IsUpdate(g: Geometry, before: Disk, after: Disk, blocks: seq<nat>, data: seq<Block>) {
    && |after| == |before| && Loggable(g, |before|, blocks) && |data| == |blocks|
    && (forall i :: 0 <= i < |blocks| ==> data[i] == after[blocks[i]])
    && (forall b :: IsHome(g, |before|, b) && b !in blocks ==> after[b] == before[b])
  }

  /** The header write moves the disk from the old contents to the new ones. */
  lemma HeadCommits(g: Geometry, d: Disk, before: Disk, after: Disk, blocks: seq<nat>, data: seq<Block>)
    requires RepresentsVia(g, d, before, []) && IsUpdate(g, before, after, blocks, data)
    ensures RepresentsVia(g, Headed(g, Logged(g, d, data, |data|), blocks), after, blocks)
  {
    var l := Logged(g, d, data, |data|);
    var r := Headed(g, l, blocks);
    forall b | IsHome(g, |r|, b) && b !in blocks
      ensures r[b] == after[b]
    {
      assert l[b] == d[b] == before[b];
    }
  }

  /** What every crash point inside commit stands for: the old contents up to and including the
      last log write, the new contents from the header write on. */
  lemma CommitPoint(g: Geometry, d: Disk, before: Disk, after: Disk, blocks: seq<nat>, data: seq<Block>, k: nat)
    requires RepresentsVia(g, d, before, []) && IsUpdate(g, before, after, blocks, data)
    requires k <= 2 * |blocks| + 2
    ensures Represents(g, CommitDisk(g, d, blocks, data, k), if k <= |blocks| then before else after)
  {
    if k <= |blocks| {
      LoggingKeeps(g, d, before, data, k);
      assert RepresentsVia(g, Logged(g, d, data, k), before, []);
    } else if k <= 2 * |blocks| + 1 {
      HeadCommits(g, d, before, after, blocks, data);
      InstallMeans(g, Headed(g, Logged(g, d, data, |data|), blocks), after, blocks, k - |blocks| - 1);
    } else {
      CommitEnd(g, d, before, after, blocks, data);
    }
  }

  lemma InstallMeans(g: Geometry, d: Disk, h: Disk, blocks: seq<nat>, k: nat)
    requires RepresentsVia(g, d, h, blocks) && k <= |blocks|
    ensures Represents(g, Installed(g, d, blocks, k), h)
  {
    InstallKeeps(g, d, h, blocks, k);
  }

  /** A commit that runs to its end: the new contents are home and the log is empty. */
  lemma CommitEnd(g: Geometry, d: Disk, before: Disk, after: Disk, blocks: seq<nat>, data: seq<Block>)
    requires RepresentsVia(g, d, before, []) && IsUpdate(g, before, after, blocks, data)
    ensures var r := CommitDisk(g, d, blocks, data, 2 * |blocks| + 2);
            RepresentsVia(g, r, after, []) && SameHome(g, r, after)
  {
    HeadCommits(g, d, before, after, blocks, data);
    ClearKeeps(g, Headed(g, Logged(g, d, data, |data|), blocks), after, blocks);
  }

  /** Crash atomicity: whatever write of commit the machine stops after, and however often it stops
      again during recovery, a completed recovery leaves all home blocks old or all of them new. */
  lemma CommitIsAtomic(g: Geometry, d: Disk, before: Disk, after: Disk, blocks: seq<nat>, data: seq<Block>,
                       k: nat, disks: seq<Disk>, e: Disk)
    requires RepresentsVia(g, d, before, []) && IsUpdate(g, before, after, blocks, data)
    requires k <= 2 * |blocks| + 2
    requires Reboots(g, disks) && disks[0] == CommitDisk(g, d, blocks, data, k)
    requires Recovers(g, disks[|disks| - 1], e)
    ensures SameHome(g, e, if k <= |blocks| then before else after)
    ensures Fits(g, e) && HeadIs(g, e, [])
  {
    CommitPoint(g, d, before, after, blocks, data, k);
    RebootsRecover(g, disks, if k <= |blocks| then before else after, e);
  }
}
